/** The time granted to a question across pauses and resumes
    (backend/app/services/match_service.py). */
module Countdown {
  import opened Common
  import opened Lifecycle

  ghost predicate Nondecreasing(now: int, es: seq<Step>)
    decreases |es|
  {
    es == [] || (now <= es[0].at && Nondecreasing(es[0].at, es[1..]))
  }

  /** The un-paused time, up to its deadline, that passes while position k is open. */
  function Granted(l: Life, limits: seq<nat>, now: int, es: seq<Step>, k: nat): int
    decreases |es|
  {
    if es == [] then 0
    else Elapsed(l, now, es[0].at, k) + Granted(Next(l, limits, es[0]), limits, es[0].at, es[1..], k)
  }

  function Min(a: int, b: int): int {
    if a <= b then a else b
  }

  function Elapsed(l: Life, from: int, to: int, k: nat): int {
    if l.game == Some(Running) && 1 <= k <= |l.rows| && l.rows[k - 1].Open() && l.rows[k - 1].deadline.Some? then
      var d := l.rows[k - 1].deadline.value;
      Min(to, d) - Min(from, d)
    else 0
  }

  /** The pauses of a run that took effect. */
  function Pauses(l: Life, limits: seq<nat>, es: seq<Step>): nat
    decreases |es|
  {
    if es == [] then 0
    else (if es[0].PauseMatch? && l.game == Some(Running) then 1 else 0)
         + Pauses(Next(l, limits, es[0]), limits, es[1..])
  }

  /** What the latest pause recorded, once `e` has run. */
  function RecordAfter(l: Life, rec: Option<PauseKey>, e: Step): Option<PauseKey> {
    if e.PauseMatch? && l.game == Some(Running) then Some(PauseRecord(l.rows, e.at)) else rec
  }

  /** Every resume reads exactly what the latest pause recorded. */
  ghost predicate KeysSurvive(l: Life, limits: seq<nat>, rec: Option<PauseKey>, es: seq<Step>)
    decreases |es|
  {
    es == [] ||
    (&& (es[0].ResumeMatch? && l.game == Some(Paused) ==> l.key == rec)
     && KeysSurvive(Next(l, limits, es[0]), limits, RecordAfter(l, rec, es[0]), es[1..]))
  }

  /** A resume hands position k no more time than the latest pause recorded: the key it
      reads says no more, or names another question and the old deadline leaves no more. */
  ghost predicate WithinRecord(l: Life, k: nat, rec: Option<PauseKey>, at: int) {
    Unclosed(l, k) && l.rows[k - 1].deadline.Some? && rec.Some? ==>
      if ReadKey(l.key).position == Some(k) then ReadKey(l.key).remainingMs <= rec.value.remainingMs
      else l.rows[k - 1].deadline.value - at <= rec.value.remainingMs * 1000
  }

  ghost predicate PaidRun(l: Life, limits: seq<nat>, k: nat, rec: Option<PauseKey>, es: seq<Step>)
    decreases |es|
  {
    es == [] ||
    (&& (es[0].ResumeMatch? && l.game == Some(Paused) ==> WithinRecord(l, k, rec, es[0].at))
     && PaidRun(Next(l, limits, es[0]), limits, k, RecordAfter(l, rec, es[0]), es[1..]))
  }

  /** No copy of position k's arming is pending, nor is a hook that schedules one. */
  ghost predicate NoRearm(l: Life, k: nat) {
    Arm(k) !in l.tasks && !(k == 1 && StartHook in l.tasks)
  }

  /** The time position k still has: up to its deadline, or as recorded by the pause. */
  ghost function Budget(l: Life, now: int, k: nat, rec: Option<PauseKey>): int
    requires 1 <= k <= |l.rows| && l.rows[k - 1].deadline.Some?
  {
    match l.game
    case Some(Running) => AtLeastZero(l.rows[k - 1].deadline.value - now)
    case Some(Paused) => if rec.Some? then rec.value.remainingMs * 1000 else 0
    case _ => 0
  }

  ghost predicate OnTheClock(l: Life, limits: seq<nat>, k: nat, rec: Option<PauseKey>) {
    && StatusInv(l, limits) && OrderInv(l)
    && 1 <= k <= |l.rows| && l.rows[k - 1].Open() && l.rows[k - 1].deadline.Some?
    && (l.game == Some(Paused) ==> rec.Some? && rec.value.position == Some(k))
  }

  /** While k is open, a pending timer for another position finds it closed. */
  lemma OthersClosed(l: Life, limits: seq<nat>, k: nat, rec: Option<PauseKey>, j: nat)
    requires OnTheClock(l, limits, k, rec) && j != k
    requires Arm(j) in l.tasks || Close(j, true) in l.tasks || Close(j, false) in l.tasks
    ensures !Unclosed(l, j)
  {
  }

  lemma OthersIdle(l: Life, limits: seq<nat>, k: nat, rec: Option<PauseKey>, e: Step)
    requires OnTheClock(l, limits, k, rec) && NoRearm(l, k)
    requires !e.ResumeMatch? && !Closes(l, k, e)
    ensures Next(l, limits, e).rows == l.rows
  {
    if (e.FireArm? && Arm(e.position) in l.tasks) || (e.FireClose? && Close(e.position, e.registered) in l.tasks && e.position != k) {
      OthersClosed(l, limits, k, rec, e.position);
    }
  }

  predicate Closes(l: Life, k: nat, e: Step) {
    e.FireClose? && e.position == k && CloseTakes(l, k, e.registered)
  }

  lemma LookupsArmNew(l: Life, limits: seq<nat>, k: nat, now: int)
    requires IsStarted(l.rows, k) && Arm(k) !in l.tasks
    ensures Arm(k) !in Next(l, limits, RunArmNext(now)).tasks && Arm(k) !in AfterRecover(l, now).tasks
  {
  }

  lemma HostArmsNone(l: Life, limits: seq<nat>, k: nat, now: int)
    requires Arm(k) !in l.tasks
    ensures Arm(k) !in Next(l, limits, PauseMatch(now)).tasks && Arm(k) !in AfterResume(l, now).tasks
  {
    hide PauseRecord, Extended;
  }

  lemma ArmArmsNone(l: Life, limits: seq<nat>, k: nat, j: nat, now: int)
    requires Arm(k) !in l.tasks
    ensures Arm(k) !in Next(l, limits, FireArm(j, now)).tasks
  {
    LacksStill(l.tasks, Arm(j), Close(j, true), Arm(k));
  }

  lemma CloseArmsNew(l: Life, limits: seq<nat>, k: nat, j: nat, registered: bool, now: int)
    requires OrderInv(l) && IsStarted(l.rows, k) && Arm(k) !in l.tasks
    ensures Arm(k) !in Next(l, limits, FireClose(j, registered, now)).tasks
  {
    assert AllClosedBefore(l.rows, k - 1);
    hide OrderInv, Orderly;
    LacksStill(l.tasks, Close(j, registered), Finish(registered), Arm(k));
    if Unclosed(l, j) && j < |l.rows| {
      LacksStill(l.tasks, Close(j, registered), Arm(j + 1), Arm(k));
    }
  }

  /** Nothing schedules the arming of a question that is started already. */
  lemma NoRearmStep(l: Life, limits: seq<nat>, k: nat, rec: Option<PauseKey>, e: Step)
    requires OnTheClock(l, limits, k, rec) && NoRearm(l, k)
    ensures NoRearm(Next(l, limits, e), k)
  {
    hide OrderInv, AfterArm, AfterClose, AfterResume, AfterRecover, PauseRecord;
    if k == 1 && !e.Start? {
      OthersSpawnNeither(l, limits, e, StartHook);
    }
    match e
    case FireArm(j, now) => ArmArmsNone(l, limits, k, j, now);
    case FireClose(j, registered, now) => CloseArmsNew(l, limits, k, j, registered, now);
    case FireFinish(registered, _) => SpendLacks(l, Finish(registered), Arm(k));
    case RunWriteKey(key, _) => SpendLacks(l, WriteKey(key), Arm(k));
    case DropTask(task, _) => SpendLacks(l, task, Arm(k));
    case RunStartHook(_) =>
      SpendLacks(l, StartHook, Arm(k));
      if k != 1 { SpawnLacks(Spend(l, StartHook), Arm(1), Arm(k)); }
    case _ =>
      LookupsArmNew(l, limits, k, e.at);
      HostArmsNone(l, limits, k, e.at);
  }

  /** Once closed, a question is granted nothing more. */
  lemma {:induction false} ClosedGrantsNothing(l: Life, limits: seq<nat>, now: int, es: seq<Step>, k: nat)
    requires StatusInv(l, limits) && 1 <= k <= |l.rows| && l.rows[k - 1].closed.Some?
    ensures Granted(l, limits, now, es, k) == 0 && !Unclosed(Run(l, limits, es), k)
    decreases |es|
  {
    if es != [] {
      StatusStep(l, limits, es[0]);
      ClosedStays(l, limits, es[0], k);
      ClosedGrantsNothing(Next(l, limits, es[0]), limits, es[0].at, es[1..], k);
    }
  }

  lemma ClosedStays(l: Life, limits: seq<nat>, e: Step, k: nat)
    requires StatusInv(l, limits) && 1 <= k <= |l.rows| && l.rows[k - 1].closed.Some?
    ensures var rows := Next(l, limits, e).rows; |rows| == |l.rows| && rows[k - 1].closed.Some?
  {
  }

  /** Over an open question, a pause records that question. */
  lemma PauseRecordsOpen(l: Life, limits: seq<nat>, k: nat, rec: Option<PauseKey>, now: int)
    requires OnTheClock(l, limits, k, rec)
    ensures PauseRecord(l.rows, now) == PauseKey(Some(k), RemainingMs(l.rows[k - 1], now))
  {
  }

  ghost predicate ClockKept(l: Life, now: int, k: nat, rec: Option<PauseKey>, l': Life, at: int, rec': Option<PauseKey>, slack: nat, exact: bool)
    requires 1 <= k <= |l.rows| && l.rows[k - 1].deadline.Some?
    requires 1 <= k <= |l'.rows| && l'.rows[k - 1].deadline.Some?
  {
    var left := Elapsed(l, now, at, k) + Budget(l', at, k, rec');
    && left <= Budget(l, now, k, rec)
    && (exact && l'.game != Some(Completed) ==> left >= Budget(l, now, k, rec) - slack)
  }

  lemma ClockResume(l: Life, limits: seq<nat>, now: int, k: nat, rec: Option<PauseKey>, at: int)
    requires OnTheClock(l, limits, k, rec) && now <= at
    requires l.game == Some(Paused) ==> WithinRecord(l, k, rec, at)
    ensures var l' := Next(l, limits, ResumeMatch(at));
            && OnTheClock(l', limits, k, rec)
            && ClockKept(l, now, k, rec, l', at, rec, 0, l.game == Some(Paused) ==> l.key == rec)
  {
    var l' := Next(l, limits, ResumeMatch(at));
    StatusStep(l, limits, ResumeMatch(at));
    OrderStep(l, limits, ResumeMatch(at));
    if l.game == Some(Paused) {
      ResumedDeadline(l, limits, k, rec, at);
    }
  }

  /** What a resume makes of the deadline of the open question. */
  lemma ResumedDeadline(l: Life, limits: seq<nat>, k: nat, rec: Option<PauseKey>, at: int)
    requires OnTheClock(l, limits, k, rec) && l.game == Some(Paused)
    ensures var rows, key := Next(l, limits, ResumeMatch(at)).rows, ReadKey(l.key);
            |rows| == |l.rows| && rows[k - 1].deadline ==
              if key.position == Some(k) then Some(at + key.remainingMs * 1000) else l.rows[k - 1].deadline
  {
  }

  lemma ClockPause(l: Life, limits: seq<nat>, now: int, k: nat, rec: Option<PauseKey>, at: int)
    requires OnTheClock(l, limits, k, rec) && now <= at && l.game == Some(Running)
    ensures var l', rec' := Next(l, limits, PauseMatch(at)), Some(PauseRecord(l.rows, at));
            OnTheClock(l', limits, k, rec') && ClockKept(l, now, k, rec, l', at, rec', 999, true)
  {
    StatusStep(l, limits, PauseMatch(at));
    OrderStep(l, limits, PauseMatch(at));
    PauseRecordsOpen(l, limits, k, rec, at);
    var d := l.rows[k - 1].deadline.value;
    assert AtLeastZero(d - at) - 999 <= AtLeastZero(d - at) / 1000 * 1000 <= AtLeastZero(d - at);
  }

  /** Apart from pauses and resumes, the status can only move to completed. */
  lemma OtherStatus(l: Life, limits: seq<nat>, e: Step)
    requires StatusInv(l, limits) && l.game.Some? && !e.ResumeMatch? && !e.PauseMatch?
    ensures Next(l, limits, e).game == l.game || Next(l, limits, e).game == Some(Completed)
  {
  }

  /** The status stays, or the match is completed. */
  ghost predicate SameOrEnded(l: Life, l': Life) {
    l'.rows == l.rows && (l'.game == l.game || l'.game == Some(Completed))
  }

  lemma SameClock(l: Life, limits: seq<nat>, now: int, k: nat, rec: Option<PauseKey>, l': Life, at: int)
    requires OnTheClock(l, limits, k, rec) && SameOrEnded(l, l') && StatusInv(l', limits) && OrderInv(l')
    requires now <= at
    ensures OnTheClock(l', limits, k, rec) && ClockKept(l, now, k, rec, l', at, rec, 0, true)
  {
    hide StatusInv, OrderInv;
  }

  lemma OtherStep(l: Life, limits: seq<nat>, e: Step)
    requires StatusInv(l, limits) && l.game.Some? && Next(l, limits, e).rows == l.rows
    requires !e.ResumeMatch? && !(e.PauseMatch? && l.game == Some(Running))
    ensures SameOrEnded(l, Next(l, limits, e))
  {
    if !e.PauseMatch? {
      OtherStatus(l, limits, e);
    }
  }

  lemma OnTheClockPlayed(l: Life, limits: seq<nat>, k: nat, rec: Option<PauseKey>)
    requires OnTheClock(l, limits, k, rec)
    ensures StatusInv(l, limits) && OrderInv(l) && l.game.Some?
  {
  }

  /** The other steps leave the open question and the status as they are, or complete the match. */
  lemma ClockOthers(l: Life, limits: seq<nat>, now: int, k: nat, rec: Option<PauseKey>, e: Step)
    requires OnTheClock(l, limits, k, rec) && NoRearm(l, k) && CleanStep(l, e) && now <= e.at
    requires !e.ResumeMatch? && !(e.PauseMatch? && l.game == Some(Running)) && !Closes(l, k, e)
    ensures var l' := Next(l, limits, e);
            OnTheClock(l', limits, k, rec) && ClockKept(l, now, k, rec, l', e.at, rec, 0, true)
  {
    hide Next, OrderInv, StatusInv, NoRearm, Closes, CleanStep, OnTheClock, ClockKept;
    OnTheClockPlayed(l, limits, k, rec);
    StatusStep(l, limits, e);
    OrderStep(l, limits, e);
    OthersIdle(l, limits, k, rec, e);
    OtherStep(l, limits, e);
    SameClock(l, limits, now, k, rec, Next(l, limits, e), e.at);
  }

  /** One step spends its elapsed time from the budget, and a pause rounds off
      less than a millisecond. */
  lemma ClockStep(l: Life, limits: seq<nat>, now: int, k: nat, rec: Option<PauseKey>, e: Step)
    requires OnTheClock(l, limits, k, rec) && NoRearm(l, k) && CleanStep(l, e) && now <= e.at
    requires e.ResumeMatch? && l.game == Some(Paused) ==> WithinRecord(l, k, rec, e.at)
    requires !Closes(l, k, e)
    ensures var l', rec' := Next(l, limits, e), RecordAfter(l, rec, e);
            && OnTheClock(l', limits, k, rec') && NoRearm(l', k)
            && ClockKept(l, now, k, rec, l', e.at, rec', 999 * (if e.PauseMatch? && l.game == Some(Running) then 1 else 0),
                         e.ResumeMatch? && l.game == Some(Paused) ==> l.key == rec)
  {
    hide Next, OrderInv, StatusInv;
    NoRearmStep(l, limits, k, rec, e);
    if e.ResumeMatch? {
      ClockResume(l, limits, now, k, rec, e.at);
    } else if e.PauseMatch? && l.game == Some(Running) {
      ClockPause(l, limits, now, k, rec, e.at);
    } else {
      ClockOthers(l, limits, now, k, rec, e);
    }
  }

  function FinalRecord(l: Life, limits: seq<nat>, rec: Option<PauseKey>, es: seq<Step>): Option<PauseKey>
    decreases |es|
  {
    if es == [] then rec else FinalRecord(Next(l, limits, es[0]), limits, RecordAfter(l, rec, es[0]), es[1..])
  }

  function LastTime(now: int, es: seq<Step>): int {
    if es == [] then now else es[|es| - 1].at
  }

  lemma {:induction false} ClockRun(l: Life, limits: seq<nat>, now: int, k: nat, rec: Option<PauseKey>, es: seq<Step>)
    requires OnTheClock(l, limits, k, rec) && NoRearm(l, k) && CleanRun(l, limits, es)
    requires Nondecreasing(now, es) && PaidRun(l, limits, k, rec, es)
    ensures Granted(l, limits, now, es, k) <= Budget(l, now, k, rec)
    ensures var l', rec' := Run(l, limits, es), FinalRecord(l, limits, rec, es);
            Unclosed(l', k) ==>
              && OnTheClock(l', limits, k, rec')
              && var total := Granted(l, limits, now, es, k) + Budget(l', LastTime(now, es), k, rec');
                 && total <= Budget(l, now, k, rec)
                 && (KeysSurvive(l, limits, rec, es) && l'.game != Some(Completed) ==>
                       total >= Budget(l, now, k, rec) - 999 * Pauses(l, limits, es))
    decreases |es|
  {
    hide Next, OrderInv, StatusInv, CleanStep;
    if es != [] {
      var l1 := Next(l, limits, es[0]);
      OnTheClockStatus(l, limits, k, rec);
      StatusStep(l, limits, es[0]);
      if Closes(l, k, es[0]) {
        ClosesRow(l, limits, k, es[0]);
        ClosedGrantsNothing(l1, limits, es[0].at, es[1..], k);
      } else {
        ClockStep(l, limits, now, k, rec, es[0]);
        if l1.game == Some(Completed) {
          StatusRun(l1, limits, es[1..]);
        }
        ClockRun(l1, limits, es[0].at, k, RecordAfter(l, rec, es[0]), es[1..]);
        assert LastTime(now, es) == LastTime(es[0].at, es[1..]);
      }
    }
  }

  /** A resume that reads what the latest pause recorded hands out no more than that. */
  lemma {:induction false} KeysArePaid(l: Life, limits: seq<nat>, now: int, k: nat, rec: Option<PauseKey>, es: seq<Step>)
    requires OnTheClock(l, limits, k, rec) && NoRearm(l, k) && CleanRun(l, limits, es)
    requires Nondecreasing(now, es) && KeysSurvive(l, limits, rec, es)
    ensures PaidRun(l, limits, k, rec, es)
    decreases |es|
  {
    hide Next, OrderInv, StatusInv, CleanStep;
    if es != [] {
      var l1 := Next(l, limits, es[0]);
      OnTheClockStatus(l, limits, k, rec);
      StatusStep(l, limits, es[0]);
      if Closes(l, k, es[0]) {
        ClosesRow(l, limits, k, es[0]);
        ClosedIsPaid(l1, limits, k, RecordAfter(l, rec, es[0]), es[1..]);
      } else {
        ClockStep(l, limits, now, k, rec, es[0]);
        KeysArePaid(l1, limits, es[0].at, k, RecordAfter(l, rec, es[0]), es[1..]);
      }
    }
  }

  lemma {:induction false} ClosedIsPaid(l: Life, limits: seq<nat>, k: nat, rec: Option<PauseKey>, es: seq<Step>)
    requires StatusInv(l, limits) && 1 <= k <= |l.rows| && l.rows[k - 1].closed.Some?
    ensures PaidRun(l, limits, k, rec, es)
    decreases |es|
  {
    hide Next;
    if es != [] {
      StatusStep(l, limits, es[0]);
      ClosedStays(l, limits, es[0], k);
      ClosedIsPaid(Next(l, limits, es[0]), limits, k, RecordAfter(l, rec, es[0]), es[1..]);
    }
  }

  lemma OnTheClockStatus(l: Life, limits: seq<nat>, k: nat, rec: Option<PauseKey>)
    requires OnTheClock(l, limits, k, rec)
    ensures StatusInv(l, limits)
  {
  }

  lemma ClosesRow(l: Life, limits: seq<nat>, k: nat, e: Step)
    requires Closes(l, k, e)
    ensures var rows := Next(l, limits, e).rows; 1 <= k <= |rows| && rows[k - 1].closed.Some?
  {
  }

  /** Arming puts the question on the clock with its whole limit. */
  lemma ArmedOnTheClock(l: Life, limits: seq<nat>, now: int, k: nat)
    requires StatusInv(l, limits) && OrderInv(l) && ArmTakes(l, k)
    ensures var l1 := Next(l, limits, FireArm(k, now));
            OnTheClock(l1, limits, k, None) && Budget(l1, now, k, None) == limits[k - 1] * 1_000_000
  {
    StatusStep(l, limits, FireArm(k, now));
    OrderStep(l, limits, FireArm(k, now));
  }

  /** From the moment a question is armed, with no second copy of its arming about,
      through any number of pauses and of resumes that hand out no more than the latest
      pause recorded, the un-paused time granted before its deadline never exceeds the
      time limit. If each resume reads just what the latest pause recorded, then until
      the question is closed what has been granted plus what is still owed falls short
      of the limit by less than a millisecond per pause. */
  lemma GrantedTimeMatchesLimit(l: Life, limits: seq<nat>, now: int, k: nat, es: seq<Step>)
    requires StatusInv(l, limits) && OrderInv(l) && ArmTakes(l, k)
    requires var l1 := Next(l, limits, FireArm(k, now));
             && NoRearm(l1, k) && CleanRun(l1, limits, es) && Nondecreasing(now, es)
             && (PaidRun(l1, limits, k, None, es) || KeysSurvive(l1, limits, None, es))
    ensures var l1 := Next(l, limits, FireArm(k, now));
            var l2, limit := Run(l1, limits, es), limits[k - 1] * 1_000_000;
            && Granted(l1, limits, now, es, k) <= limit
            && (l2.game == Some(Running) && Unclosed(l2, k) ==>
                  && l2.rows[k - 1].deadline.Some?
                  && var total := Granted(l1, limits, now, es, k)
                                  + AtLeastZero(l2.rows[k - 1].deadline.value - LastTime(now, es));
                     && total <= limit
                     && (KeysSurvive(l1, limits, None, es) ==> total >= limit - 999 * Pauses(l1, limits, es)))
  {
    hide OrderInv, Next, Granted, CleanRun, KeysSurvive, PaidRun, Run, Pauses, Nondecreasing;
    var l1 := Next(l, limits, FireArm(k, now));
    ArmedOnTheClock(l, limits, now, k);
    if KeysSurvive(l1, limits, None, es) {
      KeysArePaid(l1, limits, now, k, None, es);
    }
    ClockRun(l1, limits, now, k, None, es);
  }

  /** No continuation with clean look-ups and an ordered clock, in which each resume
      hands out no more than the latest pause recorded, grants k more than `most`. */
  ghost predicate GrantsAtMost(l: Life, limits: seq<nat>, now: int, k: nat, rec: Option<PauseKey>, most: int) {
    forall es :: CleanRun(l, limits, es) && Nondecreasing(now, es) && PaidRun(l, limits, k, rec, es) ==>
      Granted(l, limits, now, es, k) <= most
  }

  /** The arming and its timers grant a question its limit once if and only if, when it
      is armed, no second copy of its arming is pending and no start hook is about to
      make one. */
  lemma LimitOnceExactly(l: Life, limits: seq<nat>, now: int, k: nat)
    requires StatusInv(l, limits) && OrderInv(l) && ArmTakes(l, k) && limits[k - 1] > 0
    ensures var l1 := Next(l, limits, FireArm(k, now));
            GrantsAtMost(l1, limits, now, k, None, limits[k - 1] * 1_000_000)
            <==> Arm(k) !in l1.tasks && !(k == 1 && StartHook in l1.tasks)
  {
    var l1 := Next(l, limits, FireArm(k, now));
    var most := limits[k - 1] * 1_000_000;
    ArmedOnTheClock(l, limits, now, k);
    if NoRearm(l1, k) {
      forall es | CleanRun(l1, limits, es) && Nondecreasing(now, es) && PaidRun(l1, limits, k, None, es)
        ensures Granted(l1, limits, now, es, k) <= most
      {
        ClockRun(l1, limits, now, k, None, es);
      }
    } else {
      var es := GrantTwice(l1, limits, now, k);
      assert !GrantsAtMost(l1, limits, now, k, None, most);
    }
  }

  /** The resume that does not: after it the question can be granted no more than the
      latest pause recorded if and only if the key it reads says no more, or, where that
      key is lost or older and names another question, the old deadline leaves no more. */
  lemma ResumePaysExactly(l: Life, limits: seq<nat>, k: nat, rec: PauseKey, at: int)
    requires OnTheClock(l, limits, k, Some(rec)) && NoRearm(l, k) && l.game == Some(Paused)
    ensures GrantsAtMost(Next(l, limits, ResumeMatch(at)), limits, at, k, Some(rec), rec.remainingMs * 1000)
            <==> if ReadKey(l.key).position == Some(k) then ReadKey(l.key).remainingMs <= rec.remainingMs
                 else l.rows[k - 1].deadline.value - at <= rec.remainingMs * 1000
  {
    var l1, most := Next(l, limits, ResumeMatch(at)), rec.remainingMs * 1000;
    ResumedDeadline(l, limits, k, Some(rec), at);
    assert OnTheClock(l1, limits, k, Some(rec)) && l1.game == Some(Running) by {
      StatusStep(l, limits, ResumeMatch(at));
      OrderStep(l, limits, ResumeMatch(at));
    }
    NoRearmStep(l, limits, k, Some(rec), ResumeMatch(at));
    var d := l1.rows[k - 1].deadline.value;
    hide Next, OrderInv, StatusInv;
    if d - at <= most {
      forall es | CleanRun(l1, limits, es) && Nondecreasing(at, es) && PaidRun(l1, limits, k, Some(rec), es)
        ensures Granted(l1, limits, at, es, k) <= most
      {
        ClockRun(l1, limits, at, k, Some(rec), es);
      }
    } else {
      GrantsTheRest(l1, limits, at, k, Some(rec));
      assert !GrantsAtMost(l1, limits, at, k, Some(rec), most);
    }
  }

  /** Left alone, an open question is granted all the time to its deadline. */
  lemma GrantsTheRest(l: Life, limits: seq<nat>, now: int, k: nat, rec: Option<PauseKey>)
    requires OnTheClock(l, limits, k, rec) && l.game == Some(Running) && now <= l.rows[k - 1].deadline.value
    ensures var d := l.rows[k - 1].deadline.value;
            var es := [LoseKey(d)];
            && CleanRun(l, limits, es) && Nondecreasing(now, es) && PaidRun(l, limits, k, rec, es)
            && Granted(l, limits, now, es, k) == d - now
  {
    var d := l.rows[k - 1].deadline.value;
    assert [LoseKey(d)][1..] == [];
    assert Granted(Next(l, limits, LoseKey(d)), limits, d, [], k) == 0;
  }

  /** The pending copy re-stamps the question at its deadline. */
  lemma GrantTwice(l: Life, limits: seq<nat>, now: int, k: nat) returns (es: seq<Step>)
    requires OnTheClock(l, limits, k, None) && l.game == Some(Running) && limits[k - 1] > 0
    requires l.rows[k - 1].deadline == Some(now + limits[k - 1] * 1_000_000) && !NoRearm(l, k)
    ensures CleanRun(l, limits, es) && Nondecreasing(now, es) && PaidRun(l, limits, k, None, es)
    ensures Granted(l, limits, now, es, k) == 2 * limits[k - 1] * 1_000_000
  {
    var limit := limits[k - 1] * 1_000_000;
    var tail := [FireArm(k, now + limit), LoseKey(now + 2 * limit)];
    hide OrderInv, StatusInv;
    if Arm(k) in l.tasks {
      es := tail;
      Restamped(l, limits, now, k);
    } else {
      var l1 := Next(l, limits, RunStartHook(now));
      assert l1.rows == l.rows && l1.game == l.game && Arm(1) in l1.tasks;
      es := [RunStartHook(now)] + tail;
      Restamped(l1, limits, now, k);
      StartsWithHook(l, limits, now, k, tail);
    }
  }

  lemma StartsWithHook(l: Life, limits: seq<nat>, now: int, k: nat, tail: seq<Step>)
    requires StartHook in l.tasks
    ensures var l1, es := Next(l, limits, RunStartHook(now)), [RunStartHook(now)] + tail;
            && (CleanRun(l1, limits, tail) ==> CleanRun(l, limits, es))
            && (Nondecreasing(now, tail) ==> Nondecreasing(now, es))
            && (PaidRun(l1, limits, k, None, tail) ==> PaidRun(l, limits, k, None, es))
            && Granted(l, limits, now, es, k) == Granted(l1, limits, now, tail, k)
  {
    hide Next;
    var es := [RunStartHook(now)] + tail;
    assert es[1..] == tail;
  }

  lemma Restamped(l: Life, limits: seq<nat>, now: int, k: nat)
    requires 1 <= k <= |l.rows| && k <= |limits| && l.rows[k - 1].Open() && ArmTakes(l, k)
    requires l.rows[k - 1].deadline == Some(now + limits[k - 1] * 1_000_000)
    ensures var limit := limits[k - 1] * 1_000_000;
            var es := [FireArm(k, now + limit), LoseKey(now + 2 * limit)];
            && CleanRun(l, limits, es) && Nondecreasing(now, es) && PaidRun(l, limits, k, None, es)
            && Granted(l, limits, now, es, k) == 2 * limit
  {
    var limit := limits[k - 1] * 1_000_000;
    var es := [FireArm(k, now + limit), LoseKey(now + 2 * limit)];
    var l1 := Next(l, limits, es[0]);
    assert es[1..] == [LoseKey(now + 2 * limit)] && es[1..][1..] == [];
    assert l1.game == Some(Running) && l1.rows[k - 1].Open() && l1.rows[k - 1].deadline == Some(now + 2 * limit);
    assert Granted(Next(l1, limits, es[1]), limits, now + 2 * limit, [], k) == 0;
  }

  /** A recovery that follows the start hook leaves a second copy: question 1 is armed
      once and its limit can be granted twice. */
  lemma RestampReached()
    ensures var l := Run(NEW_ROOM, [20], [Start(0)] + ([RunStartHook(0)] + ([Recover(0)] + [FireArm(1, 0)])));
            |l.rows| == 1 && l.rows[0].Open() && !GrantsAtMost(l, [20], 0, 1, None, 20_000_000)
  {
    var limits := [20];
    var l1 := Next(NEW_ROOM, limits, Start(0));
    var l2 := Next(l1, limits, RunStartHook(0));
    assert l2 == Life(Running, Some(Running), [FRESH_ROW], None, multiset{Arm(1)});
    RecoveredTwice(l2);
    var l3 := Next(l2, limits, Recover(0));
    RunOne(l3, limits, FireArm(1, 0));
    RunMore(l2, limits, Recover(0), [FireArm(1, 0)]);
    RunMore(l1, limits, RunStartHook(0), [Recover(0)] + [FireArm(1, 0)]);
    RunMore(NEW_ROOM, limits, Start(0), [RunStartHook(0)] + ([Recover(0)] + [FireArm(1, 0)]));
  }

  lemma RecoveredTwice(l: Life)
    requires l == Life(Running, Some(Running), [FRESH_ROW], None, multiset{Arm(1)})
    ensures var l2 := Next(Next(l, [20], Recover(0)), [20], FireArm(1, 0));
            |l2.rows| == 1 && l2.rows[0].Open() && !GrantsAtMost(l2, [20], 0, 1, None, 20_000_000)
  {
    var l1 := Next(l, [20], Recover(0));
    assert OpenPosition(l.rows).None? && NextUnstarted(l.rows) == Some(1);
    assert l1.tasks == multiset{Arm(1), Arm(1)} && l1.rows == l.rows;
    assert StatusInv(l1, [20]) && OrderInv(l1);
    hide GrantsAtMost;
    LimitOnceExactly(l1, [20], 0, 1);
    assert Arm(1) in Next(l1, [20], FireArm(1, 0)).tasks;
  }

  /** A resume that overtakes the write of the latest pause key reads the one before:
      the question of twenty seconds is granted thirty-four. */
  lemma StaleKeyReached()
    ensures var l := Run(NEW_ROOM, [20], [Start(0)] + ([RunStartHook(0)] + [FireArm(1, 0)]));
            && NoRearm(l, 1) && CleanRun(l, [20], STALE_KEY) && Nondecreasing(0, STALE_KEY)
            && Granted(l, [20], 0, STALE_KEY, 1) == 34_000_000
  {
    OpensFirst();
    FirstPause();
    SecondPause();
    assert NoRearm(OPENED, 1);
    hide Next, Run, CleanRun, Granted, Nondecreasing;
    ThreeSteps(OPENED, [20], 0, STALE_KEY, 1);
  }

  const FIRST_KEY := PauseKey(Some(1), 19_000)

  /** Paused after a second and after fifteen; the second key is never written. */
  const STALE_KEY := [PauseMatch(1_000_000), RunWriteKey(FIRST_KEY, 1_000_000), ResumeMatch(1_000_000),
                      PauseMatch(15_000_000), ResumeMatch(15_000_000), LoseKey(34_000_000)]

  lemma ThreeSteps(l: Life, limits: seq<nat>, now: int, es: seq<Step>, k: nat)
    requires |es| >= 3
    ensures var l1 := Next(l, limits, es[0]);
            var l2 := Next(l1, limits, es[1]);
            var l3 := Next(l2, limits, es[2]);
            && (CleanRun(l, limits, es) <==>
                CleanStep(l, es[0]) && CleanStep(l1, es[1]) && CleanStep(l2, es[2]) && CleanRun(l3, limits, es[3..]))
            && (Nondecreasing(now, es) <==> now <= es[0].at <= es[1].at <= es[2].at && Nondecreasing(es[2].at, es[3..]))
            && Granted(l, limits, now, es, k) ==
               Elapsed(l, now, es[0].at, k) + Elapsed(l1, es[0].at, es[1].at, k) + Elapsed(l2, es[1].at, es[2].at, k)
               + Granted(l3, limits, es[2].at, es[3..], k)
  {
    hide Next, CleanStep, Elapsed, CleanRun, Nondecreasing, Granted;
    assert es[1..][0] == es[1] && es[1..][1..] == es[2..] && es[2..][0] == es[2] && es[2..][1..] == es[3..];
    FirstStep(l, limits, now, es, k);
    var l1 := Next(l, limits, es[0]);
    FirstStep(l1, limits, es[0].at, es[1..], k);
    FirstStep(Next(l1, limits, es[1]), limits, es[1].at, es[2..], k);
  }

  lemma FirstStep(l: Life, limits: seq<nat>, now: int, es: seq<Step>, k: nat)
    requires es != []
    ensures var l1 := Next(l, limits, es[0]);
            && (CleanRun(l, limits, es) <==> CleanStep(l, es[0]) && CleanRun(l1, limits, es[1..]))
            && (Nondecreasing(now, es) <==> now <= es[0].at && Nondecreasing(es[0].at, es[1..]))
            && Granted(l, limits, now, es, k) == Elapsed(l, now, es[0].at, k) + Granted(l1, limits, es[0].at, es[1..], k)
  {
  }

  /** The match after the first resume. */
  ghost predicate ResumedOnce(l: Life) {
    l.game == Some(Running) && l.rows == OPENED.rows && l.key == Some(FIRST_KEY)
  }

  lemma FirstPause()
    ensures var l1 := Next(OPENED, [20], STALE_KEY[0]);
            var l2 := Next(l1, [20], STALE_KEY[1]);
            && l1.game == l2.game == Some(Paused) && ResumedOnce(Next(l2, [20], STALE_KEY[2]))
  {
    assert OpenPosition(OPENED.rows) == Some(1);
    var l1 := Next(OPENED, [20], STALE_KEY[0]);
    assert WriteKey(FIRST_KEY) in l1.tasks;
  }

  lemma SecondPause()
    ensures forall l :: ResumedOnce(l) ==>
              CleanRun(l, [20], STALE_KEY[3..]) && Nondecreasing(1_000_000, STALE_KEY[3..])
              && Granted(l, [20], 1_000_000, STALE_KEY[3..], 1) == 33_000_000
  {
    forall l | ResumedOnce(l)
      ensures CleanRun(l, [20], STALE_KEY[3..]) && Nondecreasing(1_000_000, STALE_KEY[3..])
      ensures Granted(l, [20], 1_000_000, STALE_KEY[3..], 1) == 33_000_000
    {
      var es := STALE_KEY[3..];
      assert OpenPosition(l.rows) == Some(1);
      var l1 := Next(l, [20], es[0]);
      assert l1.game == Some(Paused) && l1.rows == l.rows && l1.key == l.key;
      var l2 := Next(l1, [20], es[1]);
      assert l2.game == Some(Running) && l2.rows == [QuestionRow(Some(0), Some(34_000_000), None)];
      ThreeSteps(l, [20], 1_000_000, es, 1);
      assert es[3..] == [];
    }
  }
}
