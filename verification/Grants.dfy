/** The time granted to a question in any run at all: where it comes from, and when a
    question can be stamped a second time (backend/app/services/match_service.py). */
module Grants {
  import opened Common
  import opened Lifecycle
  import opened Countdown

  // ---------------------------------------------------------------------------
  // Every microsecond accounted for
  // ---------------------------------------------------------------------------

  predicate IsOpen(l: Life, k: nat) {
    1 <= k <= |l.rows| && l.rows[k - 1].Open()
  }

  predicate Ticks(l: Life, k: nat) {
    IsOpen(l, k) && l.rows[k - 1].deadline.Some?
  }

  /** The time open question k has left: up to its deadline, or `parked` while paused. */
  ghost function Left(l: Life, now: int, k: nat, parked: int): int {
    if !Ticks(l, k) then 0
    else if l.game == Some(Running) then AtLeastZero(l.rows[k - 1].deadline.value - now)
    else if l.game == Some(Paused) then parked
    else 0
  }

  ghost function ParkedAfter(l: Life, e: Step, k: nat, parked: int): int {
    if e.PauseMatch? && l.game == Some(Running) then Left(l, e.at, k, parked) else parked
  }

  predicate Ends(l: Life, e: Step) {
    (e.EndMatch? && EndTakes(l)) || (e.FireFinish? && FinishTakes(l, e.registered))
  }

  /** The time that a step adds to what question k has left, or takes from it. */
  ghost function Extra(l: Life, limits: seq<nat>, e: Step, k: nat, parked: int): int {
    if e.FireArm? && e.position == k && ArmTakes(l, k) then
      (if k <= |limits| then limits[k - 1] else 0) * 1_000_000 - Left(l, e.at, k, parked)
    else if e.ResumeMatch? && l.game == Some(Paused) && IsOpen(l, k) then
      (if ReadKey(l.key).position == Some(k) then ReadKey(l.key).remainingMs * 1000
       else if Ticks(l, k) then AtLeastZero(l.rows[k - 1].deadline.value - e.at) else 0) - Left(l, e.at, k, parked)
    else if Closes(l, k, e) || Ends(l, e) then 0 - Left(l, e.at, k, parked)
    else 0
  }

  ghost function Extras(l: Life, limits: seq<nat>, es: seq<Step>, k: nat, parked: int): int
    decreases |es|
  {
    if es == [] then 0
    else Extra(l, limits, es[0], k, parked)
         + Extras(Next(l, limits, es[0]), limits, es[1..], k, ParkedAfter(l, es[0], k, parked))
  }

  ghost function ParkedAtEnd(l: Life, limits: seq<nat>, es: seq<Step>, k: nat, parked: int): int
    decreases |es|
  {
    if es == [] then parked
    else ParkedAtEnd(Next(l, limits, es[0]), limits, es[1..], k, ParkedAfter(l, es[0], k, parked))
  }

  /** What passes by the time of the next step leaves the rest. */
  lemma TimePasses(l: Life, now: int, at: int, k: nat, parked: int)
    ensures Elapsed(l, now, at, k) + Left(l, at, k, parked) == Left(l, now, k, parked)
  {
  }

  /** What StepAdds says. */
  ghost predicate Adds(l: Life, limits: seq<nat>, e: Step, k: nat, parked: int) {
    Left(Next(l, limits, e), e.at, k, ParkedAfter(l, e, k, parked)) == Left(l, e.at, k, parked) + Extra(l, limits, e, k, parked)
  }

  lemma ArmAdds(l: Life, limits: seq<nat>, j: nat, now: int, k: nat, parked: int)
    ensures Adds(l, limits, FireArm(j, now), k, parked)
  {
  }

  lemma CloseAdds(l: Life, limits: seq<nat>, j: nat, registered: bool, now: int, k: nat, parked: int)
    ensures Adds(l, limits, FireClose(j, registered, now), k, parked)
  {
  }

  lemma ResumeAdds(l: Life, limits: seq<nat>, now: int, k: nat, parked: int)
    ensures Adds(l, limits, ResumeMatch(now), k, parked)
  {
  }

  lemma EndAdds(l: Life, limits: seq<nat>, e: Step, k: nat, parked: int)
    requires e.EndMatch? || e.FireFinish?
    ensures Adds(l, limits, e, k, parked)
  {
  }

  lemma PauseAdds(l: Life, limits: seq<nat>, now: int, k: nat, parked: int)
    ensures Adds(l, limits, PauseMatch(now), k, parked)
  {
    hide PauseRecord;
  }

  /** The other steps leave rows and status, or start a match without open questions. */
  lemma OthersAdd(l: Life, limits: seq<nat>, e: Step, k: nat, parked: int)
    requires StatusInv(l, limits)
    requires !e.FireArm? && !e.FireClose? && !e.ResumeMatch? && !e.EndMatch? && !e.FireFinish? && !e.PauseMatch?
    ensures Adds(l, limits, e, k, parked)
  {
    hide Left;
    if e.Start? {
      StartAdds(l, limits, e, k, parked);
    } else {
      RowsStay(l, limits, e);
      SameLeft(l, Next(l, limits, e), e.at, k, parked);
    }
  }

  lemma SameLeft(l: Life, l': Life, now: int, k: nat, parked: int)
    requires l'.rows == l.rows && l'.game == l.game
    ensures Left(l', now, k, parked) == Left(l, now, k, parked)
  {
  }

  lemma RowsStay(l: Life, limits: seq<nat>, e: Step)
    requires !e.Start? && !e.FireArm? && !e.FireClose? && !e.ResumeMatch? && !e.EndMatch? && !e.FireFinish? && !e.PauseMatch?
    ensures Next(l, limits, e).rows == l.rows && Next(l, limits, e).game == l.game
  {
    hide NextUnstarted, OpenPosition, AfterRecover;
    StatusRows(l, e.at);
  }

  lemma StartAdds(l: Life, limits: seq<nat>, e: Step, k: nat, parked: int)
    requires StatusInv(l, limits) && e.Start?
    ensures Adds(l, limits, e, k, parked)
  {
  }

  lemma StepAdds(l: Life, limits: seq<nat>, e: Step, k: nat, parked: int)
    requires StatusInv(l, limits)
    ensures Adds(l, limits, e, k, parked)
  {
    hide Adds, StatusInv;
    match e
    case FireArm(j, now) => ArmAdds(l, limits, j, now, k, parked);
    case FireClose(j, registered, now) => CloseAdds(l, limits, j, registered, now, k, parked);
    case ResumeMatch(now) => ResumeAdds(l, limits, now, k, parked);
    case PauseMatch(now) => PauseAdds(l, limits, now, k, parked);
    case EndMatch(_) => EndAdds(l, limits, e, k, parked);
    case FireFinish(_, _) => EndAdds(l, limits, e, k, parked);
    case _ => OthersAdd(l, limits, e, k, parked);
  }

  lemma StatusRows(l: Life, now: int)
    ensures AfterRecover(l, now).rows == l.rows && AfterRecover(l, now).game == l.game
  {
  }

  /** In every run, whatever its look-ups find, its keys say and its clocks read: the time
      granted to a question plus the time it has left is the time it had plus what the
      steps of the run added to it and took from it. */
  lemma {:induction false} TimeIsAccounted(l: Life, limits: seq<nat>, now: int, k: nat, parked: int, es: seq<Step>)
    requires StatusInv(l, limits)
    ensures Granted(l, limits, now, es, k)
            + Left(Run(l, limits, es), LastTime(now, es), k, ParkedAtEnd(l, limits, es, k, parked))
            == Left(l, now, k, parked) + Extras(l, limits, es, k, parked)
    decreases |es|
  {
    hide Next, Elapsed, Left, Extra, ParkedAfter, StatusInv;
    if es != [] {
      var l1 := Next(l, limits, es[0]);
      TimePasses(l, now, es[0].at, k, parked);
      StepAdds(l, limits, es[0], k, parked);
      StatusStep(l, limits, es[0]);
      TimeIsAccounted(l1, limits, es[0].at, k, ParkedAfter(l, es[0], k, parked), es[1..]);
      assert LastTime(now, es) == LastTime(es[0].at, es[1..]);
    }
  }

  /** Only a second stamp and a resume can add time. */
  predicate CanAdd(l: Life, e: Step, k: nat) {
    (e.FireArm? && e.position == k && ArmTakes(l, k)) || (e.ResumeMatch? && l.game == Some(Paused))
  }

  /** No step of the run adds time to question k. */
  ghost predicate NothingAdded(l: Life, limits: seq<nat>, es: seq<Step>, k: nat, parked: int)
    decreases |es|
  {
    es == [] ||
    (&& (CanAdd(l, es[0], k) ==> Extra(l, limits, es[0], k, parked) <= 0)
     && NothingAdded(Next(l, limits, es[0]), limits, es[1..], k, ParkedAfter(l, es[0], k, parked)))
  }

  lemma LeftIsNotNegative(l: Life, now: int, k: nat, parked: int)
    requires parked >= 0
    ensures Left(l, now, k, parked) >= 0
  {
  }

  lemma {:induction false} ExtrasNotPositive(l: Life, limits: seq<nat>, es: seq<Step>, k: nat, parked: int)
    requires parked >= 0 && NothingAdded(l, limits, es, k, parked)
    ensures Extras(l, limits, es, k, parked) <= 0 && ParkedAtEnd(l, limits, es, k, parked) >= 0
    decreases |es|
  {
    hide Next, Left;
    if es != [] {
      LeftIsNotNegative(l, es[0].at, k, parked);
      ExtrasNotPositive(Next(l, limits, es[0]), limits, es[1..], k, ParkedAfter(l, es[0], k, parked));
    }
  }

  /** So from the moment it is armed a question is granted no more than its limit in any
      run in which no second stamp and no resume adds time, clean look-ups or not. */
  lemma NoMoreThanLimit(l: Life, limits: seq<nat>, now: int, k: nat, es: seq<Step>)
    requires StatusInv(l, limits) && ArmTakes(l, k) && NothingAdded(Next(l, limits, FireArm(k, now)), limits, es, k, 0)
    ensures Granted(Next(l, limits, FireArm(k, now)), limits, now, es, k) <= limits[k - 1] * 1_000_000
  {
    var l1 := Next(l, limits, FireArm(k, now));
    StatusStep(l, limits, FireArm(k, now));
    assert Left(l1, now, k, 0) == limits[k - 1] * 1_000_000;
    TimeIsAccounted(l1, limits, now, k, 0, es);
    ExtrasNotPositive(l1, limits, es, k, 0);
    LeftIsNotNegative(Run(l1, limits, es), LastTime(now, es), k, ParkedAtEnd(l1, limits, es, k, 0));
  }

  /** And each step that does add time can make the question exceed what it had left. */
  lemma AddedTimeIsGranted(l: Life, limits: seq<nat>, e: Step, k: nat, parked: int)
    requires StatusInv(l, limits) && parked >= 0 && CanAdd(l, e, k) && Extra(l, limits, e, k, parked) > 0
    ensures var l' := Next(l, limits, e);
            && Ticks(l', k)
            && Granted(l', limits, e.at, [LoseKey(l'.rows[k - 1].deadline.value)], k)
               == Left(l, e.at, k, parked) + Extra(l, limits, e, k, parked)
  {
    var l' := Next(l, limits, e);
    StepAdds(l, limits, e, k, parked);
    LeftIsNotNegative(l, e.at, k, parked);
    assert l'.game == Some(Running) && Ticks(l', k);
    hide Next;
    var d := l'.rows[k - 1].deadline.value;
    assert Left(l', e.at, k, ParkedAfter(l, e, k, parked)) == d - e.at > 0;
    assert [LoseKey(d)][1..] == [];
    assert Granted(Next(l', limits, LoseKey(d)), limits, d, [], k) == 0;
  }

  // ---------------------------------------------------------------------------
  // When a question can be stamped again
  // ---------------------------------------------------------------------------

  /** Timers firing and being lost, a crash, a pause, an end: everything but resumes,
      look-ups, recoveries and starts. */
  predicate TimersOnly(e: Step) {
    !e.Start? && !e.ResumeMatch? && !e.RunArmNext? && !e.Recover?
  }

  ghost predicate AllTimers(es: seq<Step>) {
    forall e :: e in es ==> TimersOnly(e)
  }

  ghost predicate StampedAgain(l: Life, limits: seq<nat>, es: seq<Step>, k: nat)
    decreases |es|
  {
    es != [] && ((es[0].FireArm? && es[0].position == k && ArmTakes(l, k)) || StampedAgain(Next(l, limits, es[0]), limits, es[1..], k))
  }

  /** Questions j..k-1 are not closed, so their timers can run one after another. */
  ghost predicate Leads(l: Life, j: nat, k: nat) {
    1 <= j <= k && forall i :: j <= i < k ==> Unclosed(l, i)
  }

  /** A pending task that leads to the arming of question k. */
  ghost predicate LeadingTask(l: Life, task: Task, k: nat) {
    match task
    case StartHook => Leads(l, 1, k)
    case Arm(j) => Leads(l, j, k)
    case Close(j, _) => j < k && Leads(l, j, k)
    case _ => false
  }

  ghost predicate NoneLeads(l: Life, k: nat) {
    forall task :: task in l.tasks ==> !LeadingTask(l, task, k)
  }

  /** Rows that only gain closing stamps lead nowhere new. */
  lemma LeadsLess(l: Life, l': Life, task: Task, k: nat)
    requires |l'.rows| == |l.rows| && forall i :: 0 <= i < |l.rows| && l.rows[i].closed.Some? ==> l'.rows[i].closed.Some?
    ensures LeadingTask(l', task, k) ==> LeadingTask(l, task, k)
  {
    assert forall i :: Unclosed(l', i) ==> Unclosed(l, i);
  }

  lemma NoneLeadsArm(l: Life, limits: seq<nat>, j: nat, now: int, k: nat)
    requires NoneLeads(l, k)
    ensures NoneLeads(Next(l, limits, FireArm(j, now)), k)
  {
    var l' := Next(l, limits, FireArm(j, now));
    forall task | task in l'.tasks ensures !LeadingTask(l', task, k) {
      LeadsLess(l, l', task, k);
      if task !in l.tasks {
        assert task == Close(j, true) && Arm(j) in l.tasks;
        assert !LeadingTask(l, Arm(j), k);
      }
    }
  }

  lemma NoneLeadsClose(l: Life, limits: seq<nat>, j: nat, registered: bool, now: int, k: nat)
    requires NoneLeads(l, k)
    ensures NoneLeads(Next(l, limits, FireClose(j, registered, now)), k)
  {
    var l' := Next(l, limits, FireClose(j, registered, now));
    forall task | task in l'.tasks ensures !LeadingTask(l', task, k) {
      LeadsLess(l, l', task, k);
      if task !in l.tasks {
        assert CloseTakes(l, j, registered) && (task == Arm(j + 1) || task == Finish(registered));
        assert !LeadingTask(l, Close(j, registered), k);
      }
    }
  }

  lemma NoneLeadsOther(l: Life, limits: seq<nat>, e: Step, k: nat)
    requires NoneLeads(l, k) && TimersOnly(e) && !e.FireArm? && !e.FireClose?
    ensures NoneLeads(Next(l, limits, e), k)
  {
    var l' := Next(l, limits, e);
    OtherTasks(l, limits, e);
    hide Next, LeadingTask;
    SameRowsLead(l, l', k);
    HookLeads(l, k);
    KeysLeadNowhere(l', k);
  }

  lemma OtherTasks(l: Life, limits: seq<nat>, e: Step)
    requires TimersOnly(e) && !e.FireArm? && !e.FireClose?
    ensures var l' := Next(l, limits, e);
            && l'.rows == l.rows
            && forall task :: task in l'.tasks ==>
                 task in l.tasks || task.WriteKey? || (task == Arm(1) && StartHook in l.tasks)
  {
    hide PauseRecord, Spend, Spawn;
    match e
    case RunStartHook(_) =>
      SpendKeeps(l, StartHook);
      SpawnAdds(Spend(l, StartHook), Arm(1));
    case FireFinish(registered, _) => SpendKeeps(l, Finish(registered));
    case RunWriteKey(key, _) => SpendKeeps(l, WriteKey(key));
    case DropTask(task, _) => SpendKeeps(l, task);
    case PauseMatch(now) => SpawnAdds(SetStatus(l, Paused), WriteKey(PauseRecord(l.rows, now)));
    case _ =>
  }

  lemma SpendKeeps(l: Life, spent: Task)
    ensures Spend(l, spent).rows == l.rows && forall task :: task in Spend(l, spent).tasks ==> task in l.tasks
  {
  }

  lemma SpawnAdds(l: Life, made: Task)
    ensures Spawn(l, made).rows == l.rows && forall task :: task in Spawn(l, made).tasks ==> task in l.tasks || task == made
  {
  }

  lemma KeysLeadNowhere(l: Life, k: nat)
    ensures forall key :: !LeadingTask(l, WriteKey(key), k)
  {
  }

  lemma HookLeads(l: Life, k: nat)
    ensures LeadingTask(l, Arm(1), k) <==> LeadingTask(l, StartHook, k)
  {
  }

  lemma SameRowsLead(l: Life, l': Life, k: nat)
    requires l'.rows == l.rows
    ensures forall task :: LeadingTask(l', task, k) <==> LeadingTask(l, task, k)
  {
    forall task ensures LeadingTask(l', task, k) <==> LeadingTask(l, task, k) {
      LeadsLess(l, l', task, k);
      LeadsLess(l', l, task, k);
    }
  }

  lemma {:induction false} NeverStampedAgain(l: Life, limits: seq<nat>, es: seq<Step>, k: nat)
    requires NoneLeads(l, k) && AllTimers(es)
    ensures !StampedAgain(l, limits, es, k)
    decreases |es|
  {
    hide Next, LeadingTask;
    if es != [] {
      var e := es[0];
      assert TimersOnly(e) && forall x :: x in es[1..] ==> x in es;
      match e {
        case FireArm(j, now) =>
          NoneLeadsArm(l, limits, j, now, k);
          if j == k && ArmTakes(l, k) { ArmLeads(l, k); }
        case FireClose(j, registered, now) => NoneLeadsClose(l, limits, j, registered, now, k);
        case _ => NoneLeadsOther(l, limits, e, k);
      }
      NeverStampedAgain(Next(l, limits, e), limits, es[1..], k);
    }
  }

  lemma ArmLeads(l: Life, k: nat)
    requires ArmTakes(l, k)
    ensures LeadingTask(l, Arm(k), k)
  {
  }

  lemma AgainMore(l: Life, limits: seq<nat>, e: Step, es: seq<Step>, k: nat)
    requires TimersOnly(e) && AllTimers(es) && StampedAgain(Next(l, limits, e), limits, es, k)
    ensures AllTimers([e] + es) && StampedAgain(l, limits, [e] + es, k)
  {
    hide Next;
    assert ([e] + es)[1..] == es;
  }

  /** The timers of questions j..k-1 run in turn and then k is armed. */
  lemma {:induction false} ArmsInTurn(l: Life, limits: seq<nat>, j: nat, k: nat) returns (es: seq<Step>)
    requires l.game == Some(Running) && Arm(j) in l.tasks && Leads(l, j, k) && Unclosed(l, k)
    ensures AllTimers(es) && StampedAgain(l, limits, es, k)
    decreases k - j, 1
  {
    if j == k {
      es := [FireArm(k, 0)];
    } else {
      var arm := FireArm(j, 0);
      var l1 := Next(l, limits, arm);
      assert Close(j, true) in l1.tasks && l1.game == Some(Running);
      assert forall i :: Unclosed(l, i) ==> Unclosed(l1, i);
      es := ClosesInTurn(l1, limits, j, true, k);
      AgainMore(l, limits, arm, es, k);
      es := [arm] + es;
    }
  }

  lemma {:induction false} ClosesInTurn(l: Life, limits: seq<nat>, j: nat, registered: bool, k: nat) returns (es: seq<Step>)
    requires l.game == Some(Running) && Close(j, registered) in l.tasks && j < k && Leads(l, j, k) && Unclosed(l, k)
    ensures AllTimers(es) && StampedAgain(l, limits, es, k)
    decreases k - j, 0
  {
    var close := FireClose(j, registered, 0);
    var l1 := Next(l, limits, close);
    assert Arm(j + 1) in l1.tasks && l1.game == Some(Running);
    assert forall i :: i != j && Unclosed(l, i) ==> Unclosed(l1, i);
    es := ArmsInTurn(l1, limits, j + 1, k);
    AgainMore(l, limits, close, es, k);
    es := [close] + es;
  }

  /** Some run of timers stamps question k (again). */
  ghost predicate CanBeStamped(l: Life, limits: seq<nat>, k: nat) {
    exists es :: AllTimers(es) && StampedAgain(l, limits, es, k)
  }

  /** The timers of a running match can stamp an unclosed question (again) if and only if a
      pending task leads to its arming: a copy of that arming, or a timer of an earlier
      question with no closed question from there on. In an orderly match only a copy
      does; after an unclean look-up the close of the question before does as well. */
  lemma StampedAgainExactly(l: Life, limits: seq<nat>, k: nat)
    requires l.game == Some(Running) && Unclosed(l, k)
    ensures CanBeStamped(l, limits, k) <==> exists task :: task in l.tasks && LeadingTask(l, task, k)
  {
    if NoneLeads(l, k) {
      forall es | AllTimers(es) ensures !StampedAgain(l, limits, es, k) {
        NeverStampedAgain(l, limits, es, k);
      }
    } else {
      var task :| task in l.tasks && LeadingTask(l, task, k);
      var es;
      match task {
        case Arm(j) => es := ArmsInTurn(l, limits, j, k);
        case Close(j, registered) => es := ClosesInTurn(l, limits, j, registered, k);
        case StartHook =>
          var hook := RunStartHook(0);
          var l1 := Next(l, limits, hook);
          assert Arm(1) in l1.tasks && l1.rows == l.rows && forall i :: Unclosed(l, i) ==> Unclosed(l1, i);
          es := ArmsInTurn(l1, limits, 1, k);
          AgainMore(l, limits, hook, es, k);
          es := [hook] + es;
      }
      assert CanBeStamped(l, limits, k);
    }
  }

  // ---------------------------------------------------------------------------
  // A run that stamps a question again without a copy of its arming
  // ---------------------------------------------------------------------------

  const NO_KEY := PauseKey(None, 0)
  const FIRST_OPEN := QuestionRow(Some(0), Some(20_000_000), None)

  /** A match of two questions paused and resumed before its first is armed. */
  const OPENING := [Start(0), RunStartHook(0), PauseMatch(0), ResumeMatch(0), FireArm(1, 0), RunArmNext(0), FireArm(2, 0)]

  /** Closing question 1 schedules the arming of question 2, which is open already. */
  const AGAIN := [FireClose(1, true, 20_000_000), FireArm(2, 20_000_000), LoseKey(40_000_000)]

  lemma RaceUpToResume()
    ensures Run(NEW_ROOM, [20, 20], OPENING[..4])
            == Life(Running, Some(Running), [FRESH_ROW, FRESH_ROW], None, multiset{Arm(1), WriteKey(NO_KEY), ArmNext})
  {
    var limits := [20, 20];
    assert FreshRows(2) == [FRESH_ROW, FRESH_ROW];
    var l2 := Next(Next(NEW_ROOM, limits, Start(0)), limits, RunStartHook(0));
    assert l2 == Life(Running, Some(Running), [FRESH_ROW, FRESH_ROW], None, multiset{Arm(1)});
    PausesUnarmed(l2);
    hide Run, Next;
    RunTwo(NEW_ROOM, limits, OPENING[..4]);
    RunTwo(l2, limits, OPENING[..4][2..]);
    RunNone(Next(Next(l2, limits, PauseMatch(0)), limits, ResumeMatch(0)), limits);
    assert OPENING[..4][2..][2..] == [];
  }

  lemma RunNone(l: Life, limits: seq<nat>)
    ensures Run(l, limits, []) == l
  {
  }

  lemma PausesUnarmed(l: Life)
    requires l == Life(Running, Some(Running), [FRESH_ROW, FRESH_ROW], None, multiset{Arm(1)})
    ensures Next(Next(l, [20, 20], PauseMatch(0)), [20, 20], ResumeMatch(0))
            == Life(Running, Some(Running), [FRESH_ROW, FRESH_ROW], None, multiset{Arm(1), WriteKey(NO_KEY), ArmNext})
  {
    assert OpenPosition(l.rows).None?;
    assert Next(l, [20, 20], PauseMatch(0)) == Life(Paused, Some(Paused), l.rows, None, multiset{Arm(1), WriteKey(NO_KEY)});
  }

  lemma RaceOpensBoth(l: Life)
    requires l == Life(Running, Some(Running), [FRESH_ROW, FRESH_ROW], None, multiset{Arm(1), WriteKey(NO_KEY), ArmNext})
    ensures Run(l, [20, 20], OPENING[4..]) == BOTH_OPEN
  {
    var limits := [20, 20];
    FirstOpens(l);
    var l1 := Next(l, limits, FireArm(1, 0));
    hide Next;
    LooksUpSecond(l1);
    var l2 := Next(l1, limits, RunArmNext(0));
    SecondOpens(l2);
    hide Run;
    RunTwo(l, limits, OPENING[4..]);
    RunOne(l2, limits, FireArm(2, 0));
    assert OPENING[4..][2..] == [FireArm(2, 0)];
  }

  lemma FirstOpens(l: Life)
    requires l == Life(Running, Some(Running), [FRESH_ROW, FRESH_ROW], None, multiset{Arm(1), WriteKey(NO_KEY), ArmNext})
    ensures Next(l, [20, 20], FireArm(1, 0))
            == Life(Running, Some(Running), [FIRST_OPEN, FRESH_ROW], None, multiset{WriteKey(NO_KEY), ArmNext, Close(1, true)})
  {
  }

  lemma LooksUpSecond(l: Life)
    requires l == Life(Running, Some(Running), [FIRST_OPEN, FRESH_ROW], None, multiset{WriteKey(NO_KEY), ArmNext, Close(1, true)})
    ensures Next(l, [20, 20], RunArmNext(0))
            == Life(Running, Some(Running), l.rows, None, multiset{WriteKey(NO_KEY), Close(1, true), Arm(2)})
  {
    assert NextUnstarted(l.rows, 1) == Some(2);
  }

  lemma SecondOpens(l: Life)
    requires l == Life(Running, Some(Running), [FIRST_OPEN, FRESH_ROW], None, multiset{WriteKey(NO_KEY), Close(1, true), Arm(2)})
    ensures Next(l, [20, 20], FireArm(2, 0))
            == Life(Running, Some(Running), [FIRST_OPEN, FIRST_OPEN], None, multiset{WriteKey(NO_KEY), Close(1, true), Close(2, true)})
  {
  }

  /** Both questions open, and no copy of an arming pending. */
  const BOTH_OPEN := Life(Running, Some(Running), [FIRST_OPEN, FIRST_OPEN], None,
                          multiset{WriteKey(NO_KEY), Close(1, true), Close(2, true)})

  /** After the unclean look-up no copy of its arming is pending, and still question 2 of
      twenty seconds is granted forty. */
  lemma UncleanRestampReached()
    ensures Run(NEW_ROOM, [20, 20], OPENING[..4] + OPENING[4..]) == BOTH_OPEN && NoRearm(BOTH_OPEN, 2)
    ensures Nondecreasing(0, AGAIN) && Granted(BOTH_OPEN, [20, 20], 0, AGAIN, 2) == 40_000_000
  {
    RaceUpToResume();
    RaceOpensBoth(Run(NEW_ROOM, [20, 20], OPENING[..4]));
    hide Run, Next, Granted, Nondecreasing;
    RunAppend(NEW_ROOM, [20, 20], OPENING[..4], OPENING[4..]);
    SecondStamp();
  }

  function ClosedFirst(): Life {
    Life(Running, Some(Running), [FIRST_OPEN.(closed := Some(20_000_000)), FIRST_OPEN], None,
         multiset{WriteKey(NO_KEY), Close(2, true), Arm(2)})
  }

  lemma LateClose()
    ensures Next(BOTH_OPEN, [20, 20], FireClose(1, true, 20_000_000)) == ClosedFirst()
  {
    assert CloseTakes(BOTH_OPEN, 1, true);
    var l := Spend(BOTH_OPEN, Close(1, true));
    assert l.tasks == multiset{WriteKey(NO_KEY), Close(2, true)};
    assert AfterClose(l, 1, true, 20_000_000).rows == ClosedFirst().rows;
  }

  lemma LateArm()
    ensures var l := Next(ClosedFirst(), [20, 20], FireArm(2, 20_000_000));
            l.game == Some(Running) && |l.rows| == 2 && l.rows[1] == QuestionRow(Some(20_000_000), Some(40_000_000), None)
  {
    assert ArmTakes(ClosedFirst(), 2);
  }

  lemma SecondStamp()
    ensures Nondecreasing(0, AGAIN) && Granted(BOTH_OPEN, [20, 20], 0, AGAIN, 2) == 40_000_000
  {
    LateClose();
    LateArm();
    hide Next, CleanRun, Granted, Nondecreasing;
    ThreeSteps(BOTH_OPEN, [20, 20], 0, AGAIN, 2);
    NothingMore(Next(Next(Next(BOTH_OPEN, [20, 20], AGAIN[0]), [20, 20], AGAIN[1]), [20, 20], AGAIN[2]), 40_000_000);
    assert AGAIN[3..] == [];
  }

  lemma NothingMore(l: Life, now: int)
    ensures Granted(l, [20, 20], now, [], 2) == 0 && Nondecreasing(now, [])
  {
  }
}
