/** How a match ends, or does not: the finishing task, which end_match may find to be the
    registered one and cancel (backend/app/services/match_service.py). */
module Ending {
  import opened Common
  import opened Lifecycle
  import opened Recovery

  // ---------------------------------------------------------------------------
  // A match left to its timers
  // ---------------------------------------------------------------------------

  /** The timers of questions k..n and the end, each firing once, at any times. The
      close timers are those arm_question has registered. */
  function Script(n: nat, k: nat, at: nat -> int): seq<Step>
    decreases n + 1 - k
  {
    if k > n then [FireFinish(true, at(2 * k))]
    else [FireArm(k, at(2 * k))] + ([FireClose(k, true, at(2 * k + 1))] + Script(n, k + 1, at))
  }

  /** Questions before k are closed, the others untouched, and one task is pending. */
  ghost predicate Playing(l: Life, n: nat, k: nat) {
    && l.game == Some(Running) && l.room == Running && |l.rows| == n && 1 <= k <= n + 1
    && (forall i :: 0 <= i < n ==>
          if i < k - 1 then l.rows[i].started.Some? && l.rows[i].closed.Some? else l.rows[i] == FRESH_ROW)
    && l.tasks == multiset{if k > n then Finish(true) else Arm(k)}
  }

  lemma PlayOne(l: Life, limits: seq<nat>, n: nat, k: nat, t0: int, t1: int)
    requires Playing(l, n, k) && k <= n
    ensures Playing(Next(Next(l, limits, FireArm(k, t0)), limits, FireClose(k, true, t1)), n, k + 1)
  {
    var l1 := Next(l, limits, FireArm(k, t0));
    assert l1.tasks == multiset{Close(k, true)};
  }

  /** The finishing task cancels itself, and nothing is left. */
  lemma FinishCancelsItself(l: Life, limits: seq<nat>, n: nat, t: int, later: int)
    requires Playing(l, n, n + 1)
    ensures var l' := Next(l, limits, FireFinish(true, t));
            l' == l.(tasks := multiset{}) && Next(l', limits, Recover(later)) == l'
  {
  }

  lemma WithinRows(l: Life, n: nat, k: nat)
    requires Playing(l, n, k)
    ensures 1 <= k <= n + 1
  {
  }

  /** All played, running, nothing pending, and nothing for recovery to do. */
  ghost predicate PlayedOut(l: Life, limits: seq<nat>, n: nat) {
    && Stalled(l) && |l.rows| == n && (forall i :: 0 <= i < n ==> l.rows[i].closed.Some?)
    && forall later :: Next(l, limits, Recover(later)) == l
  }

  lemma LastIsCancelled(l: Life, limits: seq<nat>, n: nat, t: int)
    requires Playing(l, n, n + 1)
    ensures PlayedOut(Next(l, limits, FireFinish(true, t)), limits, n)
  {
    FinishCancelsItself(l, limits, n, t, 0);
    forall later ensures Next(l.(tasks := multiset{}), limits, Recover(later)) == l.(tasks := multiset{}) {
      FinishCancelsItself(l, limits, n, t, later);
    }
    hide Next;
  }

  lemma {:induction false} PlaysOn(l: Life, limits: seq<nat>, n: nat, k: nat, at: nat -> int)
    requires Playing(l, n, k)
    ensures PlayedOut(Run(l, limits, Script(n, k, at)), limits, n)
    decreases n + 1 - k
  {
    WithinRows(l, n, k);
    hide Next, Run, Playing, PlayedOut;
    if k > n {
      RunOne(l, limits, FireFinish(true, at(2 * k)));
      LastIsCancelled(l, limits, n, at(2 * k));
    } else {
      var arm, close, rest := FireArm(k, at(2 * k)), FireClose(k, true, at(2 * k + 1)), Script(n, k + 1, at);
      var l1 := Next(l, limits, arm);
      PlayOne(l, limits, n, k, at(2 * k), at(2 * k + 1));
      PlaysOn(Next(l1, limits, close), limits, n, k + 1, at);
      RunMore(l1, limits, close, rest);
      RunMore(l, limits, arm, [close] + rest);
    }
  }

  /** A match left to its timers plays every question in turn and then does not end: its
      last close timer is the registered task, and end_match cancels that. It stays
      running with every question closed and nothing pending, and a recovery finds
      nothing to do. */
  lemma UndisturbedMatchStalls(limits: seq<nat>, at: nat -> int)
    requires limits != []
    ensures PlayedOut(Run(NEW_ROOM, limits, [Start(at(0))] + ([RunStartHook(at(1))] + Script(|limits|, 1, at))), limits, |limits|)
  {
    var l1 := Next(NEW_ROOM, limits, Start(at(0)));
    assert l1 == Life(Running, Some(Running), FreshRows(|limits|), None, multiset{StartHook});
    var l2 := Next(l1, limits, RunStartHook(at(1)));
    assert l2.tasks == multiset{Arm(1)};
    assert Playing(l2, |limits|, 1);
    hide Next, Run, Playing, PlayedOut;
    var script := Script(|limits|, 1, at);
    RunMore(NEW_ROOM, limits, Start(at(0)), [RunStartHook(at(1))] + script);
    RunMore(l1, limits, RunStartHook(at(1)), script);
    PlaysOn(l2, limits, |limits|, 1, at);
  }

  // ---------------------------------------------------------------------------
  // Who can end a match
  // ---------------------------------------------------------------------------

  /** A finishing task that is not the registered one, or a close of the last question
      that will spawn one. */
  predicate WillEnd(l: Life) {
    Finish(false) in l.tasks || (Close(|l.rows|, false) in l.tasks && Unclosed(l, |l.rows|))
  }

  /** A recovery that finds the last question open and past its deadline. */
  predicate FindsLastOverdue(l: Life, e: Step) {
    && e.Recover? && l.game == Some(Running) && l.rows != [] && OpenPosition(l.rows) == Some(|l.rows|)
    && l.rows[|l.rows| - 1].deadline.Some? && l.rows[|l.rows| - 1].deadline.value <= e.at
  }

  /** The host does not end the match, and no recovery closes its last question. */
  ghost predicate LetAlone(l: Life, limits: seq<nat>, es: seq<Step>)
    decreases |es|
  {
    es == [] || (!es[0].EndMatch? && !FindsLastOverdue(l, es[0]) && LetAlone(Next(l, limits, es[0]), limits, es[1..]))
  }

  /** A task that is pending after a step was pending before, or is what the step spawns. */
  lemma SpawnedBy(tasks: multiset<Task>, spent: Task, made: Task, t: Task)
    requires t !in tasks && t != made
    ensures t !in tasks - multiset{spent} && t !in tasks - multiset{spent} + multiset{made} && t !in tasks + multiset{made}
  {
  }

  lemma ArmEndsNot(l: Life, limits: seq<nat>, k: nat, now: int)
    requires !WillEnd(l)
    ensures !WillEnd(Next(l, limits, FireArm(k, now)))
  {
    SpawnedBy(l.tasks, Arm(k), Close(k, true), Finish(false));
    if Close(|l.rows|, false) !in l.tasks {
      SpawnedBy(l.tasks, Arm(k), Close(k, true), Close(|l.rows|, false));
    }
  }

  lemma CloseEndsNot(l: Life, limits: seq<nat>, k: nat, registered: bool, now: int)
    requires !WillEnd(l)
    ensures !WillEnd(Next(l, limits, FireClose(k, registered, now)))
  {
    var n := |l.rows|;
    var made := if k >= n then Finish(registered) else Arm(k + 1);
    if CloseTakes(l, k, registered) {
      assert made != Finish(false);
    }
    SpawnedBy(l.tasks, Close(k, registered), if made == Finish(false) then ArmNext else made, Finish(false));
    if Close(n, false) !in l.tasks {
      SpawnedBy(l.tasks, Close(k, registered), made, Close(n, false));
    }
  }

  lemma ResumeEndsNot(l: Life, now: int)
    requires !WillEnd(l)
    ensures !WillEnd(AfterResume(l, now))
  {
  }

  lemma RecoverEndsExactly(l: Life, now: int)
    requires l.game == Some(Running) && l.rows != [] && !WillEnd(l)
    ensures WillEnd(AfterRecover(l, now)) <==> FindsLastOverdue(l, Recover(now))
  {
  }

  lemma SpendEndsNot(l: Life, task: Task)
    requires !WillEnd(l)
    ensures !WillEnd(Spend(l, task))
  {
  }

  lemma SpawnEndsNot(l: Life, task: Task)
    requires !WillEnd(l) && task != Finish(false) && !(task.Close? && !task.registered)
    ensures !WillEnd(Spawn(l, task))
  {
  }

  lemma PlainEndsNot(l: Life, room: Status, game: Option<Status>, key: Option<PauseKey>)
    requires !WillEnd(l)
    ensures !WillEnd(l.(room := room, game := game, key := key)) && !WillEnd(l.(tasks := multiset{}))
  {
  }

  lemma OthersEndNot(l: Life, limits: seq<nat>, e: Step)
    requires StatusInv(l, limits) && l.game.Some? && !WillEnd(l)
    requires !e.FireArm? && !e.FireClose? && !e.ResumeMatch? && !e.Recover?
    ensures !WillEnd(Next(l, limits, e))
  {
    hide WillEnd, PauseRecord, NextUnstarted;
    match e
    case RunStartHook(_) =>
      SpendEndsNot(l, StartHook);
      SpawnEndsNot(Spend(l, StartHook), Arm(1));
    case FireFinish(registered, _) =>
      SpendEndsNot(l, Finish(registered));
      PlainEndsNot(Spend(l, Finish(registered)), Completed, Some(Completed), l.key);
    case PauseMatch(now) =>
      PlainEndsNot(l, Paused, Some(Paused), l.key);
      SpawnEndsNot(SetStatus(l, Paused), WriteKey(PauseRecord(l.rows, now)));
    case RunWriteKey(key, _) =>
      SpendEndsNot(l, WriteKey(key));
      PlainEndsNot(Spend(l, WriteKey(key)), l.room, l.game, Some(key));
    case RunArmNext(_) =>
      SpendEndsNot(l, ArmNext);
      if NextUnstarted(l.rows).Some? { SpawnEndsNot(Spend(l, ArmNext), Arm(NextUnstarted(l.rows).value)); }
    case DropTask(task, _) => SpendEndsNot(l, task);
    case EndMatch(_) => PlainEndsNot(l, Completed, Some(Completed), l.key);
    case Crash(_) => PlainEndsNot(l, l.room, l.game, l.key);
    case LoseKey(_) => PlainEndsNot(l, l.room, l.game, None);
    case Start(_) =>
  }

  lemma EndsNotStep(l: Life, limits: seq<nat>, e: Step)
    requires StatusInv(l, limits) && !WillEnd(l) && l.game != Some(Completed)
    requires !e.EndMatch? && !FindsLastOverdue(l, e)
    ensures !WillEnd(Next(l, limits, e)) && Next(l, limits, e).game != Some(Completed)
  {
    if l.game.None? {
      if !e.Start? { BeforeStart(l, limits, e); }
    } else {
      match e
      case FireArm(k, now) => ArmEndsNot(l, limits, k, now);
      case FireClose(k, registered, now) => CloseEndsNot(l, limits, k, registered, now);
      case ResumeMatch(now) => ResumeEndsNot(l, now);
      case Recover(now) => if l.game == Some(Running) { RecoverEndsExactly(l, now); }
      case _ => OthersEndNot(l, limits, e);
    }
  }

  lemma {:induction false} EndsNotRun(l: Life, limits: seq<nat>, es: seq<Step>)
    requires StatusInv(l, limits) && !WillEnd(l) && l.game != Some(Completed) && LetAlone(l, limits, es)
    ensures Run(l, limits, es).game != Some(Completed)
    decreases |es|
  {
    hide Next, WillEnd, FindsLastOverdue;
    if es != [] {
      StatusStep(l, limits, es[0]);
      EndsNotStep(l, limits, es[0]);
      EndsNotRun(Next(l, limits, es[0]), limits, es[1..]);
    }
  }

  /** No match ends by itself: whatever its timers do, however it is paused, resumed and
      recovered, it is never completed without the host's end_match or a recovery that
      finds its last question open and past its deadline. */
  lemma NoMatchEndsAlone(limits: seq<nat>, es: seq<Step>)
    requires LetAlone(NEW_ROOM, limits, es)
    ensures Run(NEW_ROOM, limits, es).game != Some(Completed)
  {
    EndsNotRun(NEW_ROOM, limits, es);
  }

  /** Some continuation without the host's end_match and without such a recovery completes it. */
  ghost predicate CanEndAlone(l: Life, limits: seq<nat>) {
    exists es :: LetAlone(l, limits, es) && Run(l, limits, es).game == Some(Completed)
  }

  /** A match that is not completed can still end without the host if and only if a
      finishing task that is not the registered one is pending, or a close of the open
      last question that will spawn one. */
  lemma EndsAloneExactly(l: Life, limits: seq<nat>)
    requires StatusInv(l, limits) && EndTakes(l)
    ensures CanEndAlone(l, limits) <==> WillEnd(l)
  {
    if WillEnd(l) {
      var es := EndingRun(l, limits);
    } else {
      forall es | LetAlone(l, limits, es) ensures Run(l, limits, es).game != Some(Completed) {
        EndsNotRun(l, limits, es);
      }
    }
  }

  lemma EndingRun(l: Life, limits: seq<nat>) returns (es: seq<Step>)
    requires StatusInv(l, limits) && EndTakes(l) && WillEnd(l)
    ensures LetAlone(l, limits, es) && Run(l, limits, es).game == Some(Completed)
  {
    var finish, close := FireFinish(false, 0), FireClose(|l.rows|, false, 0);
    if Finish(false) in l.tasks {
      es := [finish];
      AloneMore(l, limits, finish, []);
    } else if l.game == Some(Running) {
      es := [close] + [finish];
      ClosesThenFinishes(l, limits);
    } else {
      es := [ResumeMatch(0)] + ([close] + [finish]);
      var l1 := Next(l, limits, ResumeMatch(0));
      assert Close(|l.rows|, false) in l1.tasks && Unclosed(l1, |l.rows|) && |l1.rows| == |l.rows|;
      ClosesThenFinishes(l1, limits);
      AloneMore(l, limits, ResumeMatch(0), [close] + [finish]);
    }
  }

  lemma ClosesThenFinishes(l: Life, limits: seq<nat>)
    requires l.game == Some(Running) && CloseTakes(l, |l.rows|, false)
    ensures var es := [FireClose(|l.rows|, false, 0)] + [FireFinish(false, 0)];
            LetAlone(l, limits, es) && Run(l, limits, es).game == Some(Completed)
  {
    var l1 := Next(l, limits, FireClose(|l.rows|, false, 0));
    assert Finish(false) in l1.tasks && l1.game == Some(Running);
    AloneMore(l1, limits, FireFinish(false, 0), []);
    AloneMore(l, limits, FireClose(|l.rows|, false, 0), [FireFinish(false, 0)]);
  }

  lemma AloneMore(l: Life, limits: seq<nat>, e: Step, es: seq<Step>)
    ensures LetAlone(l, limits, [e] + es) <==>
            !e.EndMatch? && !FindsLastOverdue(l, e) && LetAlone(Next(l, limits, e), limits, es)
    ensures Run(l, limits, [e] + es) == Run(Next(l, limits, e), limits, es)
  {
    hide Next, FindsLastOverdue;
    assert ([e] + es)[1..] == es;
  }

  /** After a crash, a recovery lets the match end without the host if and only if it finds
      the last question open and past its deadline. */
  lemma RecoveryEndsExactly(l: Life, limits: seq<nat>, at: int, now: int)
    requires StatusInv(l, limits) && l.game == Some(Running)
    ensures var l' := Next(Next(l, limits, Crash(at)), limits, Recover(now));
            CanEndAlone(l', limits) <==> FindsLastOverdue(l, Recover(now))
  {
    var l1 := l.(tasks := multiset{});
    var l' := AfterRecover(l1, now);
    assert !WillEnd(l1);
    RecoverEndsExactly(l1, now);
    StatusStep(l, limits, Crash(at));
    StatusStep(l1, limits, Recover(now));
    assert l'.game == Some(Running);
    EndsAloneExactly(l', limits);
  }

  /** Such a recovery happens: the only question open, a crash, and a start after its deadline. */
  lemma OverdueRecoveryReached()
    ensures var l := Run(NEW_ROOM, [20], [Start(0)] + ([RunStartHook(0)] + [FireArm(1, 0)]));
            CanEndAlone(Next(Next(l, [20], Crash(5_000_000)), [20], Recover(20_000_000)), [20])
  {
    OpensFirst();
    assert OpenPosition(OPENED.rows) == Some(1);
    hide Run, Next;
    RecoveryEndsExactly(OPENED, [20], 5_000_000, 20_000_000);
  }

  // ---------------------------------------------------------------------------
  // When nothing pending can move the match on
  // ---------------------------------------------------------------------------

  /** What happens without the host and without a recovery. */
  predicate Own(e: Step) {
    !e.Start? && !e.PauseMatch? && !e.ResumeMatch? && !e.EndMatch? && !e.Recover?
  }

  ghost predicate AllOwn(es: seq<Step>) {
    forall e :: e in es ==> Own(e)
  }

  /** No continuation of its own changes a question or the status. */
  ghost predicate Stuck(l: Life, limits: seq<nat>) {
    forall es :: AllOwn(es) ==> Run(l, limits, es).rows == l.rows && Run(l, limits, es).game == l.game
  }

  /** A pending task that still has a question or the match to act on. */
  predicate Effective(l: Life, task: Task) {
    match task
    case StartHook => Unclosed(l, 1)
    case Arm(k) => Unclosed(l, k)
    case Close(k, _) => Unclosed(l, k)
    case ArmNext => NextUnstarted(l.rows).Some?
    case Finish(registered) => !registered
    case WriteKey(_) => false
  }

  ghost predicate AllIdle(l: Life) {
    l.game == Some(Running) && forall task :: task in l.tasks ==> !Effective(l, task)
  }

  lemma IdleStep(l: Life, limits: seq<nat>, e: Step)
    requires AllIdle(l) && Own(e)
    ensures var l' := Next(l, limits, e); AllIdle(l') && l'.rows == l.rows
  {
    hide AllIdle, NextUnstarted, AfterArm, AfterClose;
    IdleStatus(l);
    match e
    case FireArm(k, _) => IdleSpend(l, Arm(k));
    case FireClose(k, registered, _) => IdleSpend(l, Close(k, registered));
    case FireFinish(registered, _) => IdleSpend(l, Finish(registered));
    case RunStartHook(_) => IdleHook(l, limits, e);
    case RunWriteKey(key, _) =>
      IdleSpend(l, WriteKey(key));
      IdlePlain(Spend(l, WriteKey(key)), Some(key));
    case RunArmNext(_) => IdleSpend(l, ArmNext);
    case DropTask(task, _) => IdleSpend(l, task);
    case _ => IdlePlain(l, None);
  }

  lemma IdleStatus(l: Life)
    requires AllIdle(l)
    ensures l.game == Some(Running)
  {
  }

  lemma IdlePlain(l: Life, key: Option<PauseKey>)
    requires AllIdle(l)
    ensures AllIdle(l.(key := key)) && AllIdle(l.(tasks := multiset{}))
  {
  }

  lemma IdleSpend(l: Life, task: Task)
    requires AllIdle(l)
    ensures AllIdle(Spend(l, task)) && (task in l.tasks ==> !Effective(l, task))
  {
  }

  lemma IdleHook(l: Life, limits: seq<nat>, e: Step)
    requires AllIdle(l) && e.RunStartHook?
    ensures AllIdle(Next(l, limits, e)) && Next(l, limits, e).rows == l.rows
  {
  }

  lemma {:induction false} IdleRun(l: Life, limits: seq<nat>, es: seq<Step>)
    requires AllIdle(l) && AllOwn(es)
    ensures Run(l, limits, es).rows == l.rows && Run(l, limits, es).game == l.game
    decreases |es|
  {
    hide Next, Effective;
    if es != [] {
      assert es[0] in es && forall e :: e in es[1..] ==> e in es;
      IdleStep(l, limits, es[0]);
      IdleRun(Next(l, limits, es[0]), limits, es[1..]);
    }
  }

  /** Arming at another time than before changes the question. */
  lemma ArmMoves(l: Life, limits: seq<nat>, k: nat) returns (e: Step)
    requires l.game == Some(Running) && Arm(k) in l.tasks && Unclosed(l, k)
    ensures Own(e) && Next(l, limits, e).rows != l.rows
  {
    var row := l.rows[k - 1];
    e := FireArm(k, if row.started.Some? then row.started.value + 1 else 0);
    assert Next(l, limits, e).rows[k - 1].started == Some(e.at) != row.started;
  }

  lemma CloseMoves(l: Life, limits: seq<nat>, k: nat, registered: bool)
    requires CloseTakes(l, k, registered)
    ensures Next(l, limits, FireClose(k, registered, 0)).rows != l.rows
  {
    assert Next(l, limits, FireClose(k, registered, 0)).rows[k - 1].closed.Some?;
  }

  /** An effective task moves the match on, alone or through the arming it schedules. */
  lemma EffectiveMoves(l: Life, limits: seq<nat>, task: Task) returns (es: seq<Step>)
    requires StampInv(l) && l.game == Some(Running) && task in l.tasks && Effective(l, task)
    ensures AllOwn(es) && (Run(l, limits, es).rows != l.rows || Run(l, limits, es).game != l.game)
  {
    hide StampInv, Run;
    match task
    case Arm(k) =>
      var e := ArmMoves(l, limits, k);
      es := [e];
      RunOne(l, limits, e);
    case Close(k, registered) =>
      es := [FireClose(k, registered, 0)];
      CloseMoves(l, limits, k, registered);
      RunOne(l, limits, es[0]);
    case Finish(_) =>
      es := [FireFinish(false, 0)];
      RunOne(l, limits, es[0]);
    case StartHook =>
      var hook := RunStartHook(0);
      es := ThroughArming(l, limits, hook, 1);
    case ArmNext =>
      NextIsUnclosed(l);
      es := ThroughArming(l, limits, RunArmNext(0), NextUnstarted(l.rows).value);
  }

  lemma NextIsUnclosed(l: Life)
    requires StampInv(l) && NextUnstarted(l.rows).Some?
    ensures Unclosed(l, NextUnstarted(l.rows).value)
  {
  }

  lemma ThroughArming(l: Life, limits: seq<nat>, first: Step, k: nat) returns (es: seq<Step>)
    requires l.game == Some(Running) && Own(first) && Unclosed(l, k)
    requires (first.RunStartHook? && StartHook in l.tasks && k == 1)
             || (first.RunArmNext? && ArmNext in l.tasks && NextUnstarted(l.rows) == Some(k))
    ensures AllOwn(es) && Run(l, limits, es).rows != l.rows
  {
    var l1 := Next(l, limits, first);
    assert Arm(k) in l1.tasks && l1.rows == l.rows && l1.game == l.game;
    var e := ArmMoves(l1, limits, k);
    es := [first] + [e];
    hide Run, Next;
    RunOne(l1, limits, e);
    RunMore(l, limits, first, [e]);
  }

  /** A running match is stuck, whatever is still pending, if and only if no pending task
      has an unclosed question to act on, a question to look up, or the end to bring. */
  lemma StuckExactly(l: Life, limits: seq<nat>)
    requires StampInv(l) && l.game == Some(Running)
    ensures Stuck(l, limits) <==> forall task :: task in l.tasks ==> !Effective(l, task)
  {
    if AllIdle(l) {
      forall es | AllOwn(es) ensures Run(l, limits, es).rows == l.rows && Run(l, limits, es).game == l.game {
        IdleRun(l, limits, es);
      }
    } else {
      var task :| task in l.tasks && Effective(l, task);
      var es := EffectiveMoves(l, limits, task);
      assert !Stuck(l, limits);
    }
  }

  /** In particular in every run. */
  lemma StuckInRunExactly(limits: seq<nat>, es: seq<Step>)
    requires Run(NEW_ROOM, limits, es).game == Some(Running)
    ensures var l := Run(NEW_ROOM, limits, es);
            Stuck(l, limits) <==> forall task :: task in l.tasks ==> !Effective(l, task)
  {
    hide Run, Stuck;
    StampRun(NEW_ROOM, limits, es);
    StuckExactly(Run(NEW_ROOM, limits, es), limits);
  }
}
