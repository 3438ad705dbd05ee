/** How a match is put back on its timers after a crash or a pause, and how it is left
    without any (backend/app/services/match_service.py). */
module Recovery {
  import opened Common
  import opened Lifecycle

  /** A closed row was started, and a started one has a deadline. */
  ghost predicate Stamped(rows: seq<QuestionRow>) {
    forall i :: 0 <= i < |rows| ==>
      (rows[i].closed.Some? ==> rows[i].started.Some?) && (rows[i].started.Some? ==> rows[i].deadline.Some?)
  }

  /** Whoever is about to close a question, or to write down which one was open, found it started. */
  ghost predicate NamesStarted(rows: seq<QuestionRow>, task: Task) {
    match task
    case Close(k, _) => IsStarted(rows, k)
    case WriteKey(key) => key.position.Some? ==> IsStarted(rows, key.position.value)
    case _ => true
  }

  ghost predicate StampInv(l: Life) {
    && Stamped(l.rows)
    && (l.key.Some? && l.key.value.position.Some? ==> IsStarted(l.rows, l.key.value.position.value))
    && (forall task :: task in l.tasks ==> NamesStarted(l.rows, task))
  }

  lemma StampSpend(l: Life, task: Task)
    requires StampInv(l)
    ensures StampInv(Spend(l, task))
  {
  }

  lemma StampSpawn(l: Life, task: Task)
    requires StampInv(l) && NamesStarted(l.rows, task)
    ensures StampInv(Spawn(l, task))
  {
  }

  lemma StampRows(l: Life, rows': seq<QuestionRow>)
    requires StampInv(l) && Grows(l.rows, rows') && Stamped(rows')
    ensures StampInv(l.(rows := rows'))
  {
  }

  lemma StampTimers(l: Life, limits: seq<nat>, k: nat, registered: bool, now: int)
    requires StampInv(l)
    ensures StampInv(Next(l, limits, FireArm(k, now))) && StampInv(Next(l, limits, FireClose(k, registered, now)))
  {
    StampSpend(l, Arm(k));
    StampSpend(l, Close(k, registered));
    if ArmTakes(l, k) {
      StampArm(Spend(l, Arm(k)), limits, k, now);
    }
    if CloseTakes(l, k, registered) {
      assert NamesStarted(l.rows, Close(k, registered));
      StampClose(Spend(l, Close(k, registered)), k, registered, now);
    }
  }

  lemma StampArm(l: Life, limits: seq<nat>, k: nat, now: int)
    requires StampInv(l) && Unclosed(l, k)
    ensures StampInv(AfterArm(l, limits, k, now))
  {
    var rows' := AfterArm(l, limits, k, now).rows;
    StampRows(l, rows');
    StampSpawn(l.(rows := rows'), Close(k, true));
  }

  lemma StampClose(l: Life, k: nat, registered: bool, now: int)
    requires StampInv(l) && Unclosed(l, k) && IsStarted(l.rows, k)
    ensures StampInv(AfterClose(l, k, registered, now))
  {
    var rows' := AfterClose(l, k, registered, now).rows;
    StampRows(l, rows');
    StampSpawn(l.(rows := rows'), if k >= |l.rows| then Finish(registered) else Arm(k + 1));
  }

  lemma StampResume(l: Life, now: int)
    requires StampInv(l)
    ensures StampInv(AfterResume(l, now))
  {
  }

  lemma StampRecover(l: Life, now: int)
    requires StampInv(l)
    ensures StampInv(AfterRecover(l, now))
  {
  }

  lemma StampStart(l: Life, limits: seq<nat>, at: int)
    requires StatusInv(l, limits) && StampInv(l)
    ensures StampInv(Next(l, limits, Start(at))) && StampInv(Next(l, limits, RunStartHook(at)))
  {
    if StartHook in l.tasks {
      StampSpend(l, StartHook);
      StampSpawn(Spend(l, StartHook), Arm(1));
    }
    if StartTakes(l, limits) {
      var l0 := SetStatus(l.(rows := FreshRows(|limits|)), Running);
      assert l.tasks == multiset{};
      assert StampInv(l0);
      StampSpawn(l0, StartHook);
    }
  }

  lemma StampLookup(l: Life, limits: seq<nat>, now: int)
    requires StampInv(l)
    ensures StampInv(Next(l, limits, RunArmNext(now)))
  {
    StampSpend(l, ArmNext);
    if NextUnstarted(l.rows).Some? {
      StampSpawn(Spend(l, ArmNext), Arm(NextUnstarted(l.rows).value));
    }
  }

  lemma StampPause(l: Life, limits: seq<nat>, key: PauseKey, now: int)
    requires StampInv(l)
    ensures StampInv(Next(l, limits, PauseMatch(now))) && StampInv(Next(l, limits, RunWriteKey(key, now)))
  {
    if WriteKey(key) in l.tasks {
      assert NamesStarted(l.rows, WriteKey(key));
      StampSpend(l, WriteKey(key));
    }
    StampSpawn(SetStatus(l, Paused), WriteKey(PauseRecord(l.rows, now)));
  }

  lemma StampPlain(l: Life)
    requires StampInv(l)
    ensures StampInv(SetStatus(l, Completed)) && StampInv(l.(tasks := multiset{})) && StampInv(l.(key := None))
  {
  }

  /** Held by every run, whatever its look-ups find. */
  lemma StampStep(l: Life, limits: seq<nat>, e: Step)
    requires StatusInv(l, limits) && StampInv(l)
    ensures StampInv(Next(l, limits, e))
  {
    hide StampInv, StatusInv, AfterArm, AfterClose, AfterResume, AfterRecover, PauseRecord;
    match e
    case Start(at) => StampStart(l, limits, at);
    case RunStartHook(at) => StampStart(l, limits, at);
    case FireArm(k, now) => StampTimers(l, limits, k, true, now);
    case FireClose(k, registered, now) => StampTimers(l, limits, k, registered, now);
    case FireFinish(registered, _) =>
      StampSpend(l, Finish(registered));
      StampPlain(Spend(l, Finish(registered)));
    case PauseMatch(now) => StampPause(l, limits, PauseKey(None, 0), now);
    case RunWriteKey(key, now) => StampPause(l, limits, key, now);
    case ResumeMatch(now) => StampResume(l, now);
    case RunArmNext(now) => StampLookup(l, limits, now);
    case Recover(now) => StampRecover(l, now);
    case DropTask(task, _) => StampSpend(l, task);
    case _ => StampPlain(l);
  }

  lemma {:induction false} StampRun(l: Life, limits: seq<nat>, es: seq<Step>)
    requires StatusInv(l, limits) && StampInv(l)
    ensures StampInv(Run(l, limits, es))
    decreases |es|
  {
    if es != [] {
      StatusStep(l, limits, es[0]);
      StampStep(l, limits, es[0]);
      StampRun(Next(l, limits, es[0]), limits, es[1..]);
    }
  }

  /** In every run: after a crash, recovery puts a running match back on its timers if
      and only if some question is still to be closed. A crash between the last close
      and the end leaves the match running with nothing to end it. */
  lemma RecoveryRevivesExactly(limits: seq<nat>, es: seq<Step>, at: int)
    requires Run(NEW_ROOM, limits, es).game == Some(Running)
    ensures var l := Run(NEW_ROOM, limits, es);
            Next(Next(l, limits, Crash(at)), limits, Recover(at)).tasks != multiset{} <==>
            exists i :: 0 <= i < |l.rows| && l.rows[i].closed.None?
  {
    hide Run;
    var l := Run(NEW_ROOM, limits, es);
    StampRun(NEW_ROOM, limits, es);
    RevivesExactly(l.(tasks := multiset{}), at);
  }

  /** Such a crash can happen: the only question closed, nothing pending, still running. */
  lemma StalledMatchReached()
    ensures var opening := [Start(0)] + ([RunStartHook(0)] + [FireArm(1, 0)]);
            var l := Run(NEW_ROOM, [20], opening + [FireClose(1, true, 20_000_000), Crash(20_000_000), Recover(20_000_000)]);
            Stalled(l) && |l.rows| == 1 && l.rows[0].closed.Some?
  {
    var opening := [Start(0)] + ([RunStartHook(0)] + [FireArm(1, 0)]);
    var tail := [FireClose(1, true, 20_000_000), Crash(20_000_000), Recover(20_000_000)];
    OpensFirst();
    hide Run;
    RunAppend(NEW_ROOM, [20], opening, tail);
    StallsAfterClose(tail);
  }

  lemma StallsAfterClose(tail: seq<Step>)
    requires tail == [FireClose(1, true, 20_000_000), Crash(20_000_000), Recover(20_000_000)]
    ensures var l := Run(OPENED, [20], tail); Stalled(l) && |l.rows| == 1 && l.rows[0].closed.Some?
  {
    ClosedThenCrashed();
    NothingToRecover();
    hide Run, Next;
    var l := Life(Running, Some(Running), [ALL_STAMPED], None, multiset{});
    RunTwo(OPENED, [20], tail);
    RunOne(l, [20], tail[2]);
    assert tail[2..] == [tail[2]];
  }

  const ALL_STAMPED := QuestionRow(Some(0), Some(20_000_000), Some(20_000_000))

  lemma ClosedThenCrashed()
    ensures Next(Next(OPENED, [20], FireClose(1, true, 20_000_000)), [20], Crash(20_000_000))
            == Life(Running, Some(Running), [ALL_STAMPED], None, multiset{})
  {
    assert CloseTakes(OPENED, 1, true);
    var l1 := AfterClose(Spend(OPENED, Close(1, true)), 1, true, 20_000_000);
    assert l1.rows == [ALL_STAMPED] && l1.game == Some(Running) && l1.room == Running && l1.key == None;
  }

  lemma NothingToRecover()
    ensures var l := Life(Running, Some(Running), [ALL_STAMPED], None, multiset{}); Next(l, [20], Recover(20_000_000)) == l
  {
  }

  /** Running with nothing pending: only the host or a recovery can move the match on. */
  ghost predicate Stalled(l: Life) {
    l.game == Some(Running) && l.tasks == multiset{}
  }

  /** The last pending task is taken and nothing takes its place. */
  ghost predicate TakesLast(l: Life, e: Step) {
    match e
    case FireArm(k, _) => l.tasks == multiset{Arm(k)} && !Unclosed(l, k)
    case FireClose(k, registered, _) => l.tasks == multiset{Close(k, registered)} && !Unclosed(l, k)
    case FireFinish(registered, _) => l.tasks == multiset{Finish(true)} && registered
    case RunArmNext(_) => l.tasks == multiset{ArmNext} && NextUnstarted(l.rows).None?
    case RunWriteKey(key, _) => l.tasks == multiset{WriteKey(key)}
    case DropTask(task, _) => l.tasks == multiset{task}
    case Crash(_) => l.tasks != multiset{}
    case _ => false
  }

  lemma SpendLast(l: Life, task: Task)
    ensures Spend(l, task).tasks == multiset{} <==> l.tasks == multiset{} || l.tasks == multiset{task}
    ensures Spend(l, task).game == l.game && (task !in l.tasks ==> l.tasks != multiset{task})
  {
    if Spend(l, task).tasks == multiset{} && task in l.tasks {
      assert l.tasks == multiset{task} by {
        assert l.tasks[task] == 1;
      }
    }
    assert task in multiset{task};
  }

  lemma SpawnsSome(l: Life, task: Task)
    ensures Spawn(l, task).tasks != multiset{}
  {
    assert task in Spawn(l, task).tasks;
  }

  /** Exactly which steps stall a match that was not: those that take the last pending
      task of a running match and schedule nothing in its place, and crashes. */
  lemma StallsExactly(l: Life, limits: seq<nat>, e: Step)
    requires StatusInv(l, limits) && !Stalled(l)
    ensures Stalled(Next(l, limits, e)) <==> l.game == Some(Running) && TakesLast(l, e)
  {
    hide Next, TakesLast, StatusInv;
    if e.FireArm? || e.FireClose? {
      TimersStall(l, limits, e);
    } else if e.RunWriteKey? || e.DropTask? || e.RunArmNext? {
      SpentStall(l, limits, e);
    } else {
      OthersStall(l, limits, e);
    }
  }

  lemma TimersStall(l: Life, limits: seq<nat>, e: Step)
    requires !Stalled(l) && (e.FireArm? || e.FireClose?)
    ensures Stalled(Next(l, limits, e)) <==> l.game == Some(Running) && TakesLast(l, e)
  {
    var k := e.position;
    SpendLast(l, if e.FireArm? then Arm(k) else Close(k, e.registered));
    if Unclosed(l, k) {
      TimersSpawnSome(l, limits, k, e.FireClose? && e.registered, e.at);
    }
  }

  lemma SpentStall(l: Life, limits: seq<nat>, e: Step)
    requires !Stalled(l) && (e.RunWriteKey? || e.DropTask? || e.RunArmNext?)
    ensures Stalled(Next(l, limits, e)) <==> l.game == Some(Running) && TakesLast(l, e)
  {
    hide NextUnstarted, Spend;
    match e
    case RunWriteKey(key, _) => SpendLast(l, WriteKey(key));
    case DropTask(task, _) => SpendLast(l, task);
    case RunArmNext(_) =>
      SpendLast(l, ArmNext);
      if NextUnstarted(l.rows).Some? { SpawnsSome(Spend(l, ArmNext), Arm(NextUnstarted(l.rows).value)); }
  }

  lemma OthersStall(l: Life, limits: seq<nat>, e: Step)
    requires StatusInv(l, limits) && !Stalled(l)
    requires !e.FireArm? && !e.FireClose? && !e.RunWriteKey? && !e.DropTask? && !e.RunArmNext?
    ensures Stalled(Next(l, limits, e)) <==> l.game == Some(Running) && TakesLast(l, e)
  {
    hide AfterResume, AfterRecover, PauseRecord, FreshRows;
    match e
    case Start(_) => SpawnsSome(SetStatus(l.(rows := FreshRows(|limits|)), Running), StartHook);
    case RunStartHook(_) => SpawnsSome(Spend(l, StartHook), Arm(1));
    case FireFinish(_, _) => FinishStalls(l, limits, e);
    case ResumeMatch(now) => ResumeSpawnsSome(l, now);
    case Recover(now) =>
      if l.tasks != multiset{} { RecoverKeepsSome(l, now); }
    case _ =>
  }

  lemma TimersSpawnSome(l: Life, limits: seq<nat>, k: nat, registered: bool, now: int)
    requires Unclosed(l, k)
    ensures AfterArm(Spend(l, Arm(k)), limits, k, now).tasks != multiset{}
    ensures AfterClose(Spend(l, Close(k, registered)), k, registered, now).tasks != multiset{}
  {
    SpawnsSome(Spend(l, Arm(k)), Close(k, true));
    SpawnsSome(Spend(l, Close(k, registered)), if k >= |l.rows| then Finish(registered) else Arm(k + 1));
  }

  lemma FinishStalls(l: Life, limits: seq<nat>, e: Step)
    requires e.FireFinish? && !Stalled(l)
    ensures Stalled(Next(l, limits, e)) <==> l.game == Some(Running) && TakesLast(l, e)
  {
    SpendLast(l, Finish(e.registered));
  }

  lemma ResumeSpawnsSome(l: Life, now: int)
    ensures AfterResume(l, now).tasks != multiset{}
  {
    var key := ReadKey(l.key);
    SpawnsSome(l, if key.position.Some? && key.remainingMs > 0 then Close(key.position.value, true) else ArmNext);
  }

  lemma RecoverKeepsSome(l: Life, now: int)
    requires l.tasks != multiset{}
    ensures AfterRecover(l, now).tasks != multiset{}
  {
  }

  /** A resume and its look-up put a paused match with nothing pending back on its timers
      if and only if the key names a position with time left or some question was never
      started: an open question alone is not enough. */
  lemma ResumeRevivesExactly(l: Life, limits: seq<nat>, at: int, later: int)
    requires l.game == Some(Paused) && l.tasks == multiset{}
    ensures var l' := Next(Next(l, limits, ResumeMatch(at)), limits, RunArmNext(later));
            && l'.game == Some(Running)
            && (!Stalled(l') <==>
                (ReadKey(l.key).position.Some? && ReadKey(l.key).remainingMs > 0)
                || exists i :: 0 <= i < |l.rows| && l.rows[i].started.None?)
  {
    var l1 := Next(l, limits, ResumeMatch(at));
    var key := ReadKey(l.key);
    assert forall i :: 0 <= i < |l.rows| ==> l1.rows[i].started == l.rows[i].started;
    if key.position.Some? && key.remainingMs > 0 {
      assert l1.tasks == multiset{Close(key.position.value, true)};
      assert ArmNext !in l1.tasks;
      assert Close(key.position.value, true) in l1.tasks;
    } else {
      assert l1.tasks == multiset{ArmNext};
      SpendLast(l1, ArmNext);
      if NextUnstarted(l1.rows).Some? {
        SpawnsSome(Spend(l1, ArmNext), Arm(NextUnstarted(l1.rows).value));
        assert l.rows[NextUnstarted(l1.rows).value - 1].started.None?;
      }
    }
  }

  /** A host who pauses at the deadline of the last question and resumes stalls the match
      with that question open, without any crash. */
  lemma ResumeStallReached()
    ensures var opening := [Start(0)] + ([RunStartHook(0)] + [FireArm(1, 0)]);
            var l := Run(NEW_ROOM, [20], opening + AT_DEADLINE);
            Stalled(l) && |l.rows| == 1 && l.rows[0].Open()
  {
    OpensFirst();
    hide Run;
    RunAppend(NEW_ROOM, [20], [Start(0)] + ([RunStartHook(0)] + [FireArm(1, 0)]), AT_DEADLINE);
    var es := AT_DEADLINE;
    PausedAtDeadline();
    var l2 := Next(Next(OPENED, [20], es[0]), [20], es[1]);
    var l3 := Next(l2, [20], es[2]);
    hide Next;
    StallsAtDeadline(l3);
    RunTwo(OPENED, [20], es);
    RunTwo(l2, [20], es[2..]);
    RunOne(Next(l3, [20], es[3]), [20], es[4]);
    assert es[2..][2..] == [es[4]];
  }

  const NO_TIME := PauseKey(Some(1), 0)

  /** The pause cancels the pending timer, as pause_match does, and leaves no time. */
  const AT_DEADLINE := [PauseMatch(20_000_000), DropTask(Close(1, true), 20_000_000), RunWriteKey(NO_TIME, 20_000_000),
                        ResumeMatch(20_000_000), RunArmNext(20_000_000)]

  /** The match while the pause at the deadline is under way. */
  function Pausing(key: Option<PauseKey>, tasks: multiset<Task>): Life {
    Life(Paused, Some(Paused), OPENED.rows, key, tasks)
  }

  lemma PausedAtDeadline()
    ensures Next(Next(Next(OPENED, [20], AT_DEADLINE[0]), [20], AT_DEADLINE[1]), [20], AT_DEADLINE[2])
            == Pausing(Some(NO_TIME), multiset{})
  {
    PauseStep();
    DropStep();
    WriteStep();
  }

  lemma PauseStep()
    ensures Next(OPENED, [20], PauseMatch(20_000_000)) == Pausing(None, multiset{Close(1, true), WriteKey(NO_TIME)})
  {
    assert OpenPosition(OPENED.rows) == Some(1);
  }

  lemma DropStep()
    ensures Next(Pausing(None, multiset{Close(1, true), WriteKey(NO_TIME)}), [20], DropTask(Close(1, true), 20_000_000))
            == Pausing(None, multiset{WriteKey(NO_TIME)})
  {
  }

  lemma WriteStep()
    ensures Next(Pausing(None, multiset{WriteKey(NO_TIME)}), [20], RunWriteKey(NO_TIME, 20_000_000))
            == Pausing(Some(NO_TIME), multiset{})
  {
  }

  lemma StallsAtDeadline(l: Life)
    requires l == Life(Paused, Some(Paused), OPENED.rows, Some(NO_TIME), multiset{})
    ensures var l' := Next(Next(l, [20], ResumeMatch(20_000_000)), [20], RunArmNext(20_000_000));
            Stalled(l') && |l'.rows| == 1 && l'.rows[0].Open()
  {
    ResumeRevivesExactly(l, [20], 20_000_000, 20_000_000);
  }

  lemma RevivesExactly(l: Life, now: int)
    requires Stamped(l.rows) && l.tasks == multiset{}
    ensures AfterRecover(l, now).tasks != multiset{} <==> exists i :: 0 <= i < |l.rows| && l.rows[i].closed.None?
  {
    var open, next := OpenPosition(l.rows), NextUnstarted(l.rows);
    if open.Some? {
      assert l.rows[open.value - 1].closed.None? && Close(open.value, now < l.rows[open.value - 1].deadline.value) in AfterRecover(l, now).tasks;
    } else if next.Some? {
      assert l.rows[next.value - 1].closed.None? && Arm(next.value) in AfterRecover(l, now).tasks;
    } else {
      assert forall i :: 0 <= i < |l.rows| ==> l.rows[i].started.Some? && !l.rows[i].Open();
    }
  }
}
