/** The life of one match: statuses, question rows and the timers and hooks that
    drive them (backend/app/services/match_service.py).

    One database transaction is one step. What the source does after a commit
    (creating a timer task, writing the pause key, looking up the next question)
    is a pending task, run by a later step, so every interleaving with other
    requests, other replicas and crashes is a run. A timer may fire at any moment
    and several copies of one timer may be pending; a task may be dropped at any
    moment (cancellation). Positions are 1-based and times are microseconds. */
module Lifecycle {
  import opened Common

  datatype Status = Lobby | Running | Paused | Completed | Cancelled

  datatype QuestionRow = QuestionRow(started: Option<int>, deadline: Option<int>, closed: Option<int>) {
    predicate Open() {
      started.Some? && closed.None?
    }
  }

  const FRESH_ROW := QuestionRow(None, None, None)

  /** The JSON stored under `match:{id}:pause`. */
  datatype PauseKey = PauseKey(position: Option<nat>, remainingMs: nat)

  datatype Task =
    | StartHook              // start_match after its commit: reset the leaderboard, schedule question 1
    | Arm(position: nat)     // a pending arm_question
    | Close(position: nat, registered: bool)   // a pending close_question
    | ArmNext                // resume_match after its commit: look up the next question
    | Finish(registered: bool) // close_question after its commit, on the last question: end_match
    | WriteKey(key: PauseKey) // pause_match after its commit

  /** `game` is None until start_match inserts the match row. */
  datatype Life = Life(room: Status, game: Option<Status>, rows: seq<QuestionRow>,
                       key: Option<PauseKey>, tasks: multiset<Task>)

  const NEW_ROOM := Life(Lobby, None, [], None, multiset{})

  datatype Step =
    | Start(at: int)
    | RunStartHook(at: int)
    | FireArm(position: nat, at: int)
    | FireClose(position: nat, registered: bool, at: int)
    | FireFinish(registered: bool, at: int)
    | PauseMatch(at: int)
    | RunWriteKey(key: PauseKey, at: int)
    | ResumeMatch(at: int)
    | RunArmNext(at: int)
    | EndMatch(at: int)
    | Recover(at: int)
    | Crash(at: int)
    | DropTask(task: Task, at: int)
    | LoseKey(at: int)

  // ---------------------------------------------------------------------------
  // Queries
  // ---------------------------------------------------------------------------

  /** `started_at IS NOT NULL AND closed_at IS NULL ORDER BY position DESC LIMIT 1`. */
  function OpenPosition(rows: seq<QuestionRow>): (r: Option<nat>)
    ensures r.Some? ==> 1 <= r.value <= |rows| && rows[r.value - 1].Open()
    ensures r.Some? ==> forall i :: r.value <= i < |rows| ==> !rows[i].Open()
    ensures r.None? ==> forall i :: 0 <= i < |rows| ==> !rows[i].Open()
  {
    if rows == [] then None
    else if rows[|rows| - 1].Open() then Some(|rows|)
    else OpenPosition(rows[..|rows| - 1])
  }

  /** `started_at IS NULL ORDER BY position ASC LIMIT 1`, from index `from` on. */
  function NextUnstarted(rows: seq<QuestionRow>, from: nat := 0): (r: Option<nat>)
    requires from <= |rows|
    ensures r.Some? ==> from < r.value <= |rows| && rows[r.value - 1].started.None?
    ensures r.Some? ==> forall i :: from <= i < r.value - 1 ==> rows[i].started.Some?
    ensures r.None? ==> forall i :: from <= i < |rows| ==> rows[i].started.Some?
    decreases |rows| - from
  {
    if from == |rows| then None
    else if rows[from].started.None? then Some(from + 1)
    else NextUnstarted(rows, from + 1)
  }

  function RemainingMs(row: QuestionRow, now: int): nat {
    if row.deadline.None? then 0 else AtLeastZero(row.deadline.value - now) / 1000
  }

  /** What pause_match is about to store. */
  function PauseRecord(rows: seq<QuestionRow>, now: int): PauseKey {
    match OpenPosition(rows)
    case None => PauseKey(None, 0)
    case Some(k) => PauseKey(Some(k), RemainingMs(rows[k - 1], now))
  }

  /** What resume_match reads: a missing key counts as no position and no time. */
  function ReadKey(key: Option<PauseKey>): PauseKey {
    if key.None? then PauseKey(None, 0) else key.value
  }

  // ---------------------------------------------------------------------------
  // Steps
  // ---------------------------------------------------------------------------

  predicate Unclosed(l: Life, k: nat) {
    1 <= k <= |l.rows| && l.rows[k - 1].closed.None?
  }

  predicate StartTakes(l: Life, limits: seq<nat>) {
    l.room == Lobby && limits != []
  }

  predicate ArmTakes(l: Life, k: nat) {
    Arm(k) in l.tasks && Unclosed(l, k) && l.game == Some(Running)
  }

  predicate CloseTakes(l: Life, k: nat, registered: bool) {
    Close(k, registered) in l.tasks && Unclosed(l, k) && l.game == Some(Running)
  }

  predicate EndTakes(l: Life) {
    l.game.Some? && l.game.value != Completed
  }

  /** end_match first cancels the registered task. One that runs in that task cancels
      itself and dies at its first await, before anything is committed. */
  predicate FinishTakes(l: Life, registered: bool) {
    Finish(registered) in l.tasks && EndTakes(l) && !registered
  }

  function SetStatus(l: Life, st: Status): Life {
    l.(room := st, game := Some(st))
  }

  function Spend(l: Life, task: Task): Life {
    l.(tasks := l.tasks - multiset{task})
  }

  function Spawn(l: Life, task: Task): Life {
    l.(tasks := l.tasks + multiset{task})
  }

  function AfterArm(l: Life, limits: seq<nat>, k: nat, now: int): Life
    requires Unclosed(l, k)
  {
    var limit := if k <= |limits| then limits[k - 1] else 0;
    var row := l.rows[k - 1].(started := Some(now), deadline := Some(now + limit * 1_000_000));
    Spawn(l.(rows := l.rows[k - 1 := row]), Close(k, true))
  }

  function AfterClose(l: Life, k: nat, registered: bool, now: int): Life
    requires Unclosed(l, k)
  {
    Spawn(l.(rows := l.rows[k - 1 := l.rows[k - 1].(closed := Some(now))]),
          if k >= |l.rows| then Finish(registered) else Arm(k + 1))
  }

  /** The recorded question, unless closed, gets its remaining time from now on. */
  function Extended(l: Life, key: PauseKey, now: int): seq<QuestionRow> {
    if key.position.Some? && Unclosed(l, key.position.value) then
      var i := key.position.value - 1;
      l.rows[i := l.rows[i].(deadline := Some(now + key.remainingMs * 1000))]
    else l.rows
  }

  function AfterResume(l: Life, now: int): Life {
    var key := ReadKey(l.key);
    Spawn(SetStatus(l.(rows := Extended(l, key, now)), Running),
          if key.position.Some? && key.remainingMs > 0 then Close(key.position.value, true) else ArmNext)
  }

  /** A question past its deadline is closed at once, by a task that is not registered. */
  function AfterRecover(l: Life, now: int): Life {
    match OpenPosition(l.rows)
    case None =>
      (match NextUnstarted(l.rows)
       case None => l
       case Some(k) => Spawn(l, Arm(k)))
    case Some(k) => if l.rows[k - 1].deadline.None? then l else Spawn(l, Close(k, now < l.rows[k - 1].deadline.value))
  }

  function FreshRows(n: nat): (rows: seq<QuestionRow>)
    ensures |rows| == n && forall i :: 0 <= i < n ==> rows[i] == FRESH_ROW
  {
    if n == 0 then [] else FreshRows(n - 1) + [FRESH_ROW]
  }

  /** One step. A refused request and a task that is not pending change nothing. */
  function Next(l: Life, limits: seq<nat>, e: Step): Life {
    match e
    case Start(_) =>
      if StartTakes(l, limits)
      then Spawn(SetStatus(l.(rows := FreshRows(|limits|)), Running), StartHook) else l
    case RunStartHook(_) =>
      if StartHook in l.tasks then Spawn(Spend(l, StartHook), Arm(1)) else l
    case FireArm(k, now) =>
      if ArmTakes(l, k) then AfterArm(Spend(l, Arm(k)), limits, k, now) else Spend(l, Arm(k))
    case FireClose(k, registered, now) =>
      var l' := Spend(l, Close(k, registered));
      if CloseTakes(l, k, registered) then AfterClose(l', k, registered, now) else l'
    case FireFinish(registered, _) =>
      var l' := Spend(l, Finish(registered));
      if FinishTakes(l, registered) then SetStatus(l', Completed) else l'
    case PauseMatch(now) =>
      if l.game == Some(Running)
      then Spawn(SetStatus(l, Paused), WriteKey(PauseRecord(l.rows, now))) else l
    case RunWriteKey(key, _) =>
      if WriteKey(key) in l.tasks then Spend(l, WriteKey(key)).(key := Some(key)) else l
    case ResumeMatch(now) =>
      if l.game == Some(Paused) then AfterResume(l, now) else l
    case RunArmNext(_) =>
      if ArmNext !in l.tasks then l
      else
        var next := NextUnstarted(l.rows);
        if next.Some? then Spawn(Spend(l, ArmNext), Arm(next.value)) else Spend(l, ArmNext)
    case EndMatch(_) =>
      if EndTakes(l) then SetStatus(l, Completed) else l
    case Recover(now) =>
      if l.game == Some(Running) then AfterRecover(l, now) else l
    case Crash(_) => l.(tasks := multiset{})
    case DropTask(task, _) => Spend(l, task)
    case LoseKey(_) => l.(key := None)
  }

  function Run(l: Life, limits: seq<nat>, es: seq<Step>): Life
    decreases |es|
  {
    if es == [] then l else Run(Next(l, limits, es[0]), limits, es[1..])
  }

  // ---------------------------------------------------------------------------
  // Statuses: held by every run, without any hypothesis
  // ---------------------------------------------------------------------------

  /** Room and match status agree from the start on, and the question rows are
      those snapshotted at the start. */
  ghost predicate StatusInv(l: Life, limits: seq<nat>) {
    match l.game
    case None => l.room == Lobby && l.rows == [] && l.tasks == multiset{}
    case Some(st) =>
      && l.room == st
      && (st == Running || st == Paused || st == Completed)
      && |l.rows| == |limits| > 0
  }

  /** Before the start nothing is pending, and only Start changes anything. */
  lemma BeforeStart(l: Life, limits: seq<nat>, e: Step)
    requires l.game.None? && StatusInv(l, limits) && !e.Start?
    ensures Next(l, limits, e).(key := l.key) == l
  {
  }

  lemma StatusTimers(l: Life, limits: seq<nat>, k: nat, registered: bool, now: int)
    requires StatusInv(l, limits) && l.game.Some?
    ensures var armed, closed := Next(l, limits, FireArm(k, now)), Next(l, limits, FireClose(k, registered, now));
            && StatusInv(armed, limits) && StatusInv(closed, limits) && armed.game == l.game == closed.game
            && (l.game != Some(Running) ==> armed.rows == l.rows == closed.rows)
  {
  }

  lemma StatusResume(l: Life, limits: seq<nat>, now: int)
    requires StatusInv(l, limits) && l.game.Some?
    ensures StatusInv(AfterResume(l, now), limits) && StatusInv(AfterRecover(l, now), limits)
    ensures AfterRecover(l, now).rows == l.rows && AfterRecover(l, now).game == l.game
  {
  }

  lemma StatusStep(l: Life, limits: seq<nat>, e: Step)
    requires StatusInv(l, limits)
    ensures StatusInv(Next(l, limits, e), limits)
    ensures l.game == Some(Completed) ==>
              Next(l, limits, e).game == Some(Completed) && Next(l, limits, e).rows == l.rows
  {
    hide PauseRecord, OpenPosition, NextUnstarted, AfterResume, AfterRecover, AfterArm, AfterClose;
    if l.game.None? {
      if !e.Start? {
        BeforeStart(l, limits, e);
      }
    } else {
      StatusResume(l, limits, e.at);
      match e
      case FireArm(k, now) => StatusTimers(l, limits, k, true, now);
      case FireClose(k, registered, now) => StatusTimers(l, limits, k, registered, now);
      case _ =>
    }
  }

  lemma {:induction false} StatusRun(l: Life, limits: seq<nat>, es: seq<Step>)
    requires StatusInv(l, limits)
    ensures StatusInv(Run(l, limits, es), limits)
    ensures l.game == Some(Completed) ==>
              Run(l, limits, es).game == Some(Completed) && Run(l, limits, es).rows == l.rows
    decreases |es|
  {
    if es != [] {
      StatusStep(l, limits, es[0]);
      StatusRun(Next(l, limits, es[0]), limits, es[1..]);
    }
  }

  // ---------------------------------------------------------------------------
  // At most one open question
  // ---------------------------------------------------------------------------

  ghost predicate AllClosedBefore(rows: seq<QuestionRow>, k: nat) {
    k <= |rows| && forall i :: 0 <= i < k ==> rows[i].started.Some? && rows[i].closed.Some?
  }

  ghost predicate IsStarted(rows: seq<QuestionRow>, k: nat) {
    1 <= k <= |rows| && rows[k - 1].started.Some?
  }

  /** The started questions are a prefix, and all of them but the last are closed. */
  ghost predicate Orderly(rows: seq<QuestionRow>) {
    && (forall j :: 0 <= j < |rows| && rows[j].started.Some? ==> AllClosedBefore(rows, j))
    && (forall i :: 0 <= i < |rows| && rows[i].closed.Some? ==> rows[i].started.Some?)
  }

  ghost predicate AtMostOneOpen(rows: seq<QuestionRow>) {
    forall i, j :: 0 <= i < |rows| && 0 <= j < |rows| && rows[i].Open() && rows[j].Open() ==> i == j
  }

  /** What a pending task may rely on when it finally runs. */
  ghost predicate TaskSound(rows: seq<QuestionRow>, task: Task) {
    match task
    case Arm(k) => 1 <= k <= |rows| && AllClosedBefore(rows, k - 1)
    case Close(k, _) => IsStarted(rows, k)
    case Finish(_) => AllClosedBefore(rows, |rows|)
    case WriteKey(key) => key.position.Some? ==> IsStarted(rows, key.position.value)
    case StartHook => true
    case ArmNext => true
  }

  ghost predicate OrderInv(l: Life) {
    && Orderly(l.rows)
    && (l.key.Some? && l.key.value.position.Some? ==> IsStarted(l.rows, l.key.value.position.value))
    && (forall task :: task in l.tasks ==> TaskSound(l.rows, task))
  }

  /** The one demand on a run: when resume_match looks up the next question to
      arm, no question is open. */
  ghost predicate CleanStep(l: Life, e: Step) {
    e.RunArmNext? && ArmNext in l.tasks ==> OpenPosition(l.rows).None?
  }

  ghost predicate CleanRun(l: Life, limits: seq<nat>, es: seq<Step>)
    decreases |es|
  {
    es == [] || (CleanStep(l, es[0]) && CleanRun(Next(l, limits, es[0]), limits, es[1..]))
  }

  /** Rows only ever gain stamps, so what a task relied on stays true. */
  ghost predicate Grows(rows: seq<QuestionRow>, rows': seq<QuestionRow>) {
    && |rows'| == |rows|
    && forall i :: 0 <= i < |rows| ==>
         && (rows[i].started.Some? ==> rows'[i].started.Some?)
         && (rows[i].closed.Some? ==> rows'[i].closed.Some?)
  }

  lemma OrderSpend(l: Life, task: Task)
    requires OrderInv(l)
    ensures OrderInv(Spend(l, task))
  {
  }

  lemma OrderSpawn(l: Life, task: Task)
    requires OrderInv(l) && TaskSound(l.rows, task)
    ensures OrderInv(Spawn(l, task))
  {
  }

  /** Stamping rows in order keeps every pending task sound. */
  lemma OrderStamp(l: Life, rows': seq<QuestionRow>)
    requires OrderInv(l) && Grows(l.rows, rows') && Orderly(rows')
    ensures OrderInv(l.(rows := rows'))
  {
  }

  lemma OrderArm(l: Life, limits: seq<nat>, k: nat, now: int)
    requires OrderInv(l) && ArmTakes(l, k)
    ensures OrderInv(AfterArm(Spend(l, Arm(k)), limits, k, now))
  {
    var l0 := Spend(l, Arm(k));
    var rows' := AfterArm(l0, limits, k, now).rows;
    assert TaskSound(l.rows, Arm(k));
    OrderSpend(l, Arm(k));
    OrderStamp(l0, rows');
    OrderSpawn(l0.(rows := rows'), Close(k, true));
  }

  lemma OrderClose(l: Life, k: nat, registered: bool, now: int)
    requires OrderInv(l) && CloseTakes(l, k, registered)
    ensures OrderInv(AfterClose(Spend(l, Close(k, registered)), k, registered, now))
  {
    var l0 := Spend(l, Close(k, registered));
    var rows' := AfterClose(l0, k, registered, now).rows;
    assert TaskSound(l.rows, Close(k, registered));
    assert AllClosedBefore(l.rows, k - 1) && AllClosedBefore(rows', k);
    OrderSpend(l, Close(k, registered));
    OrderStamp(l0, rows');
    OrderSpawn(l0.(rows := rows'), if k >= |l.rows| then Finish(registered) else Arm(k + 1));
  }

  lemma OrderResume(l: Life, now: int)
    requires OrderInv(l)
    ensures OrderInv(AfterResume(l, now))
  {
  }

  lemma OrderArmNext(l: Life)
    requires OrderInv(l) && OpenPosition(l.rows).None? && NextUnstarted(l.rows).Some?
    ensures OrderInv(Spawn(l, Arm(NextUnstarted(l.rows).value)))
    ensures OrderInv(Spawn(Spend(l, ArmNext), Arm(NextUnstarted(l.rows).value)))
  {
  }

  lemma OrderRecover(l: Life, now: int)
    requires OrderInv(l)
    ensures OrderInv(AfterRecover(l, now))
  {
  }

  lemma OrderStart(l: Life, limits: seq<nat>, at: int)
    requires StatusInv(l, limits) && OrderInv(l)
    ensures OrderInv(Next(l, limits, Start(at)))
    ensures OrderInv(Next(l, limits, RunStartHook(at)))
  {
    if StartHook in l.tasks {
      OrderSpend(l, StartHook);
      OrderSpawn(Spend(l, StartHook), Arm(1));
    }
    if StartTakes(l, limits) {
      var l0 := SetStatus(l.(rows := FreshRows(|limits|)), Running);
      assert l.tasks == multiset{};
      assert OrderInv(l0);
      OrderSpawn(l0, StartHook);
    }
  }

  lemma OrderPause(l: Life, limits: seq<nat>, now: int)
    requires OrderInv(l)
    ensures OrderInv(Next(l, limits, PauseMatch(now)))
  {
  }

  lemma OrderKey(l: Life, limits: seq<nat>, key: PauseKey, now: int)
    requires OrderInv(l)
    ensures OrderInv(Next(l, limits, RunWriteKey(key, now)))
  {
  }

  lemma OrderStep(l: Life, limits: seq<nat>, e: Step)
    requires StatusInv(l, limits) && OrderInv(l) && CleanStep(l, e)
    ensures OrderInv(Next(l, limits, e))
  {
    hide OrderInv, TaskSound, StatusInv, AfterArm, AfterClose, AfterResume, AfterRecover, PauseRecord;
    match e
    case Start(at) => OrderStart(l, limits, at);
    case RunStartHook(at) => OrderStart(l, limits, at);
    case FireArm(k, now) =>
      OrderSpend(l, Arm(k));
      if ArmTakes(l, k) { OrderArm(l, limits, k, now); }
    case FireClose(k, registered, now) =>
      OrderSpend(l, Close(k, registered));
      if CloseTakes(l, k, registered) { OrderClose(l, k, registered, now); }
    case FireFinish(registered, _) =>
      OrderSpend(l, Finish(registered));
      OrderPlain(Spend(l, Finish(registered)));
    case ResumeMatch(now) => OrderResume(l, now);
    case RunArmNext(_) =>
      OrderSpend(l, ArmNext);
      if ArmNext in l.tasks && NextUnstarted(l.rows).Some? { OrderArmNext(l); }
    case Recover(now) => OrderRecover(l, now);
    case PauseMatch(now) => OrderPause(l, limits, now);
    case RunWriteKey(key, now) => OrderKey(l, limits, key, now);
    case DropTask(task, _) => OrderSpend(l, task);
    case _ => OrderPlain(l);
  }

  /** Steps that stamp no row and spawn no task. */
  lemma OrderPlain(l: Life)
    requires OrderInv(l)
    ensures OrderInv(SetStatus(l, Completed)) && OrderInv(l.(tasks := multiset{})) && OrderInv(l.(key := None))
  {
  }

  lemma OrderlyMeansOneOpen(rows: seq<QuestionRow>)
    requires Orderly(rows)
    ensures AtMostOneOpen(rows)
  {
  }

  /** In every run with clean look-ups, however many copies of however stale
      timers fire, crash or are dropped, the started questions form a prefix, all
      but the last are closed, and so at most one question is ever open. */
  lemma {:induction false} QuestionsOpenInOrder(l: Life, limits: seq<nat>, es: seq<Step>)
    requires StatusInv(l, limits) && OrderInv(l) && CleanRun(l, limits, es)
    ensures OrderInv(Run(l, limits, es)) && AtMostOneOpen(Run(l, limits, es).rows)
    decreases |es|
  {
    if es == [] {
      OrderlyMeansOneOpen(l.rows);
    } else {
      StatusStep(l, limits, es[0]);
      OrderStep(l, limits, es[0]);
      QuestionsOpenInOrder(Next(l, limits, es[0]), limits, es[1..]);
    }
  }

  /** Every continuation after this look-up keeps at most one question open. */
  ghost predicate LookupIsSafe(l: Life, limits: seq<nat>, at: int) {
    var l' := Next(l, limits, RunArmNext(at));
    forall es :: CleanRun(l', limits, es) ==> AtMostOneOpen(Run(l', limits, es).rows)
  }

  /** The demand on look-ups is exact: with the match still going and a look-up
      pending, running it is safe if and only if no question is open or no
      question is left to start. */
  lemma LookupSafeExactly(l: Life, limits: seq<nat>, at: int)
    requires StatusInv(l, limits) && OrderInv(l)
    requires ArmNext in l.tasks && EndTakes(l)
    ensures LookupIsSafe(l, limits, at) <==> OpenPosition(l.rows).None? || NextUnstarted(l.rows).None?
  {
    var l' := Next(l, limits, RunArmNext(at));
    StatusStep(l, limits, RunArmNext(at));
    if OpenPosition(l.rows).None? || NextUnstarted(l.rows).None? {
      forall es | CleanRun(l', limits, es) ensures AtMostOneOpen(Run(l', limits, es).rows) {
        if OpenPosition(l.rows).None? {
          OrderStep(l, limits, RunArmNext(at));
        }
        QuestionsOpenInOrder(l', limits, es);
      }
    } else {
      var i, k := OpenPosition(l.rows).value, NextUnstarted(l.rows).value;
      var es := UnsafeContinuation(l', limits, i, k);
      assert !LookupIsSafe(l, limits, at);
    }
  }

  /** From a pending Arm(k) of an unstarted question while another question is
      open, at most two ordinary steps open both. */
  lemma UnsafeContinuation(l: Life, limits: seq<nat>, i: nat, k: nat) returns (es: seq<Step>)
    requires StatusInv(l, limits) && EndTakes(l) && i != k
    requires 1 <= i <= |l.rows| && l.rows[i - 1].Open()
    requires Arm(k) in l.tasks && Unclosed(l, k)
    ensures CleanRun(l, limits, es) && !AtMostOneOpen(Run(l, limits, es).rows)
  {
    if l.game == Some(Running) {
      es := [FireArm(k, 0)];
      UnsafeArm(l, limits, i, k);
      RunOne(l, limits, es[0]);
    } else {
      es := [ResumeMatch(0), FireArm(k, 0)];
      var l1 := Next(l, limits, es[0]);
      assert es[1..] == [FireArm(k, 0)];
      UnsafeArm(l1, limits, i, k);
      RunOne(l1, limits, es[1]);
    }
  }

  lemma UnsafeArm(l: Life, limits: seq<nat>, i: nat, k: nat)
    requires l.game == Some(Running) && i != k
    requires 1 <= i <= |l.rows| && l.rows[i - 1].Open()
    requires Arm(k) in l.tasks && Unclosed(l, k)
    ensures !AtMostOneOpen(Next(l, limits, FireArm(k, 0)).rows)
  {
    var rows := Next(l, limits, FireArm(k, 0)).rows;
    assert rows[i - 1].Open() && rows[k - 1].Open();
  }

  lemma RunOne(l: Life, limits: seq<nat>, e: Step)
    ensures Run(l, limits, [e]) == Next(l, limits, e)
    ensures CleanRun(l, limits, [e]) <==> CleanStep(l, e)
  {
  }

  // ---------------------------------------------------------------------------
  // A run a host can arrange: when look-ups are clean
  // ---------------------------------------------------------------------------

  /** A resume of an open question finds its recorded position with time left, and
      no arm_question commits between a resume and its look-up. */
  ghost predicate TidyStep(l: Life, e: Step) {
    && (e.ResumeMatch? && l.game == Some(Paused) && OpenPosition(l.rows).Some? ==>
          ReadKey(l.key).position.Some? && ReadKey(l.key).remainingMs > 0)
    && (e.FireArm? ==> ArmNext !in l.tasks)
  }

  ghost predicate TidyRun(l: Life, limits: seq<nat>, es: seq<Step>)
    decreases |es|
  {
    es == [] || (TidyStep(l, es[0]) && TidyRun(Next(l, limits, es[0]), limits, es[1..]))
  }

  ghost predicate NoneOpenAtLookup(l: Life) {
    ArmNext in l.tasks ==> OpenPosition(l.rows).None?
  }

  lemma ClosingOpensNone(l: Life, limits: seq<nat>, k: nat, registered: bool, now: int)
    requires forall i :: 0 <= i < |l.rows| ==> !l.rows[i].Open()
    ensures var rows' := Next(l, limits, FireClose(k, registered, now)).rows; forall i :: 0 <= i < |rows'| ==> !rows'[i].Open()
    ensures var rows' := AfterResume(l, now).rows; forall i :: 0 <= i < |rows'| ==> !rows'[i].Open()
  {
  }

  /** Only arm_question opens a question. */
  lemma OnlyArmOpens(l: Life, limits: seq<nat>, e: Step)
    requires StatusInv(l, limits) && !e.FireArm? && OpenPosition(l.rows).None?
    ensures OpenPosition(Next(l, limits, e).rows).None?
  {
    ClosingOpensNone(l, limits, if e.FireClose? then e.position else 0, e.FireClose? && e.registered, e.at);
    hide NextUnstarted, PauseRecord, AfterResume, AfterClose;
  }

  lemma TidyStepKeeps(l: Life, limits: seq<nat>, e: Step)
    requires StatusInv(l, limits) && NoneOpenAtLookup(l) && TidyStep(l, e)
    ensures NoneOpenAtLookup(Next(l, limits, e))
  {
    if OpenPosition(l.rows).None? && !e.FireArm? {
      OnlyArmOpens(l, limits, e);
    } else if e.ResumeMatch? {
      assert ArmNext !in l.tasks;
    } else {
      OthersSpawnNeither(l, limits, e, ArmNext);
    }
  }

  lemma SpendLacks(l: Life, task: Task, t: Task)
    requires t !in l.tasks
    ensures t !in Spend(l, task).tasks
  {
  }

  lemma SpawnLacks(l: Life, task: Task, t: Task)
    requires t !in l.tasks && task != t
    ensures t !in Spawn(l, task).tasks
  {
  }

  lemma LacksStill(tasks: multiset<Task>, spent: Task, made: Task, t: Task)
    requires t !in tasks && made != t
    ensures t !in tasks - multiset{spent} && t !in tasks - multiset{spent} + multiset{made}
  {
  }

  lemma TimersSpawn(l: Life, limits: seq<nat>, k: nat, registered: bool, now: int, t: Task)
    requires t !in l.tasks && (t == ArmNext || t == StartHook)
    ensures t !in Next(l, limits, FireArm(k, now)).tasks
    ensures t !in Next(l, limits, FireClose(k, registered, now)).tasks
  {
    LacksStill(l.tasks, Arm(k), Close(k, true), t);
    LacksStill(l.tasks, Close(k, registered), if k >= |l.rows| then Finish(registered) else Arm(k + 1), t);
  }

  lemma ResumeSpawn(l: Life, now: int)
    requires StartHook !in l.tasks
    ensures StartHook !in AfterResume(l, now).tasks
  {
  }

  lemma StartHookSpawn(l: Life, limits: seq<nat>, now: int, t: Task)
    requires t !in l.tasks && (t == ArmNext || t == StartHook)
    ensures t !in Next(l, limits, RunStartHook(now)).tasks
  {
  }

  lemma PauseSpawn(l: Life, limits: seq<nat>, now: int, t: Task)
    requires t !in l.tasks && (t == ArmNext || t == StartHook)
    ensures t !in Next(l, limits, PauseMatch(now)).tasks
  {
  }

  lemma LookupSpawn(l: Life, limits: seq<nat>, now: int, t: Task)
    requires t !in l.tasks && (t == ArmNext || t == StartHook)
    ensures t !in Next(l, limits, RunArmNext(now)).tasks
  {
  }

  lemma RecoverSpawn(l: Life, now: int, t: Task)
    requires t !in l.tasks && (t == ArmNext || t == StartHook)
    ensures t !in AfterRecover(l, now).tasks
  {
  }

  /** Only resume_match asks for a look-up, and only start_match owes a reset. */
  lemma OthersSpawnNeither(l: Life, limits: seq<nat>, e: Step, t: Task)
    requires t !in l.tasks
    requires (t == ArmNext && !e.ResumeMatch?) || (t == StartHook && !e.Start?)
    ensures t !in Next(l, limits, e).tasks
  {
    match e
    case FireArm(k, now) => TimersSpawn(l, limits, k, true, now, t);
    case FireClose(k, registered, now) => TimersSpawn(l, limits, k, registered, now, t);
    case Start(_) => SpawnLacks(l, StartHook, t);
    case FireFinish(registered, _) => SpendLacks(l, Finish(registered), t);
    case ResumeMatch(now) => ResumeSpawn(l, now);
    case DropTask(task, _) => SpendLacks(l, task, t);
    case EndMatch(_) =>
    case Crash(_) =>
    case LoseKey(_) =>
    case RunStartHook(now) => StartHookSpawn(l, limits, now, t);
    case PauseMatch(now) => PauseSpawn(l, limits, now, t);
    case RunWriteKey(key, now) => SpendLacks(l, WriteKey(key), t);
    case RunArmNext(now) => LookupSpawn(l, limits, now, t);
    case Recover(now) => RecoverSpawn(l, now, t);
  }

  /** Such runs keep every look-up clean, hence at most one question open. */
  lemma {:induction false} TidyRunsAreClean(l: Life, limits: seq<nat>, es: seq<Step>)
    requires StatusInv(l, limits) && NoneOpenAtLookup(l) && TidyRun(l, limits, es)
    ensures CleanRun(l, limits, es)
    decreases |es|
  {
    if es != [] {
      StatusStep(l, limits, es[0]);
      TidyStepKeeps(l, limits, es[0]);
      TidyRunsAreClean(Next(l, limits, es[0]), limits, es[1..]);
    }
  }

  /** So a match played tidily from the lobby on never has two open questions. */
  lemma TidyMatchesStayInOrder(limits: seq<nat>, es: seq<Step>)
    requires TidyRun(NEW_ROOM, limits, es)
    ensures var rows := Run(NEW_ROOM, limits, es).rows;
            Orderly(rows) && AtMostOneOpen(rows)
  {
    TidyRunsAreClean(NEW_ROOM, limits, es);
    QuestionsOpenInOrder(NEW_ROOM, limits, es);
  }

  lemma RunMore(l: Life, limits: seq<nat>, e: Step, es: seq<Step>)
    ensures Run(l, limits, [e] + es) == Run(Next(l, limits, e), limits, es)
  {
  }

  /** The second demand of TidyStep bites: a host who pauses and resumes before
      question 1 is armed can end up with two open questions, although no pause
      met an open question and no key was lost. */
  lemma ResumeRace()
    ensures var es := [Start(0)] + ([RunStartHook(0)] + ([PauseMatch(0)] + ([ResumeMatch(0)]
                      + ([FireArm(1, 0)] + ([RunArmNext(0)] + [FireArm(2, 0)])))));
            !AtMostOneOpen(Run(NEW_ROOM, [20, 20], es).rows)
  {
    hide Run;
    var limits := [20, 20];
    var l1 := Next(NEW_ROOM, limits, Start(0));
    var l2 := Next(l1, limits, RunStartHook(0));
    var l3 := Next(l2, limits, PauseMatch(0));
    var l4 := Next(l3, limits, ResumeMatch(0));
    assert l4.game == Some(Running) && l4.rows == [FRESH_ROW, FRESH_ROW];
    assert Arm(1) in l4.tasks && ArmNext in l4.tasks;
    hide Next;
    RaceTail(l4);
    var tail := [FireArm(1, 0)] + ([RunArmNext(0)] + [FireArm(2, 0)]);
    RunMore(l3, limits, ResumeMatch(0), tail);
    RunMore(l2, limits, PauseMatch(0), [ResumeMatch(0)] + tail);
    RunMore(l1, limits, RunStartHook(0), [PauseMatch(0)] + ([ResumeMatch(0)] + tail));
    RunMore(NEW_ROOM, limits, Start(0), [RunStartHook(0)] + ([PauseMatch(0)] + ([ResumeMatch(0)] + tail)));
  }

  /** A host who pauses and resumes early can also open question 1 while the
      start_match hook still owes its leaderboard reset. */
  lemma OpenBeforeReset()
    ensures var es := [Start(0)] + ([PauseMatch(0)] + ([ResumeMatch(0)] + ([RunArmNext(0)] + [FireArm(1, 0)])));
            var l := Run(NEW_ROOM, [20], es);
            l.game == Some(Running) && StartHook in l.tasks && l.rows == [QuestionRow(Some(0), Some(20_000_000), None)]
  {
    var limits := [20];
    var l1 := Next(NEW_ROOM, limits, Start(0));
    assert l1 == Life(Running, Some(Running), [FRESH_ROW], None, multiset{StartHook});
    PausedBeforeHook(l1);
    var l2 := Next(l1, limits, PauseMatch(0));
    var l3 := Next(l2, limits, ResumeMatch(0));
    hide Run, Next;
    LookupThenArm(l3);
    var tail := [RunArmNext(0)] + [FireArm(1, 0)];
    RunMore(l2, limits, ResumeMatch(0), tail);
    RunMore(l1, limits, PauseMatch(0), [ResumeMatch(0)] + tail);
    RunMore(NEW_ROOM, limits, Start(0), [PauseMatch(0)] + ([ResumeMatch(0)] + tail));
  }

  lemma PausedBeforeHook(l: Life)
    requires l == Life(Running, Some(Running), [FRESH_ROW], None, multiset{StartHook})
    ensures var l' := Next(Next(l, [20], PauseMatch(0)), [20], ResumeMatch(0));
            l'.game == Some(Running) && l'.rows == [FRESH_ROW] && ArmNext in l'.tasks && StartHook in l'.tasks
  {
    var l1 := Next(l, [20], PauseMatch(0));
    assert StartHook in l1.tasks;
  }

  lemma LookupThenArm(l: Life)
    requires l.game == Some(Running) && l.rows == [FRESH_ROW] && ArmNext in l.tasks && StartHook in l.tasks
    ensures var l' := Run(l, [20], [RunArmNext(0)] + [FireArm(1, 0)]);
            l'.game == Some(Running) && StartHook in l'.tasks && l'.rows == [QuestionRow(Some(0), Some(20_000_000), None)]
  {
    var l1 := Next(l, [20], RunArmNext(0));
    assert Arm(1) in l1.tasks && StartHook in l1.tasks;
    RunOne(l1, [20], FireArm(1, 0));
    RunMore(l, [20], RunArmNext(0), [FireArm(1, 0)]);
  }

  /** A match of one question of twenty seconds, opened at time 0. */
  const OPENED := Life(Running, Some(Running), [QuestionRow(Some(0), Some(20_000_000), None)], None, multiset{Close(1, true)})

  /** The ordinary opening of a match. */
  lemma OpensFirst()
    ensures Run(NEW_ROOM, [20], [Start(0)] + ([RunStartHook(0)] + [FireArm(1, 0)])) == OPENED
  {
    hide Run;
    var es := [Start(0)] + ([RunStartHook(0)] + [FireArm(1, 0)]);
    var l1 := Next(NEW_ROOM, [20], Start(0));
    assert l1 == Life(Running, Some(Running), [FRESH_ROW], None, multiset{StartHook});
    var l2 := Next(l1, [20], RunStartHook(0));
    assert l2 == Life(Running, Some(Running), [FRESH_ROW], None, multiset{Arm(1)});
    assert Next(l2, [20], FireArm(1, 0)) == OPENED;
    hide Next;
    RunTwo(NEW_ROOM, [20], es);
    RunOne(l2, [20], es[2]);
    assert es[2..] == [es[2]];
  }

  lemma RaceTail(l: Life)
    requires l.game == Some(Running) && l.rows == [FRESH_ROW, FRESH_ROW]
    requires Arm(1) in l.tasks && ArmNext in l.tasks
    ensures !AtMostOneOpen(Run(l, [20, 20], [FireArm(1, 0)] + ([RunArmNext(0)] + [FireArm(2, 0)])).rows)
  {
    var l1 := Next(l, [20, 20], FireArm(1, 0));
    assert l1.game == Some(Running) && ArmNext in l1.tasks;
    assert |l1.rows| == 2 && l1.rows[0].Open() && l1.rows[1] == FRESH_ROW;
    RaceLookup(l1);
    RunMore(l, [20, 20], FireArm(1, 0), [RunArmNext(0)] + [FireArm(2, 0)]);
  }

  lemma RaceLookup(l: Life)
    requires l.game == Some(Running) && |l.rows| == 2 && l.rows[0].Open() && l.rows[1] == FRESH_ROW
    requires ArmNext in l.tasks
    ensures !AtMostOneOpen(Run(l, [20, 20], [RunArmNext(0)] + [FireArm(2, 0)]).rows)
  {
    assert NextUnstarted(l.rows, 1) == Some(2);
    var l1 := Next(l, [20, 20], RunArmNext(0));
    UnsafeArm(l1, [20, 20], 1, 2);
    RunOne(l1, [20, 20], FireArm(2, 0));
    RunMore(l, [20, 20], RunArmNext(0), [FireArm(2, 0)]);
  }

  lemma RunTwo(l: Life, limits: seq<nat>, es: seq<Step>)
    requires |es| >= 2
    ensures Run(l, limits, es) == Run(Next(Next(l, limits, es[0]), limits, es[1]), limits, es[2..])
  {
    hide Next;
    assert es[1..][0] == es[1] && es[1..][1..] == es[2..];
  }

  lemma {:induction false} RunAppend(l: Life, limits: seq<nat>, es: seq<Step>, more: seq<Step>)
    ensures Run(l, limits, es + more) == Run(Run(l, limits, es), limits, more)
    decreases |es|
  {
    if es == [] {
      assert es + more == more;
    } else {
      assert (es + more)[1..] == es[1..] + more;
      RunAppend(Next(l, limits, es[0]), limits, es[1..], more);
    }
  }

  lemma SpendAbsent(l: Life, task: Task)
    requires task !in l.tasks
    ensures Spend(l, task) == l
  {
  }
}
