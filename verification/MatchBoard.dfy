/** Conservation between the ledger and the leaderboards, and what completion
    freezes. */
module MatchBoard {
  import opened Common
  import opened Answers
  import opened Leaderboard
  import opened Ranking
  import opened Scoring
  import opened MatchModel
  import opened MatchLedger
  import L = Lifecycle

  // ---------------------------------------------------------------------------
  // Points in flight
  // ---------------------------------------------------------------------------

  /** p's points that are committed but not yet added to the sorted set. */
  function Pending(subs: seq<Submission>, ids: set<int>, p: int): int {
    if subs == [] then 0
    else
      var s := subs[|subs| - 1];
      Pending(subs[..|subs| - 1], ids, p) + if s.participant == p && s.id in ids then s.score else 0
  }

  lemma {:induction false} PendingSame(subs: seq<Submission>, ids: set<int>, ids': set<int>, p: int)
    requires forall i :: 0 <= i < |subs| ==> (subs[i].id in ids <==> subs[i].id in ids')
    ensures Pending(subs, ids, p) == Pending(subs, ids', p)
  {
    if subs != [] {
      PendingSame(subs[..|subs| - 1], ids, ids', p);
    }
  }

  lemma PendingInsert(subs: seq<Submission>, ids: set<int>, row: Submission, p: int)
    requires forall i :: 0 <= i < |subs| ==> subs[i].id != row.id
    ensures Pending(subs + [row], ids + {row.id}, p) == Pending(subs, ids, p) + if row.participant == p then row.score else 0
  {
    assert (subs + [row])[..|subs|] == subs;
    PendingSame(subs, ids, ids + {row.id}, p);
  }

  lemma {:induction false} PendingCredit(subs: seq<Submission>, ids: set<int>, k: nat, p: int)
    requires UniqueRows(subs) && k < |subs| && subs[k].id in ids
    ensures Pending(subs, ids - {subs[k].id}, p) == Pending(subs, ids, p) - if subs[k].participant == p then subs[k].score else 0
  {
    var n, id := |subs| - 1, subs[k].id;
    if k == n {
      PendingSame(subs[..n], ids, ids - {id}, p);
    } else {
      PendingCredit(subs[..n], ids, k, p);
      assert subs[n].id != id;
    }
  }

  lemma {:induction false} NothingPending(subs: seq<Submission>, p: int)
    ensures Pending(subs, {}, p) == 0
  {
    if subs != [] {
      NothingPending(subs[..|subs| - 1], p);
    }
  }

  // ---------------------------------------------------------------------------
  // Conservation
  // ---------------------------------------------------------------------------

  /** What the sorted set and the hooks in flight miss of p's committed points. */
  function Owed(g: Ledger, p: int): int {
    Total(g.subs, p) - ScoreOf(g.board, p) - Pending(g.subs, g.uncredited, p)
  }

  /** The points a move loses: a failed hook its row's, a crash those of every hook in
      flight, and the reset after start_match whatever the sorted set already held. */
  function Leak(s: State, m: Move, p: int): int {
    if m.Live? && m.step.Crash? then Pending(s.ledger.subs, s.ledger.uncredited, p)
    else if m.Live? && Resets(s.life, m.step) then ScoreOf(s.ledger.board, p)
    else if m.LoseHook? && m.id in s.ledger.uncredited then PointsFor(WithId(s.ledger.subs, m.id), p)
    else 0
  }

  function PointsFor(row: Option<Submission>, p: int): int {
    if row.Some? && row.value.participant == p then row.value.score else 0
  }

  function Leaks(s: State, quiz: seq<Question>, ms: seq<Move>, p: int): int
    decreases |ms|
  {
    if ms == [] then 0 else Leak(s, ms[0], p) + Leaks(Apply(s, quiz, ms[0]), quiz, ms[1..], p)
  }

  lemma InsertOwed(s: State, quiz: seq<Question>, a: Attempt, p: int)
    requires Judge(s, quiz, a).Inserted?
    ensures Owed(AfterSubmit(s, quiz, a), p) == Owed(s.ledger, p)
  {
    var g, row := s.ledger, NewRow(s, quiz, a);
    assert WithId(g.subs, row.id).None?;
    TotalAppend(g.subs, row, p);
    PendingInsert(g.subs, g.uncredited, row, p);
  }

  lemma CreditOwed(g: Ledger, id: int, rank: Option<nat>, p: int)
    requires UniqueRows(g.subs)
    ensures Owed(AfterCredit(g, id, rank), p) == Owed(g, p)
  {
    var found := WithId(g.subs, id);
    if id in g.uncredited && found.Some? {
      var k :| 0 <= k < |g.subs| && g.subs[k] == found.value;
      PendingCredit(g.subs, g.uncredited, k, p);
    }
  }

  lemma LostOwed(s: State, quiz: seq<Question>, id: int, p: int)
    requires RowsInv(s, quiz)
    ensures Owed(Apply(s, quiz, LoseHook(id)).ledger, p) == Owed(s.ledger, p) + Leak(s, LoseHook(id), p)
  {
    var g := s.ledger;
    hide Earned, L.StatusInv;
    if id in g.uncredited {
      var k :| 0 <= k < |g.subs| && g.subs[k] == WithId(g.subs, id).value;
      PendingCredit(g.subs, g.uncredited, k, p);
    } else {
      PendingSame(g.subs, g.uncredited, g.uncredited - {id}, p);
    }
  }

  lemma OwedStep(s: State, quiz: seq<Question>, m: Move, p: int)
    requires RowsInv(s, quiz)
    ensures Owed(Apply(s, quiz, m).ledger, p) == Owed(s.ledger, p) + Leak(s, m, p)
  {
    match m
    case Submit(a) => if Judge(s, quiz, a).Inserted? { InsertOwed(s, quiz, a, p); }
    case CreditBoard(id, rank) => CreditOwed(s.ledger, id, rank, p);
    case LoseHook(id) => LostOwed(s, quiz, id, p);
    case Live(_) => NothingPending(s.ledger.subs, p);
    case _ =>
  }

  /** In every run: the Redis score, plus the deltas in flight, plus what failed hooks
      and crashes dropped and resets wiped, equals the committed points. */
  lemma {:induction false} PointsConserved(s: State, quiz: seq<Question>, ms: seq<Move>, p: int)
    requires RowsInv(s, quiz)
    ensures var g := Play(s, quiz, ms).ledger;
            ScoreOf(g.board, p) + Pending(g.subs, g.uncredited, p) + Owed(s.ledger, p) + Leaks(s, quiz, ms, p)
            == Total(g.subs, p)
    decreases |ms|
  {
    if ms != [] {
      OwedStep(s, quiz, ms[0], p);
      RowsStep(s, quiz, ms[0]);
      PointsConserved(Apply(s, quiz, ms[0]), quiz, ms[1..], p);
    }
  }

  // ---------------------------------------------------------------------------
  // Runs that lose nothing
  // ---------------------------------------------------------------------------

  ghost predicate Credited(subs: seq<Submission>, uncredited: set<int>, p: int) {
    exists i :: 0 <= i < |subs| && subs[i].participant == p && subs[i].id !in uncredited
  }

  /** Scores are conserved and the members are exactly those already credited. */
  ghost predicate Balanced(g: Ledger) {
    forall p :: Owed(g, p) == 0 && (p in g.board <==> Credited(g.subs, g.uncredited, p))
  }

  /** A hook that is still to come fails, or a crash forgets one. */
  ghost predicate DropsHook(s: State, m: Move) {
    (m.LoseHook? && m.id in s.ledger.uncredited) || (m.Live? && m.step.Crash? && s.ledger.uncredited != {})
  }

  /** No hook is dropped, and the reset finds the sorted set still empty. */
  ghost predicate LosslessMove(s: State, m: Move) {
    !DropsHook(s, m) && (m.Live? && Resets(s.life, m.step) ==> s.ledger.board == map[])
  }

  ghost predicate LosslessRun(s: State, quiz: seq<Question>, ms: seq<Move>)
    decreases |ms|
  {
    ms == [] || (LosslessMove(s, ms[0]) && LosslessRun(Apply(s, quiz, ms[0]), quiz, ms[1..]))
  }

  lemma InsertMembers(s: State, quiz: seq<Question>, a: Attempt, p: int)
    requires RowsInv(s, quiz) && Judge(s, quiz, a).Inserted?
    ensures var g, g' := s.ledger, AfterSubmit(s, quiz, a);
            Credited(g'.subs, g'.uncredited, p) <==> Credited(g.subs, g.uncredited, p)
  {
    var g, g' := s.ledger, AfterSubmit(s, quiz, a);
    if Credited(g.subs, g.uncredited, p) {
      var i :| 0 <= i < |g.subs| && g.subs[i].participant == p && g.subs[i].id !in g.uncredited;
      assert g'.subs[i] == g.subs[i] && g'.subs[i].id != NewRow(s, quiz, a).id;
    }
    if Credited(g'.subs, g'.uncredited, p) {
      var i :| 0 <= i < |g'.subs| && g'.subs[i].participant == p && g'.subs[i].id !in g'.uncredited;
      assert g.subs[i] == g'.subs[i];
    }
  }

  lemma CreditMembers(g: Ledger, id: int, rank: Option<nat>, p: int)
    requires UniqueRows(g.subs) && id in g.uncredited && WithId(g.subs, id).Some?
    ensures var g' := AfterCredit(g, id, rank);
            Credited(g'.subs, g'.uncredited, p) <==>
            Credited(g.subs, g.uncredited, p) || p == WithId(g.subs, id).value.participant
  {
  }

  lemma BalancedStep(s: State, quiz: seq<Question>, m: Move)
    requires RowsInv(s, quiz) && Balanced(s.ledger) && LosslessMove(s, m)
    ensures Balanced(Apply(s, quiz, m).ledger)
  {
    var g, g' := s.ledger, Apply(s, quiz, m).ledger;
    forall p ensures Owed(g', p) == 0 && (p in g'.board <==> Credited(g'.subs, g'.uncredited, p)) {
      assert Owed(g, p) == 0 && (p in g.board <==> Credited(g.subs, g.uncredited, p));
      OwedStep(s, quiz, m, p);
      match m
      case Submit(a) => if Judge(s, quiz, a).Inserted? { InsertMembers(s, quiz, a, p); }
      case CreditBoard(id, rank) =>
        if id in g.uncredited && WithId(g.subs, id).Some? { CreditMembers(g, id, rank, p); }
      case _ =>
    }
  }

  lemma BothKept(s: State, quiz: seq<Question>, m: Move)
    requires RowsInv(s, quiz) && Balanced(s.ledger) && LosslessMove(s, m)
    ensures RowsInv(Apply(s, quiz, m), quiz) && Balanced(Apply(s, quiz, m).ledger)
  {
    RowsStep(s, quiz, m);
    BalancedStep(s, quiz, m);
  }

  lemma {:induction false} BalancedRun(s: State, quiz: seq<Question>, ms: seq<Move>)
    requires RowsInv(s, quiz) && Balanced(s.ledger) && LosslessRun(s, quiz, ms)
    ensures RowsInv(Play(s, quiz, ms), quiz) && Balanced(Play(s, quiz, ms).ledger)
    decreases |ms|
  {
    if ms != [] {
      BothKept(s, quiz, ms[0]);
      BalancedRun(Apply(s, quiz, ms[0]), quiz, ms[1..]);
    }
  }

  /** The reset keeps the balance if and only if the sorted set is still empty. */
  lemma ResetSafeExactly(s: State, quiz: seq<Question>, at: int)
    requires RowsInv(s, quiz) && Balanced(s.ledger) && L.StartHook in s.life.tasks
    ensures Balanced(Apply(s, quiz, Live(L.RunStartHook(at))).ledger) <==> s.ledger.board == map[]
  {
    var g, m := s.ledger, Live(L.RunStartHook(at));
    var g' := Apply(s, quiz, m).ledger;
    if g.board == map[] {
      BalancedStep(s, quiz, m);
    }
    if Balanced(g') {
      forall p ensures p !in g.board {
        assert Credited(g.subs, g.uncredited, p) <==> p in g'.board;
      }
    }
  }

  // ---------------------------------------------------------------------------
  // The reset precedes the first answer, unless a resume or a recovery overtakes it
  // ---------------------------------------------------------------------------

  ghost predicate QuietTask(t: L.Task) {
    t == L.StartHook || t.WriteKey?
  }

  /** While start_match still owes its reset nothing has been armed or answered. */
  ghost predicate QuietStart(s: State) {
    && (s.life.game.None? ==> s.ledger.subs == [] && s.ledger.board == map[])
    && (L.StartHook in s.life.tasks ==>
          && s.ledger.subs == [] && s.ledger.board == map[]
          && OnlyQuiet(s.life)
          && (forall i :: 0 <= i < |s.life.rows| ==> s.life.rows[i] == L.FRESH_ROW))
  }

  /** No resume and no recovery happens while start_match owes its reset. */
  ghost predicate PatientMove(s: State, m: Move) {
    m.Live? && (m.step.ResumeMatch? || m.step.Recover?) ==> L.StartHook !in s.life.tasks
  }

  ghost predicate PatientRun(s: State, quiz: seq<Question>, ms: seq<Move>)
    decreases |ms|
  {
    ms == [] ||
    (&& PatientMove(s, ms[0]) && !DropsHook(s, ms[0])
     && PatientRun(Apply(s, quiz, ms[0]), quiz, ms[1..]))
  }

  lemma QuietLive(s: State, quiz: seq<Question>, e: L.Step)
    requires RowsInv(s, quiz) && QuietStart(s) && PatientMove(s, Live(e))
    ensures QuietStart(Apply(s, quiz, Live(e)))
  {
    var l, limits := s.life, Limits(quiz);
    var l' := L.Next(l, limits, e);
    if l.game.None? && !e.Start? {
      L.BeforeStart(l, limits, e);
    } else if L.StartHook !in l.tasks && !e.Start? {
      L.OthersSpawnNeither(l, limits, e, L.StartHook);
      GameStays(l, limits, e);
    } else if !e.Start? {
      QuietTimers(l, limits, e);
      GameStays(l, limits, e);
    }
  }

  lemma GameStays(l: L.Life, limits: seq<nat>, e: L.Step)
    requires l.game.Some?
    ensures L.Next(l, limits, e).game.Some?
  {
  }

  ghost predicate OnlyQuiet(l: L.Life) {
    l.tasks[L.StartHook] <= 1 && forall t :: t in l.tasks ==> QuietTask(t)
  }

  lemma QuietSpend(l: L.Life, t: L.Task)
    requires OnlyQuiet(l)
    ensures OnlyQuiet(L.Spend(l, t))
  {
  }

  ghost predicate StaysQuiet(l: L.Life, l': L.Life) {
    l'.rows == l.rows && (L.StartHook in l'.tasks ==> OnlyQuiet(l'))
  }

  lemma IdleTimers(l: L.Life, limits: seq<nat>, k: nat, registered: bool, now: int)
    requires OnlyQuiet(l)
    ensures StaysQuiet(l, L.Next(l, limits, L.FireArm(k, now)))
    ensures StaysQuiet(l, L.Next(l, limits, L.FireClose(k, registered, now)))
    ensures StaysQuiet(l, L.Next(l, limits, L.RunArmNext(now)))
  {
    assert !QuietTask(L.Arm(k)) && !QuietTask(L.Close(k, registered)) && !QuietTask(L.ArmNext);
    L.SpendAbsent(l, L.Arm(k));
    L.SpendAbsent(l, L.Close(k, registered));
  }

  lemma QuietReset(l: L.Life, limits: seq<nat>, now: int)
    requires OnlyQuiet(l)
    ensures StaysQuiet(l, L.Next(l, limits, L.RunStartHook(now)))
  {
  }

  lemma QuietKey(l: L.Life, limits: seq<nat>, key: L.PauseKey, now: int)
    requires OnlyQuiet(l)
    ensures StaysQuiet(l, L.Next(l, limits, L.RunWriteKey(key, now)))
  {
  }

  lemma QuietPause(l: L.Life, limits: seq<nat>, now: int)
    requires OnlyQuiet(l)
    ensures StaysQuiet(l, L.Next(l, limits, L.PauseMatch(now)))
  {
  }

  lemma QuietFinish(l: L.Life, limits: seq<nat>, registered: bool, now: int)
    requires OnlyQuiet(l)
    ensures StaysQuiet(l, L.Next(l, limits, L.FireFinish(registered, now)))
  {
    assert !QuietTask(L.Finish(registered));
    L.SpendAbsent(l, L.Finish(registered));
  }

  /** With only the reset and key writes pending, no timer does anything. */
  lemma QuietTimers(l: L.Life, limits: seq<nat>, e: L.Step)
    requires L.StatusInv(l, limits) && l.game.Some? && OnlyQuiet(l)
    requires !e.ResumeMatch? && !e.Recover?
    ensures StaysQuiet(l, L.Next(l, limits, e))
  {
    match e
    case FireArm(k, now) => IdleTimers(l, limits, k, true, now);
    case FireClose(k, registered, now) => IdleTimers(l, limits, k, registered, now);
    case RunArmNext(now) => IdleTimers(l, limits, 0, true, now);
    case RunStartHook(now) => QuietReset(l, limits, now);
    case PauseMatch(now) => QuietPause(l, limits, now);
    case RunWriteKey(key, now) => QuietKey(l, limits, key, now);
    case FireFinish(registered, _) => QuietFinish(l, limits, registered, e.at);
    case DropTask(t, _) => QuietSpend(l, t);
    case _ =>
  }

  lemma QuietStep(s: State, quiz: seq<Question>, m: Move)
    requires RowsInv(s, quiz) && QuietStart(s) && PatientMove(s, m)
    ensures QuietStart(Apply(s, quiz, m))
  {
    match m
    case Live(e) => QuietLive(s, quiz, e);
    case Submit(a) =>
      if L.StartHook in s.life.tasks || s.life.game.None? {
        assert !Judge(s, quiz, a).Inserted?;
      }
    case CreditBoard(id, _) =>
      if s.ledger.subs == [] { assert WithId(s.ledger.subs, id).None?; }
    case _ =>
  }

  /** Patient runs lose nothing. */
  lemma {:induction false} PatientRunsAreLossless(s: State, quiz: seq<Question>, ms: seq<Move>)
    requires RowsInv(s, quiz) && QuietStart(s) && PatientRun(s, quiz, ms)
    ensures LosslessRun(s, quiz, ms)
    decreases |ms|
  {
    if ms != [] {
      RowsStep(s, quiz, ms[0]);
      QuietStep(s, quiz, ms[0]);
      PatientRunsAreLossless(Apply(s, quiz, ms[0]), quiz, ms[1..]);
    }
  }

  /** Patience is needed. Lifecycle.OpenBeforeReset reaches a state with a question
      open and the reset still owed; there, any accepted answer that is credited
      before the reset runs is wiped from the sorted set, crash-free. */
  lemma EarlyAnswerIsWiped(s: State, quiz: seq<Question>, a: Attempt, rank: Option<nat>, at: int)
    requires RowsInv(s, quiz) && Balanced(s.ledger)
    requires L.StartHook in s.life.tasks && Judge(s, quiz, a).Inserted?
    ensures var s2 := Apply(Apply(s, quiz, Submit(a)), quiz, CreditBoard(a.id, rank));
            var g := Apply(s2, quiz, Live(L.RunStartHook(at))).ledger;
            && s2.ledger.board == Increment(s.ledger.board, a.participant, Judge(s, quiz, a).row.score)
            && g.board == map[] && Owed(g, a.participant) == ScoreOf(s2.ledger.board, a.participant)
  {
    var s2 := Apply(Apply(s, quiz, Submit(a)), quiz, CreditBoard(a.id, rank));
    BothKept(s, quiz, Submit(a));
    BothKept(Apply(s, quiz, Submit(a)), quiz, CreditBoard(a.id, rank));
    CreditsNewRow(s, quiz, a, rank);
    ResetWipes(s2, quiz, a.participant, at);
  }

  /** A run from the lobby, without a crash, that ends so: the points are in the ledger
      and the sorted set is empty, with nothing in flight. */
  lemma EarlyAnswerReached()
    ensures var opening := LiveMoves([L.Start(0)] + ([L.PauseMatch(0)] + ([L.ResumeMatch(0)] + ([L.RunArmNext(0)] + [L.FireArm(1, 0)]))));
            var answer := [Submit(Reuse(7, 1)), CreditBoard(1, Some(1)), Live(L.RunStartHook(0))];
            var g := Play(NewMatch(SAMPLE_ROOM), SAMPLE_QUIZ, opening + answer).ledger;
            Total(g.subs, 7) == 100 && g.board == map[] && g.uncredited == {}
  {
    var es := [L.Start(0)] + ([L.PauseMatch(0)] + ([L.ResumeMatch(0)] + ([L.RunArmNext(0)] + [L.FireArm(1, 0)])));
    var answer := [Submit(Reuse(7, 1)), CreditBoard(1, Some(1)), Live(L.RunStartHook(0))];
    var s := Play(NewMatch(SAMPLE_ROOM), SAMPLE_QUIZ, LiveMoves(es));
    assert Limits(SAMPLE_QUIZ) == [20];
    L.OpenBeforeReset();
    LivePlay(NewMatch(SAMPLE_ROOM), SAMPLE_QUIZ, es);
    RowsRun(NewMatch(SAMPLE_ROOM), SAMPLE_QUIZ, LiveMoves(es));
    SampleAnswer(s, 7, 1);
    PlayAppend(NewMatch(SAMPLE_ROOM), SAMPLE_QUIZ, LiveMoves(es), answer);
    WipedAfterAnswer(s);
  }

  lemma WipedAfterAnswer(s: State)
    requires RowsInv(s, SAMPLE_QUIZ) && s.ledger.subs == [] && s.ledger.board == map[] && s.ledger.uncredited == {}
    requires L.StartHook in s.life.tasks && Judge(s, SAMPLE_QUIZ, Reuse(7, 1)).Inserted?
    requires Judge(s, SAMPLE_QUIZ, Reuse(7, 1)).row.score == 100
    ensures var g := Play(s, SAMPLE_QUIZ, [Submit(Reuse(7, 1)), CreditBoard(1, Some(1)), Live(L.RunStartHook(0))]).ledger;
            Total(g.subs, 7) == 100 && g.board == map[] && g.uncredited == {}
  {
    var ms := [Submit(Reuse(7, 1)), CreditBoard(1, Some(1)), Live(L.RunStartHook(0))];
    assert Balanced(s.ledger);
    EarlyAnswerIsWiped(s, SAMPLE_QUIZ, Reuse(7, 1), Some(1), 0);
    var s1 := Apply(s, SAMPLE_QUIZ, ms[0]);
    var s2 := Apply(s1, SAMPLE_QUIZ, ms[1]);
    assert ms[1..] == [ms[1], ms[2]] && ms[1..][1..] == [ms[2]];
    assert Play(s2, SAMPLE_QUIZ, [ms[2]]) == Apply(s2, SAMPLE_QUIZ, ms[2]);
    NothingPending(s2.ledger.subs, 7);
  }

  lemma CreditsNewRow(s: State, quiz: seq<Question>, a: Attempt, rank: Option<nat>)
    requires Judge(s, quiz, a).Inserted?
    ensures var s2 := Apply(Apply(s, quiz, Submit(a)), quiz, CreditBoard(a.id, rank));
            && s2.life == s.life
            && s2.ledger.board == Increment(s.ledger.board, a.participant, Judge(s, quiz, a).row.score)
  {
    var row := Judge(s, quiz, a).row;
    assert row.id == a.id && row.participant == a.participant;
    hide Judge, Gate, NewRow, Find;
    RowIsFound(s.ledger.subs, row);
  }

  lemma ResetWipes(s: State, quiz: seq<Question>, p: int, at: int)
    requires RowsInv(s, quiz) && Balanced(s.ledger) && L.StartHook in s.life.tasks && p in s.ledger.board
    ensures var g := Apply(s, quiz, Live(L.RunStartHook(at))).ledger;
            g.board == map[] && Owed(g, p) == ScoreOf(s.ledger.board, p)
  {
  }

  lemma RowIsFound(subs: seq<Submission>, row: Submission)
    ensures WithId(subs + [row], row.id) == Some(row)
  {
  }

  // ---------------------------------------------------------------------------
  // Completion
  // ---------------------------------------------------------------------------

  /** One MatchFinished event once completed and none before, and the stored final
      scores rank those who answered and the players of the room at the end. */
  ghost predicate CompletionInv(s: State, atEnd: seq<Member>) {
    && FinishCount(s.ledger.outbox) == (if s.life.game == Some(L.Completed) then 1 else 0)
    && (s.life.game == Some(L.Completed) ==> s.ledger.finals == FinalList(s.ledger.subs, ActiveIds(atEnd)))
  }

  /** The roster that the completing move found, `atEnd` if there is no such move. */
  function RosterAfter(s: State, m: Move, atEnd: seq<Member>): seq<Member> {
    if m.Live? && Ends(s.life, m.step) then s.ledger.roster else atEnd
  }

  function RosterAtEnd(s: State, quiz: seq<Question>, ms: seq<Move>, atEnd: seq<Member>): seq<Member>
    decreases |ms|
  {
    if ms == [] then atEnd else RosterAtEnd(Apply(s, quiz, ms[0]), quiz, ms[1..], RosterAfter(s, ms[0], atEnd))
  }

  lemma {:induction false} ActiveExactly(roster: seq<Member>, p: int)
    ensures p in ActiveIds(roster) <==> MayPlay(roster, p)
  {
    if roster != [] {
      var n := |roster| - 1;
      ActiveExactly(roster[..n], p);
      if MayPlay(roster[..n], p) {
        var i :| 0 <= i < n && roster[..n][i].participant == p && !roster[..n][i].kicked;
        assert roster[i].participant == p && !roster[i].kicked;
      }
      if MayPlay(roster, p) && !(roster[n].participant == p && !roster[n].kicked) {
        var i :| 0 <= i < |roster| && roster[i].participant == p && !roster[i].kicked;
        assert roster[..n][i] == roster[i];
      }
    }
  }

  /** Whom the final list holds, and how. */
  lemma RankedExactly(subs: seq<Submission>, roster: seq<Member>)
    ensures var finals := FinalList(subs, ActiveIds(roster));
            && IsFinalRanking(subs, ActiveIds(roster), finals)
            && forall p :: p in Ranking.Ids(finals) <==> Answered(subs, p) || MayPlay(roster, p)
  {
    FinalListIsFinalRanking(subs, ActiveIds(roster));
    forall p ensures p in ActiveIds(roster) <==> MayPlay(roster, p) {
      ActiveExactly(roster, p);
    }
  }

  /** Nothing is left of a completed match to change. */
  ghost predicate Frozen(s: State, s': State) {
    && s'.life.game == Some(L.Completed) && s'.life.room == L.Completed && s'.life.rows == s.life.rows
    && s'.ledger.subs == s.ledger.subs && s'.ledger.finals == s.ledger.finals
    && FinishCount(s'.ledger.outbox) == FinishCount(s.ledger.outbox)
  }

  lemma FrozenStep(s: State, quiz: seq<Question>, m: Move)
    requires L.StatusInv(s.life, Limits(quiz)) && s.life.game == Some(L.Completed)
    ensures Frozen(s, Apply(s, quiz, m)) && L.StatusInv(Apply(s, quiz, m).life, Limits(quiz))
  {
    match m
    case Live(e) =>
      L.StatusStep(s.life, Limits(quiz), e);
      LiveOutbox(s, quiz, e);
    case Submit(a) => assert !Judge(s, quiz, a).Inserted?;
    case _ =>
  }

  lemma {:induction false} CompletedIsFinal(s: State, quiz: seq<Question>, ms: seq<Move>)
    requires L.StatusInv(s.life, Limits(quiz)) && s.life.game == Some(L.Completed)
    ensures Frozen(s, Play(s, quiz, ms))
    decreases |ms|
  {
    if ms != [] {
      FrozenStep(s, quiz, ms[0]);
      CompletedIsFinal(Apply(s, quiz, ms[0]), quiz, ms[1..]);
    }
  }

  /** Only end_match completes a match. */
  lemma CompletesExactly(l: L.Life, limits: seq<nat>, e: L.Step)
    requires L.StatusInv(l, limits) && l.game != Some(L.Completed)
    ensures L.Next(l, limits, e).game == Some(L.Completed) <==> Ends(l, e)
  {
  }

  lemma CompletionStep(s: State, quiz: seq<Question>, m: Move, atEnd: seq<Member>)
    requires RowsInv(s, quiz) && CompletionInv(s, atEnd)
    ensures CompletionInv(Apply(s, quiz, m), RosterAfter(s, m, atEnd))
  {
    if s.life.game == Some(L.Completed) {
      FrozenStep(s, quiz, m);
    } else {
      match m
      case Live(e) =>
        LiveOutbox(s, quiz, e);
        CompletesExactly(s.life, Limits(quiz), e);
      case Submit(a) =>
        if Judge(s, quiz, a).Inserted? { OutboxAppend(s.ledger.outbox, AnswerSubmitted(NewRow(s, quiz, a))); }
      case _ =>
    }
  }

  lemma {:induction false} CompletionRun(s: State, quiz: seq<Question>, ms: seq<Move>, atEnd: seq<Member>)
    requires RowsInv(s, quiz) && CompletionInv(s, atEnd)
    ensures CompletionInv(Play(s, quiz, ms), RosterAtEnd(s, quiz, ms, atEnd)) && RowsInv(Play(s, quiz, ms), quiz)
    decreases |ms|
  {
    if ms != [] {
      RowsStep(s, quiz, ms[0]);
      CompletionStep(s, quiz, ms[0], atEnd);
      CompletionRun(Apply(s, quiz, ms[0]), quiz, ms[1..], RosterAfter(s, ms[0], atEnd));
    }
  }

  /** Whatever led to the end of the match and whatever follows it: statuses agree,
      there is exactly one MatchFinished event, the answers are those of the moment the
      match ended, every final total is the sum of that participant's rows, all totals
      are all the points awarded, and the list ranks exactly those who answered or were
      in the room, not kicked, at that moment. */
  lemma CompletedMatchStands(roster: seq<Member>, quiz: seq<Question>, before: seq<Move>, e: L.Step, after: seq<Move>)
    requires Ends(Play(NewMatch(roster), quiz, before).life, e)
    ensures var s := Play(NewMatch(roster), quiz, before);
            var s' := Play(Apply(s, quiz, Live(e)), quiz, after);
            var finals := s'.ledger.finals;
            && s'.life.game == Some(L.Completed) && s'.life.room == L.Completed
            && FinishCount(s'.ledger.outbox) == 1 && s'.ledger.subs == s.ledger.subs
            && IsFinalRanking(s.ledger.subs, ActiveIds(s.ledger.roster), finals)
            && (forall i :: 0 <= i < |finals| ==> finals[i].total == Total(s'.ledger.subs, finals[i].participant))
            && SumFinal(finals) == GrandTotal(s'.ledger.subs)
            && (forall p :: p in Ranking.Ids(finals) <==>
                  Answered(s'.ledger.subs, p) || MayPlay(s.ledger.roster, p))
  {
    hide Play, RosterAtEnd, IsFinalRanking, RowsInv, CompletionInv, Apply, Ends;
    var s := Play(NewMatch(roster), quiz, before);
    NewIsBalanced(roster, quiz);
    CompletionRun(NewMatch(roster), quiz, before, []);
    EndCompletes(s, quiz, e, RosterAtEnd(NewMatch(roster), quiz, before, []));
    CompletedIsFinal(Apply(s, quiz, Live(e)), quiz, after);
    RankedExactly(s.ledger.subs, s.ledger.roster);
    RankingTotals(s.ledger.subs, ActiveIds(s.ledger.roster), FinalList(s.ledger.subs, ActiveIds(s.ledger.roster)));
  }

  lemma RankingTotals(subs: seq<Submission>, active: seq<int>, finals: seq<FinalScore>)
    requires IsFinalRanking(subs, active, finals)
    ensures forall i :: 0 <= i < |finals| ==> finals[i].total == Total(subs, finals[i].participant)
    ensures SumFinal(finals) == GrandTotal(subs)
  {
  }

  /** The completing move itself. */
  lemma EndCompletes(s: State, quiz: seq<Question>, e: L.Step, atEnd: seq<Member>)
    requires RowsInv(s, quiz) && CompletionInv(s, atEnd) && Ends(s.life, e)
    ensures var s' := Apply(s, quiz, Live(e));
            && L.StatusInv(s'.life, Limits(quiz)) && s'.life.game == Some(L.Completed)
            && FinishCount(s'.ledger.outbox) == 1 && s'.ledger.subs == s.ledger.subs
            && s'.ledger.finals == FinalList(s.ledger.subs, ActiveIds(s.ledger.roster))
  {
    L.StatusStep(s.life, Limits(quiz), e);
    CompletesExactly(s.life, Limits(quiz), e);
    LiveOutbox(s, quiz, e);
  }

  lemma OnlyEndCompletes(s: State, quiz: seq<Question>, m: Move)
    requires RowsInv(s, quiz) && s.life.game != Some(L.Completed)
    requires Apply(s, quiz, m).life.game == Some(L.Completed)
    ensures m.Live? && Ends(s.life, m.step)
  {
    if m.Live? {
      CompletesExactly(s.life, Limits(quiz), m.step);
    }
  }

  /** Every run of a completed match passes such a moment. */
  lemma {:induction false} CompletedMeansEnded(s: State, quiz: seq<Question>, ms: seq<Move>) returns (n: nat)
    requires RowsInv(s, quiz) && s.life.game != Some(L.Completed)
    requires Play(s, quiz, ms).life.game == Some(L.Completed)
    ensures n < |ms| && ms[n].Live? && Ends(Play(s, quiz, ms[..n]).life, ms[n].step)
    ensures ms == ms[..n] + [ms[n]] + ms[n + 1..]
    decreases |ms|
  {
    hide Apply, RowsInv;
    RowsStep(s, quiz, ms[0]);
    if Apply(s, quiz, ms[0]).life.game == Some(L.Completed) {
      n := 0;
      OnlyEndCompletes(s, quiz, ms[0]);
    } else {
      n := CompletedMeansEnded(Apply(s, quiz, ms[0]), quiz, ms[1..]);
      n := n + 1;
      assert ms[..n][0] == ms[0] && ms[..n][1..] == ms[1..][..n - 1];
    }
  }

  // ---------------------------------------------------------------------------
  // Live and final leaderboards agree
  // ---------------------------------------------------------------------------

  lemma QuietBoardIsLedger(g: Ledger)
    requires Balanced(g) && g.uncredited == {}
    ensures g.board == GroupScores(g.subs)
  {
    forall p
      ensures p in g.board <==> p in GroupScores(g.subs)
      ensures p in g.board ==> g.board[p] == GroupScores(g.subs)[p]
    {
      NothingPending(g.subs, p);
      assert Owed(g, p) == 0;
      assert Credited(g.subs, g.uncredited, p) <==> Answered(g.subs, p);
    }
  }

  /** After any lossless run with no hook in flight, Redis and SQL show the same
      score at every rank; once the match is completed, so does the final list,
      with only zeros behind. */
  lemma LeaderboardsAgree(roster: seq<Member>, quiz: seq<Question>, ms: seq<Move>, redis: seq<int>, sql: seq<int>)
    requires LosslessRun(NewMatch(roster), quiz, ms)
    requires var g := Play(NewMatch(roster), quiz, ms).ledger;
             g.uncredited == {} && IsListing(g.board, redis) && IsListing(GroupScores(g.subs), sql)
    ensures var s := Play(NewMatch(roster), quiz, ms);
            var g := s.ledger;
            && ScoresOf(g.board, redis) == ScoresOf(GroupScores(g.subs), sql)
            && (s.life.game == Some(L.Completed) ==>
                  && |redis| <= |g.finals|
                  && TotalsOf(g.finals)[..|redis|] == ScoresOf(g.board, redis)
                  && forall i :: |redis| <= i < |g.finals| ==> g.finals[i].total == 0)
  {
    hide Play, LosslessRun, RowsInv, Balanced, CompletionInv, RosterAtEnd;
    var s := Play(NewMatch(roster), quiz, ms);
    NewIsBalanced(roster, quiz);
    BalancedRun(NewMatch(roster), quiz, ms);
    QuietBoardIsLedger(s.ledger);
    LiveBoardsAgree(s.ledger.board, s.ledger.subs, redis, sql, 1);
    if s.life.game == Some(L.Completed) {
      CompletionRun(NewMatch(roster), quiz, ms, []);
      FinalBoardAgrees(s, quiz, RosterAtEnd(NewMatch(roster), quiz, ms, []), redis);
    }
  }

  lemma NewIsBalanced(roster: seq<Member>, quiz: seq<Question>)
    ensures var s := NewMatch(roster); RowsInv(s, quiz) && Balanced(s.ledger) && CompletionInv(s, [])
  {
  }

  lemma FinalBoardAgrees(s: State, quiz: seq<Question>, atEnd: seq<Member>, redis: seq<int>)
    requires RowsInv(s, quiz) && CompletionInv(s, atEnd) && s.life.game == Some(L.Completed)
    requires s.ledger.board == GroupScores(s.ledger.subs) && IsListing(s.ledger.board, redis)
    ensures var g := s.ledger;
            && |redis| <= |g.finals|
            && TotalsOf(g.finals)[..|redis|] == ScoresOf(g.board, redis)
            && forall i :: |redis| <= i < |g.finals| ==> g.finals[i].total == 0
  {
    forall i | 0 <= i < |s.ledger.subs| ensures s.ledger.subs[i].score >= 0 {
      assert Earned(s.life.rows, quiz, s.ledger.subs[i]);
    }
    FinalContinuesLive(s.ledger.subs, ActiveIds(atEnd), redis);
  }
}
