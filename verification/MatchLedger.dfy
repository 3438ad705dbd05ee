/** What every run of a match keeps about its answers. */
module MatchLedger {
  import opened Common
  import opened Answers
  import opened Leaderboard
  import opened Ranking
  import opened Scoring
  import opened MatchModel
  import L = Lifecycle

  // ---------------------------------------------------------------------------
  // Rows, events and scores: held by every run
  // ---------------------------------------------------------------------------

  /** The primary key and both unique constraints. */
  ghost predicate UniqueRows(subs: seq<Submission>) {
    forall i, j :: 0 <= i < j < |subs| ==>
      && subs[i].id != subs[j].id && subs[i].request != subs[j].request
      && !(subs[i].question == subs[j].question && subs[i].participant == subs[j].participant)
  }

  /** The rows announced by AnswerSubmitted events, in order. */
  function AnswerRows(outbox: seq<Event>): seq<Submission> {
    if outbox == [] then []
    else
      var e := outbox[|outbox| - 1];
      AnswerRows(outbox[..|outbox| - 1]) + if e.AnswerSubmitted? then [e.row] else []
  }

  function FinishCount(outbox: seq<Event>): nat {
    if outbox == [] then 0
    else FinishCount(outbox[..|outbox| - 1]) + if outbox[|outbox| - 1].MatchFinished? then 1 else 0
  }

  lemma OutboxAppend(outbox: seq<Event>, e: Event)
    ensures AnswerRows(outbox + [e]) == AnswerRows(outbox) + if e.AnswerSubmitted? then [e.row] else []
    ensures FinishCount(outbox + [e]) == FinishCount(outbox) + if e.MatchFinished? then 1 else 0
  {
  }

  /** The row answers a question that was armed, within its points. */
  ghost predicate Earned(rows: seq<L.QuestionRow>, quiz: seq<Question>, s: Submission) {
    && 1 <= s.question <= |rows| && s.question <= |quiz|
    && rows[s.question - 1].started.Some?
    && 0 <= s.score <= quiz[s.question - 1].points
  }

  ghost predicate RowsInv(s: State, quiz: seq<Question>) {
    var g := s.ledger;
    && L.StatusInv(s.life, Limits(quiz))
    && UniqueRows(g.subs)
    && AnswerRows(g.outbox) == g.subs
    && (forall i :: 0 <= i < |g.subs| ==> Earned(s.life.rows, quiz, g.subs[i]))
    && (forall id :: id in g.uncredited ==> WithId(g.subs, id).Some?)
  }

  lemma StartedStays(l: L.Life, limits: seq<nat>, e: L.Step, i: nat)
    requires L.StatusInv(l, limits) && i < |l.rows| && l.rows[i].started.Some?
    ensures |L.Next(l, limits, e).rows| == |l.rows| && L.Next(l, limits, e).rows[i].started.Some?
  {
  }

  /** The match's life announces no answers, and announces its end once. */
  lemma LiveOutbox(s: State, quiz: seq<Question>, e: L.Step)
    ensures var g, g' := s.ledger, AfterLive(s, quiz, e);
            && AnswerRows(g'.outbox) == AnswerRows(g.outbox)
            && FinishCount(g'.outbox) == FinishCount(g.outbox) + (if Ends(s.life, e) then 1 else 0)
  {
  }

  lemma LiveKeepsRows(s: State, quiz: seq<Question>, e: L.Step)
    requires RowsInv(s, quiz)
    ensures RowsInv(Apply(s, quiz, Live(e)), quiz)
  {
    L.StatusStep(s.life, Limits(quiz), e);
    LiveOutbox(s, quiz, e);
    var subs := s.ledger.subs;
    forall i | 0 <= i < |subs| ensures Earned(L.Next(s.life, Limits(quiz), e).rows, quiz, subs[i]) {
      assert Earned(s.life.rows, quiz, subs[i]);
      StartedStays(s.life, Limits(quiz), e, subs[i].question - 1);
    }
  }

  lemma NewRowEarned(s: State, quiz: seq<Question>, a: Attempt)
    requires Gate(s, quiz, a).None?
    ensures Earned(s.life.rows, quiz, NewRow(s, quiz, a))
  {
    var row, q := s.life.rows[a.question - 1], quiz[a.question - 1];
    var isCorrect := a.selected == q.correct && q.correct != {};
    ScoreBounds(q.points, AtLeastZero(a.at - row.started.value) / 1000,
                (row.deadline.value - row.started.value) / 1000, a.mode, isCorrect);
  }

  lemma FindSurvives(subs: seq<Submission>, row: Submission, id: int)
    requires WithId(subs, id).Some? || row.id == id
    ensures WithId(subs + [row], id).Some?
  {
  }

  lemma InsertKeepsRows(s: State, quiz: seq<Question>, a: Attempt)
    requires RowsInv(s, quiz) && Judge(s, quiz, a).Inserted?
    ensures RowsInv(Apply(s, quiz, Submit(a)), quiz)
  {
    var g, row := s.ledger, NewRow(s, quiz, a);
    var subs' := g.subs + [row];
    NewRowEarned(s, quiz, a);
    OutboxAppend(g.outbox, AnswerSubmitted(row));
    forall i | 0 <= i < |g.subs|
      ensures g.subs[i].id != row.id && g.subs[i].request != row.request
      ensures !(g.subs[i].question == row.question && g.subs[i].participant == row.participant)
    {
    }
    forall id | id in g.uncredited + {row.id} ensures WithId(subs', id).Some? {
      FindSurvives(g.subs, row, id);
    }
  }

  lemma RowsStep(s: State, quiz: seq<Question>, m: Move)
    requires RowsInv(s, quiz)
    ensures RowsInv(Apply(s, quiz, m), quiz)
  {
    match m
    case Live(e) => LiveKeepsRows(s, quiz, e);
    case Submit(a) => if Judge(s, quiz, a).Inserted? { InsertKeepsRows(s, quiz, a); }
    case _ =>
  }

  /** In every run, crashes and all: one row per request and per pair, exactly one
      AnswerSubmitted event per row and in the same order, and every row within
      the points of a question that was armed. */
  lemma {:induction false} RowsRun(s: State, quiz: seq<Question>, ms: seq<Move>)
    requires RowsInv(s, quiz)
    ensures RowsInv(Play(s, quiz, ms), quiz)
    decreases |ms|
  {
    if ms != [] {
      RowsStep(s, quiz, ms[0]);
      RowsRun(Apply(s, quiz, ms[0]), quiz, ms[1..]);
    }
  }

  // ---------------------------------------------------------------------------
  // Which answers are accepted
  // ---------------------------------------------------------------------------

  /** The question is open for answers at `now`, the last 200 ms of grace included. */
  ghost predicate Answerable(l: L.Life, k: nat, now: int) {
    && l.game == Some(L.Running) && 1 <= k <= |l.rows|
    && l.rows[k - 1].Open() && l.rows[k - 1].deadline.Some? && now - 200_000 <= l.rows[k - 1].deadline.value
  }

  ghost predicate Collides(subs: seq<Submission>, a: Attempt) {
    exists i :: 0 <= i < |subs| &&
      (subs[i].id == a.id || subs[i].request == a.request
       || (subs[i].question == a.question && subs[i].participant == a.participant))
  }

  /** The row says what was answered, when, and what it is worth. */
  ghost predicate Records(l: L.Life, q: Question, a: Attempt, row: Submission)
    requires Answerable(l, a.question, a.at)
  {
    var started := l.rows[a.question - 1].started.value;
    var window := (l.rows[a.question - 1].deadline.value - started) / 1000;
    && row.id == a.id && row.request == a.request && row.selected == a.selected
    && row.question == a.question && row.participant == a.participant
    && row.responseMs * 1000 <= AtLeastZero(a.at - started) < (row.responseMs + 1) * 1000
    && (row.correct <==> a.selected == q.correct && q.correct != {})
    && (!row.correct ==> row.score == 0)
    && (row.correct && a.mode == Fixed ==> row.score == q.points)
    && (row.correct && a.mode == SpeedBonus && (a.at <= started || window <= 0) ==> row.score == q.points)
    && (row.correct && a.mode == SpeedBonus && window > 0 ==> IsBonus(q.points, row.responseMs, window, row.score))
    && (row.correct ==> RoundHalfEven(q.points, 2) <= row.score <= q.points)
  }

  /** An attempt becomes a row if and only if it carries a request id, its question is
      open for answers, its participant may play, its options belong to the question,
      and no row collides with it; and the row records it. */
  lemma InsertedExactly(s: State, quiz: seq<Question>, a: Attempt)
    requires RowsInv(s, quiz)
    ensures Judge(s, quiz, a).Inserted? <==>
            && a.request != "" && Answerable(s.life, a.question, a.at) && MayPlay(s.ledger.roster, a.participant)
            && a.question <= |quiz| && a.selected <= quiz[a.question - 1].options && !Collides(s.ledger.subs, a)
    ensures Judge(s, quiz, a).Inserted? ==> Records(s.life, quiz[a.question - 1], a, Judge(s, quiz, a).row)
  {
    if Gate(s, quiz, a).None? {
      RecordsNewRow(s, quiz, a);
      var subs := s.ledger.subs;
      assert Collides(subs, a) <==>
             WithId(subs, a.id).Some? || WithRequest(subs, a.request).Some? || WithPair(subs, a.question, a.participant).Some?;
    }
  }

  /** The question exists and the attempt carries a request id. */
  predicate Known(s: State, quiz: seq<Question>, a: Attempt) {
    a.request != "" && 1 <= a.question <= |s.life.rows| && a.question <= |quiz|
  }

  /** The attempt passes every check before the insert. */
  ghost predicate Admitted(s: State, quiz: seq<Question>, a: Attempt) {
    && Known(s, quiz, a) && Answerable(s.life, a.question, a.at) && MayPlay(s.ledger.roster, a.participant)
    && a.selected <= quiz[a.question - 1].options
  }

  /** Each answer to an attempt has its own condition: a closed question comes before a
      participant who may not play, and that before options of another question; a
      collision is answered by the row with the same request id, failing that by the row
      of the same pair, and only a bare clash of ids is an error. */
  lemma VerdictExactly(s: State, quiz: seq<Question>, a: Attempt)
    ensures var v, open, may := Judge(s, quiz, a), Answerable(s.life, a.question, a.at), MayPlay(s.ledger.roster, a.participant);
            var subs := s.ledger.subs;
            && (v == Refused(ValidationError) <==>
                !Known(s, quiz, a) || (open && may && !(a.selected <= quiz[a.question - 1].options)))
            && (v == Refused(QuestionClosedCode) <==> Known(s, quiz, a) && !open)
            && (v == Refused(Forbidden) <==> Known(s, quiz, a) && open && !may)
            && (v == Refused(AnswerAlreadySubmitted) <==>
                && Admitted(s, quiz, a) && WithId(subs, a.id).Some?
                && WithRequest(subs, a.request).None? && WithPair(subs, a.question, a.participant).None?)
            && (forall row :: v == Duplicate(row) <==>
                Admitted(s, quiz, a) && Some(row) == if WithRequest(subs, a.request).Some? then WithRequest(subs, a.request)
                                                     else WithPair(subs, a.question, a.participant))
  {
  }

  lemma RecordsNewRow(s: State, quiz: seq<Question>, a: Attempt)
    requires Gate(s, quiz, a).None?
    ensures Answerable(s.life, a.question, a.at) && Records(s.life, quiz[a.question - 1], a, NewRow(s, quiz, a))
  {
    var row, q := s.life.rows[a.question - 1], quiz[a.question - 1];
    var isCorrect := a.selected == q.correct && q.correct != {};
    var responseMs := AtLeastZero(a.at - row.started.value) / 1000;
    var windowMs := (row.deadline.value - row.started.value) / 1000;
    hide Score, RoundHalfEven, IsBonus;
    ScoreCases(q.points, responseMs, windowMs, a.mode, isCorrect);
  }

  /** A player who was kicked never scores again. */
  lemma {:induction false} KickedScoresNoMore(s: State, quiz: seq<Question>, ms: seq<Move>, p: int)
    requires Kicked(s.ledger.roster, p)
    ensures Total(Play(s, quiz, ms).ledger.subs, p) == Total(s.ledger.subs, p)
    decreases |ms|
  {
    if ms != [] {
      KickedStep(s, quiz, ms[0], p);
      KickedScoresNoMore(Apply(s, quiz, ms[0]), quiz, ms[1..], p);
    }
  }

  ghost predicate Kicked(roster: seq<Member>, p: int) {
    OnRoster(roster, p) && !MayPlay(roster, p)
  }

  lemma KickedStep(s: State, quiz: seq<Question>, m: Move, p: int)
    requires Kicked(s.ledger.roster, p)
    ensures var g := Apply(s, quiz, m).ledger;
            Kicked(g.roster, p) && Total(g.subs, p) == Total(s.ledger.subs, p)
  {
    var roster, roster' := s.ledger.roster, Apply(s, quiz, m).ledger.roster;
    var i :| 0 <= i < |roster| && roster[i].participant == p;
    hide L.Next, Announced, FinalScores, NewRow, Gate, Find;
    assert i < |roster'| && roster'[i].participant == p;
    if m.Submit? && Judge(s, quiz, m.attempt).Inserted? {
      KickedMayNotInsert(s, quiz, m.attempt);
      TotalAppend(s.ledger.subs, Judge(s, quiz, m.attempt).row, p);
    }
  }

  lemma KickedMayNotInsert(s: State, quiz: seq<Question>, a: Attempt)
    requires Judge(s, quiz, a).Inserted?
    ensures Judge(s, quiz, a).row.participant == a.participant && MayPlay(s.ledger.roster, a.participant)
  {
  }

  // ---------------------------------------------------------------------------
  // A running total never exceeds the points of the armed questions
  // ---------------------------------------------------------------------------

  function ArmedPoints(rows: seq<L.QuestionRow>, quiz: seq<Question>, n: nat): nat
    requires n <= |rows| && n <= |quiz|
  {
    if n == 0 then 0
    else ArmedPoints(rows, quiz, n - 1) + if rows[n - 1].started.Some? then quiz[n - 1].points else 0
  }

  /** The part of p's total earned on questions up to position n. */
  function TotalUpTo(subs: seq<Submission>, p: int, n: nat): int {
    if subs == [] then 0
    else
      var s := subs[|subs| - 1];
      TotalUpTo(subs[..|subs| - 1], p, n) + if s.participant == p && s.question <= n then s.score else 0
  }

  function TotalAt(subs: seq<Submission>, p: int, n: nat): int {
    if subs == [] then 0
    else
      var s := subs[|subs| - 1];
      TotalAt(subs[..|subs| - 1], p, n) + if s.participant == p && s.question == n then s.score else 0
  }

  lemma {:induction false} SplitByQuestion(subs: seq<Submission>, p: int, n: nat)
    requires n > 0
    ensures TotalUpTo(subs, p, n) == TotalUpTo(subs, p, n - 1) + TotalAt(subs, p, n)
  {
    if subs != [] {
      SplitByQuestion(subs[..|subs| - 1], p, n);
    }
  }

  /** One pair has one row, so a question contributes at most its points. */
  lemma {:induction false} OneRowPerQuestion(subs: seq<Submission>, p: int, n: nat, rows: seq<L.QuestionRow>, quiz: seq<Question>)
    requires UniqueRows(subs) && 1 <= n <= |rows| && n <= |quiz|
    requires forall i :: 0 <= i < |subs| ==> Earned(rows, quiz, subs[i])
    ensures 0 <= TotalAt(subs, p, n) <= if rows[n - 1].started.Some? then quiz[n - 1].points else 0
    ensures (forall i :: 0 <= i < |subs| ==> !(subs[i].participant == p && subs[i].question == n)) ==>
              TotalAt(subs, p, n) == 0
  {
    if subs != [] {
      var k := |subs| - 1;
      var init := subs[..k];
      OneRowPerQuestion(init, p, n, rows, quiz);
      assert Earned(rows, quiz, subs[k]);
      if subs[k].participant == p && subs[k].question == n {
        forall i | 0 <= i < k ensures !(init[i].participant == p && init[i].question == n) {
          assert init[i] == subs[i];
        }
      }
    }
  }

  lemma {:induction false} BoundedUpTo(subs: seq<Submission>, p: int, n: nat, rows: seq<L.QuestionRow>, quiz: seq<Question>)
    requires UniqueRows(subs) && n <= |rows| && n <= |quiz|
    requires forall i :: 0 <= i < |subs| ==> Earned(rows, quiz, subs[i])
    ensures 0 <= TotalUpTo(subs, p, n) <= ArmedPoints(rows, quiz, n)
  {
    if n == 0 {
      NothingAtZero(subs, p, rows, quiz);
    } else {
      BoundedUpTo(subs, p, n - 1, rows, quiz);
      SplitByQuestion(subs, p, n);
      OneRowPerQuestion(subs, p, n, rows, quiz);
    }
  }

  lemma {:induction false} NothingAtZero(subs: seq<Submission>, p: int, rows: seq<L.QuestionRow>, quiz: seq<Question>)
    requires forall i :: 0 <= i < |subs| ==> Earned(rows, quiz, subs[i])
    ensures TotalUpTo(subs, p, 0) == 0
  {
    if subs != [] {
      assert Earned(rows, quiz, subs[|subs| - 1]);
      NothingAtZero(subs[..|subs| - 1], p, rows, quiz);
    }
  }

  lemma {:induction false} UpToAll(subs: seq<Submission>, p: int, rows: seq<L.QuestionRow>, quiz: seq<Question>)
    requires forall i :: 0 <= i < |subs| ==> Earned(rows, quiz, subs[i])
    ensures TotalUpTo(subs, p, |rows|) == Total(subs, p)
  {
    if subs != [] {
      assert Earned(rows, quiz, subs[|subs| - 1]);
      UpToAll(subs[..|subs| - 1], p, rows, quiz);
    }
  }

  /** Nobody ever holds more than the points of the questions armed so far. */
  lemma TotalWithinArmedPoints(s: State, quiz: seq<Question>, p: int)
    requires RowsInv(s, quiz) && s.life.game.Some?
    ensures 0 <= Total(s.ledger.subs, p) <= ArmedPoints(s.life.rows, quiz, |quiz|)
  {
    UpToAll(s.ledger.subs, p, s.life.rows, quiz);
    BoundedUpTo(s.ledger.subs, p, |quiz|, s.life.rows, quiz);
  }

  // ---------------------------------------------------------------------------
  // Every accepted response for one pair tells the same story
  // ---------------------------------------------------------------------------

  /** Which participant and question each request id belongs to. */
  type Binding = string -> (int, nat)

  ghost predicate BoundMove(bind: Binding, m: Move) {
    match m
    case Probe(request, p, k) => bind(request) == (p, k)
    case Submit(a) => bind(a.request) == (a.participant, a.question)
    case _ => true
  }

  ghost predicate Tells(row: Submission, r: Response) {
    row.id == r.submission && row.correct == r.correct && row.score == r.score && row.responseMs == r.responseMs
  }

  /** Some row of that pair says what the response says. */
  ghost predicate Backed(subs: seq<Submission>, p: int, k: nat, r: Response) {
    exists i :: 0 <= i < |subs| && subs[i].participant == p && subs[i].question == k && Tells(subs[i], r)
  }

  ghost predicate RepliesInv(g: Ledger, bind: Binding) {
    && (forall i :: 0 <= i < |g.subs| ==> bind(g.subs[i].request) == (g.subs[i].participant, g.subs[i].question))
    && (forall q :: q in g.cache ==> Backed(g.subs, bind(q).0, bind(q).1, g.cache[q]))
    && (forall r :: r in g.unsent ==>
          bind(r.request) == (r.participant, r.question) && Backed(g.subs, r.participant, r.question, r.response))
    && (forall r :: r in g.ready ==> Backed(g.subs, r.participant, r.question, r.response))
    && (forall i :: 0 <= i < |g.replies| ==>
          Backed(g.subs, g.replies[i].participant, g.replies[i].question, g.replies[i].response))
  }

  lemma BackedSurvives(subs: seq<Submission>, row: Submission, p: int, k: nat, r: Response)
    requires Backed(subs, p, k, r)
    ensures Backed(subs + [row], p, k, r)
  {
    var i :| 0 <= i < |subs| && subs[i].participant == p && subs[i].question == k && Tells(subs[i], r);
    assert (subs + [row])[i] == subs[i];
  }

  lemma InsertKeepsReplies(s: State, quiz: seq<Question>, a: Attempt, bind: Binding)
    requires RepliesInv(s.ledger, bind) && Judge(s, quiz, a).Inserted?
    requires bind(a.request) == (a.participant, a.question)
    ensures RepliesInv(AfterSubmit(s, quiz, a), bind)
  {
    var g, row := s.ledger, NewRow(s, quiz, a);
    forall p, k, r | Backed(g.subs, p, k, r) ensures Backed(g.subs + [row], p, k, r) {
      BackedSurvives(g.subs, row, p, k, r);
    }
  }

  lemma DuplicateKeepsReplies(s: State, quiz: seq<Question>, a: Attempt, bind: Binding)
    requires RepliesInv(s.ledger, bind) && Judge(s, quiz, a).Duplicate?
    requires bind(a.request) == (a.participant, a.question)
    ensures RepliesInv(AfterSubmit(s, quiz, a), bind)
  {
  }

  lemma CreditKeepsReplies(g: Ledger, id: int, rank: Option<nat>, bind: Binding)
    requires RepliesInv(g, bind)
    ensures RepliesInv(AfterCredit(g, id, rank), bind)
  {
  }

  lemma CacheKeepsReplies(g: Ledger, r: Reply, bind: Binding)
    requires RepliesInv(g, bind)
    ensures RepliesInv(AfterCache(g, r), bind)
  {
  }

  lemma SendKeepsReplies(g: Ledger, r: Reply, bind: Binding)
    requires RepliesInv(g, bind)
    ensures RepliesInv(AfterSend(g, r), bind)
  {
  }

  lemma ProbeKeepsReplies(g: Ledger, request: string, p: int, k: nat, bind: Binding)
    requires RepliesInv(g, bind) && bind(request) == (p, k)
    ensures RepliesInv(AfterProbe(g, request, p, k), bind)
  {
  }

  lemma LiveKeepsReplies(s: State, quiz: seq<Question>, e: L.Step, bind: Binding)
    requires RepliesInv(s.ledger, bind)
    ensures RepliesInv(AfterLive(s, quiz, e), bind)
  {
  }

  lemma RepliesStep(s: State, quiz: seq<Question>, m: Move, bind: Binding)
    requires RepliesInv(s.ledger, bind) && BoundMove(bind, m)
    ensures RepliesInv(Apply(s, quiz, m).ledger, bind)
  {
    match m
    case Live(e) => LiveKeepsReplies(s, quiz, e, bind);
    case Join(_) =>
    case Kick(_) =>
    case LoseHook(_) =>
    case Probe(request, p, k) => ProbeKeepsReplies(s.ledger, request, p, k, bind);
    case Submit(a) =>
      if Judge(s, quiz, a).Inserted? { InsertKeepsReplies(s, quiz, a, bind); }
      if Judge(s, quiz, a).Duplicate? { DuplicateKeepsReplies(s, quiz, a, bind); }
    case CreditBoard(id, rank) => CreditKeepsReplies(s.ledger, id, rank, bind);
    case CacheReply(r) => CacheKeepsReplies(s.ledger, r, bind);
    case Send(r) => SendKeepsReplies(s.ledger, r, bind);
    case Expire(_) =>
  }

  ghost predicate BoundRun(bind: Binding, ms: seq<Move>) {
    forall i :: 0 <= i < |ms| ==> BoundMove(bind, ms[i])
  }

  lemma {:induction false} RepliesRun(s: State, quiz: seq<Question>, ms: seq<Move>, bind: Binding)
    requires RepliesInv(s.ledger, bind) && BoundRun(bind, ms)
    ensures RepliesInv(Play(s, quiz, ms).ledger, bind)
    decreases |ms|
  {
    if ms != [] {
      RepliesStep(s, quiz, ms[0], bind);
      RepliesRun(Apply(s, quiz, ms[0]), quiz, ms[1..], bind);
    }
  }

  ghost predicate SameAnswer(a: Response, b: Response) {
    a.submission == b.submission && a.correct == b.correct && a.score == b.score && a.responseMs == b.responseMs
  }

  lemma NoRepliesYet(roster: seq<Member>, bind: Binding)
    ensures RepliesInv(NewMatch(roster).ledger, bind)
  {
  }

  lemma AllBacked(g: Ledger, bind: Binding)
    requires RepliesInv(g, bind)
    ensures forall i :: 0 <= i < |g.replies| ==>
              Backed(g.subs, g.replies[i].participant, g.replies[i].question, g.replies[i].response)
  {
  }

  /** Over any interleaving of concurrent and retried submits whose request ids
      each belong to one participant and question, crashes and cache expiry
      included: any two accepted responses for one pair agree on submission id,
      correctness, score and response time, and describe the single row of that
      pair, announced by a single event. */
  lemma RepliesAgree(roster: seq<Member>, quiz: seq<Question>, ms: seq<Move>, bind: Binding, i: nat, j: nat)
    requires BoundRun(bind, ms)
    requires var g := Play(NewMatch(roster), quiz, ms).ledger;
             && i < |g.replies| && j < |g.replies|
             && g.replies[i].participant == g.replies[j].participant && g.replies[i].question == g.replies[j].question
    ensures var g := Play(NewMatch(roster), quiz, ms).ledger;
            && SameAnswer(g.replies[i].response, g.replies[j].response)
            && AnswerRows(g.outbox) == g.subs && UniqueRows(g.subs)
            && Backed(g.subs, g.replies[i].participant, g.replies[i].question, g.replies[i].response)
  {
    hide Play, RepliesInv;
    var g := Play(NewMatch(roster), quiz, ms).ledger;
    NoRepliesYet(roster, bind);
    NewMatchRows(roster, quiz);
    RowsRun(NewMatch(roster), quiz, ms);
    RepliesRun(NewMatch(roster), quiz, ms, bind);
    AllBacked(g, bind);
    var p, k := g.replies[i].participant, g.replies[i].question;
    var a :| 0 <= a < |g.subs| && g.subs[a].participant == p && g.subs[a].question == k && Tells(g.subs[a], g.replies[i].response);
    var b :| 0 <= b < |g.subs| && g.subs[b].participant == p && g.subs[b].question == k && Tells(g.subs[b], g.replies[j].response);
    assert a == b;
  }

  // ---------------------------------------------------------------------------
  // When an accepted response is of its own pair
  // ---------------------------------------------------------------------------

  ghost predicate Told(subs: seq<Submission>, r: Response) {
    exists i :: 0 <= i < |subs| && Tells(subs[i], r)
  }

  /** Whatever request ids clients choose, every response tells some row. */
  ghost predicate ToldInv(g: Ledger) {
    && (forall q :: q in g.cache ==> Told(g.subs, g.cache[q]))
    && (forall r :: r in g.unsent || r in g.ready ==> Told(g.subs, r.response))
    && (forall i :: 0 <= i < |g.replies| ==> Told(g.subs, g.replies[i].response))
  }

  lemma ToldSubmit(s: State, quiz: seq<Question>, a: Attempt)
    requires ToldInv(s.ledger)
    ensures ToldInv(AfterSubmit(s, quiz, a))
  {
    var g := s.ledger;
    match Judge(s, quiz, a)
    case Refused(_) =>
    case Inserted(row) =>
      forall r | Told(g.subs, r) ensures Told(g.subs + [row], r) {
        var i :| 0 <= i < |g.subs| && Tells(g.subs[i], r);
        assert (g.subs + [row])[i] == g.subs[i];
      }
    case Duplicate(row) => assert Told(g.subs, ResponseFor(row, None));
  }

  lemma ToldCredit(g: Ledger, id: int, rank: Option<nat>)
    requires ToldInv(g)
    ensures ToldInv(AfterCredit(g, id, rank))
  {
    var found := WithId(g.subs, id);
    if found.Some? {
      assert Told(g.subs, ResponseFor(found.value, rank));
    }
  }

  lemma ToldStep(s: State, quiz: seq<Question>, m: Move)
    requires ToldInv(s.ledger)
    ensures ToldInv(Apply(s, quiz, m).ledger)
  {
    hide AfterLive, AfterSubmit, AfterCredit, AfterSend, AfterCache, AfterProbe, L.Next, Told;
    match m
    case Submit(a) => ToldSubmit(s, quiz, a);
    case CreditBoard(id, rank) => ToldCredit(s.ledger, id, rank);
    case Live(e) => ToldLive(s, quiz, e);
    case CacheReply(r) => ToldCache(s.ledger, r);
    case Send(r) => ToldSend(s.ledger, r);
    case Probe(request, p, k) => ToldProbe(s.ledger, request, p, k);
    case _ =>
  }

  lemma ToldLive(s: State, quiz: seq<Question>, e: L.Step)
    requires ToldInv(s.ledger)
    ensures ToldInv(AfterLive(s, quiz, e))
  {
    hide Announced, FinalScores, Told;
  }

  lemma ToldCache(g: Ledger, r: Reply)
    requires ToldInv(g)
    ensures ToldInv(AfterCache(g, r))
  {
  }

  lemma ToldSend(g: Ledger, r: Reply)
    requires ToldInv(g)
    ensures ToldInv(AfterSend(g, r))
  {
  }

  lemma ToldProbe(g: Ledger, request: string, p: int, k: nat)
    requires ToldInv(g)
    ensures ToldInv(AfterProbe(g, request, p, k))
  {
    hide Told;
  }

  lemma {:induction false} ToldRun(s: State, quiz: seq<Question>, ms: seq<Move>)
    requires ToldInv(s.ledger)
    ensures ToldInv(Play(s, quiz, ms).ledger)
    decreases |ms|
  {
    if ms != [] {
      ToldStep(s, quiz, ms[0]);
      ToldRun(Apply(s, quiz, ms[0]), quiz, ms[1..]);
    }
  }

  /** What submit_answer answers: the cached response `hit` that its probe found, and
      otherwise that of the row its transaction inserts or collides with. */
  function Accepted(s: State, quiz: seq<Question>, a: Attempt, hit: Option<Response>): Option<Response> {
    if hit.Some? then hit
    else
      match Judge(s, quiz, a)
      case Refused(_) => None
      case Inserted(row) => Some(ResponseFor(row, None))
      case Duplicate(row) => Some(ResponseFor(row, None))
  }

  /** The rows once it is answered. */
  function RowsThen(s: State, quiz: seq<Question>, a: Attempt, hit: Option<Response>): seq<Submission> {
    if hit.Some? then s.ledger.subs else AfterSubmit(s, quiz, a).subs
  }

  /** The cached response is that of another pair; on a miss, another pair has used the
      request id. */
  ghost predicate Foreign(subs: seq<Submission>, a: Attempt, hit: Option<Response>) {
    exists i :: 0 <= i < |subs| && !(subs[i].participant == a.participant && subs[i].question == a.question)
      && if hit.Some? then subs[i].id == hit.value.submission else subs[i].request == a.request
  }

  /** The binding of request ids is needed, exactly: an accepted response is backed by a
      row of its own participant and question if and only if what its probe found in the
      cache is not another pair's, or, on a miss, no other pair's row carries the request id. */
  lemma AcceptedIsOwnExactly(s: State, quiz: seq<Question>, a: Attempt, hit: Option<Response>)
    requires RowsInv(s, quiz) && (hit.Some? ==> Told(s.ledger.subs, hit.value))
    requires Accepted(s, quiz, a, hit).Some?
    ensures Backed(RowsThen(s, quiz, a, hit), a.participant, a.question, Accepted(s, quiz, a, hit).value)
            <==> !Foreign(s.ledger.subs, a, hit)
  {
    if hit.Some? {
      HitIsOwnExactly(s.ledger.subs, a, hit.value);
    } else if Judge(s, quiz, a).Duplicate? {
      DuplicateIsOwnRowExactly(s, quiz, a);
      RowTellsOnly(s.ledger.subs, Judge(s, quiz, a).existing, a.participant, a.question);
    } else {
      InsertedIsOwn(s, quiz, a);
    }
  }

  lemma HitIsOwnExactly(subs: seq<Submission>, a: Attempt, r: Response)
    requires UniqueRows(subs) && Told(subs, r)
    ensures Backed(subs, a.participant, a.question, r) <==> !Foreign(subs, a, Some(r))
  {
    var k :| 0 <= k < |subs| && Tells(subs[k], r);
    RowTellsOnly(subs, subs[k], a.participant, a.question);
    assert forall i :: 0 <= i < |subs| && subs[i].id == r.submission ==> i == k;
  }

  /** A response that tells a row is backed by the pair of that row and by no other. */
  lemma RowTellsOnly(subs: seq<Submission>, row: Submission, p: int, k: nat)
    requires UniqueRows(subs) && row in subs
    ensures forall r :: Tells(row, r) ==> (Backed(subs, p, k, r) <==> row.participant == p && row.question == k)
  {
    var j :| 0 <= j < |subs| && subs[j] == row;
    forall r | Tells(row, r) ensures Backed(subs, p, k, r) <==> row.participant == p && row.question == k {
      if Backed(subs, p, k, r) {
        var i :| 0 <= i < |subs| && subs[i].participant == p && subs[i].question == k && Tells(subs[i], r);
        assert i == j;
      }
    }
  }

  lemma InsertedIsOwn(s: State, quiz: seq<Question>, a: Attempt)
    requires Judge(s, quiz, a).Inserted?
    ensures Backed(AfterSubmit(s, quiz, a).subs, a.participant, a.question, ResponseFor(Judge(s, quiz, a).row, None))
    ensures !Foreign(s.ledger.subs, a, None)
  {
    var subs' := AfterSubmit(s, quiz, a).subs;
    assert subs'[|subs'| - 1] == Judge(s, quiz, a).row;
  }

  /** A colliding attempt is answered with a row of its own pair if and only if no row of
      another pair carries its request id. */
  lemma DuplicateIsOwnRowExactly(s: State, quiz: seq<Question>, a: Attempt)
    requires RowsInv(s, quiz) && Judge(s, quiz, a).Duplicate?
    ensures var row := Judge(s, quiz, a).existing;
            row.participant == a.participant && row.question == a.question <==>
            !exists i :: 0 <= i < |s.ledger.subs| && s.ledger.subs[i].request == a.request
                         && !(s.ledger.subs[i].participant == a.participant && s.ledger.subs[i].question == a.question)
  {
    var subs, row := s.ledger.subs, Judge(s, quiz, a).existing;
    var byRequest := WithRequest(subs, a.request);
    if byRequest.Some? {
      var k :| 0 <= k < |subs| && subs[k] == byRequest.value;
      assert forall i :: 0 <= i < |subs| && subs[i].request == a.request ==> i == k;
    }
  }

  // ---------------------------------------------------------------------------
  // A run that answers one player with another player's row
  // ---------------------------------------------------------------------------

  lemma {:induction false} PlayAppend(s: State, quiz: seq<Question>, ms: seq<Move>, more: seq<Move>)
    ensures Play(s, quiz, ms + more) == Play(Play(s, quiz, ms), quiz, more)
    decreases |ms|
  {
    if ms == [] {
      assert ms + more == more;
    } else {
      assert (ms + more)[1..] == ms[1..] + more;
      PlayAppend(Apply(s, quiz, ms[0]), quiz, ms[1..], more);
    }
  }

  function LiveMoves(es: seq<L.Step>): seq<Move> {
    if es == [] then [] else [Live(es[0])] + LiveMoves(es[1..])
  }

  /** Timers and host requests alone leave the answers as they were. */
  lemma {:induction false} LivePlay(s: State, quiz: seq<Question>, es: seq<L.Step>)
    ensures var s' := Play(s, quiz, LiveMoves(es));
            && s'.life == L.Run(s.life, Limits(quiz), es)
            && s'.ledger.subs == s.ledger.subs && s'.ledger.roster == s.ledger.roster
            && s'.ledger.cache == s.ledger.cache && s'.ledger.replies == s.ledger.replies
            && s'.ledger.uncredited <= s.ledger.uncredited && (s.ledger.board == map[] ==> s'.ledger.board == map[])
    decreases |es|
  {
    if es != [] {
      assert LiveMoves(es)[1..] == LiveMoves(es[1..]);
      LivePlay(Apply(s, quiz, Live(es[0])), quiz, es[1..]);
    }
  }

  lemma NewMatchRows(roster: seq<Member>, quiz: seq<Question>)
    ensures RowsInv(NewMatch(roster), quiz)
  {
  }

  /** One question of 20 seconds and 100 points, and a room of two. */
  const SAMPLE_QUIZ := [Question(20, 100, {1, 2}, {1})]
  const SAMPLE_ROOM := [Member(7, false), Member(8, false)]

  function Reuse(p: int, id: int): Attempt {
    Attempt("request", p, 1, {1}, id, Fixed, 5_000_000)
  }

  /** The first answer to the open sample question is taken, for full points. */
  lemma SampleAnswer(s: State, p: int, id: int)
    requires RowsInv(s, SAMPLE_QUIZ) && s.ledger.roster == SAMPLE_ROOM && s.ledger.subs == [] && (p == 7 || p == 8)
    requires s.life.game == Some(L.Running) && s.life.rows == [L.QuestionRow(Some(0), Some(20_000_000), None)]
    ensures var v := Judge(s, SAMPLE_QUIZ, Reuse(p, id));
            v.Inserted? && v.row.participant == p && v.row.question == 1 && v.row.request == "request" && v.row.score == 100
  {
    assert SAMPLE_ROOM[p - 7].participant == p;
    InsertedExactly(s, SAMPLE_QUIZ, Reuse(p, id));
  }

  /** A run from the lobby in which player 8, reusing the request id of player 7, is
      accepted with the row of player 7. */
  lemma ReusedRequestReached()
    ensures var opening := LiveMoves([L.Start(0)] + ([L.RunStartHook(0)] + [L.FireArm(1, 0)]));
            var s := Play(NewMatch(SAMPLE_ROOM), SAMPLE_QUIZ, opening + [Submit(Reuse(7, 1))]);
            var v := Judge(s, SAMPLE_QUIZ, Reuse(8, 2));
            v.Duplicate? && v.existing.participant == 7
  {
    hide Play, L.Run, RowsInv, LiveMoves, Judge;
    var es := [L.Start(0)] + ([L.RunStartHook(0)] + [L.FireArm(1, 0)]);
    NewMatchRows(SAMPLE_ROOM, SAMPLE_QUIZ);
    var s0 := Play(NewMatch(SAMPLE_ROOM), SAMPLE_QUIZ, LiveMoves(es));
    assert Limits(SAMPLE_QUIZ) == [20];
    L.OpensFirst();
    LivePlay(NewMatch(SAMPLE_ROOM), SAMPLE_QUIZ, es);
    RowsRun(NewMatch(SAMPLE_ROOM), SAMPLE_QUIZ, LiveMoves(es));
    PlayAppend(NewMatch(SAMPLE_ROOM), SAMPLE_QUIZ, LiveMoves(es), [Submit(Reuse(7, 1))]);
    ReuseAfterAnswer(s0);
  }

  lemma ReuseAfterAnswer(s: State)
    requires RowsInv(s, SAMPLE_QUIZ) && s.ledger.roster == SAMPLE_ROOM && s.ledger.subs == []
    requires s.life.game == Some(L.Running) && s.life.rows == [L.QuestionRow(Some(0), Some(20_000_000), None)]
    ensures var v := Judge(Play(s, SAMPLE_QUIZ, [Submit(Reuse(7, 1))]), SAMPLE_QUIZ, Reuse(8, 2));
            v.Duplicate? && v.existing.participant == 7
  {
    SampleAnswer(s, 7, 1);
    hide Judge;
    var s1 := Apply(s, SAMPLE_QUIZ, Submit(Reuse(7, 1)));
    assert Play(s, SAMPLE_QUIZ, [Submit(Reuse(7, 1))]) == Play(s1, SAMPLE_QUIZ, []);
    ReuseIsDuplicate(s1);
  }

  lemma ReuseIsDuplicate(s: State)
    requires s.ledger.roster == SAMPLE_ROOM && |s.ledger.subs| == 1
    requires s.ledger.subs[0].participant == 7 && s.ledger.subs[0].request == "request"
    requires s.life.game == Some(L.Running) && s.life.rows == [L.QuestionRow(Some(0), Some(20_000_000), None)]
    ensures var v := Judge(s, SAMPLE_QUIZ, Reuse(8, 2)); v.Duplicate? && v.existing.participant == 7
  {
    assert SAMPLE_ROOM[1].participant == 8;
    assert WithRequest(s.ledger.subs, "request") == Some(s.ledger.subs[0]);
  }

  /** Player 7 again, under another request id. */
  const RETRY := Attempt("retry", 7, 1, {1}, 2, Fixed, 5_000_000)
  const RETOLD := Reply("retry", 7, 1, Response(1, true, 100, 5_000, None))

  /** A run from the lobby in which player 8 is accepted with the row of player 7 although
      no row carries the request id: a retry under that id was answered, and cached. */
  lemma CachedForAnotherReached()
    ensures var opening := LiveMoves([L.Start(0)] + ([L.RunStartHook(0)] + [L.FireArm(1, 0)]));
            var answers := [Submit(Reuse(7, 1)), Submit(RETRY), CacheReply(RETOLD), Probe("retry", 8, 1)];
            var g := Play(NewMatch(SAMPLE_ROOM), SAMPLE_QUIZ, opening + answers).ledger;
            && g.replies == [Reply("retry", 8, 1, RETOLD.response)]
            && !Backed(g.subs, 8, 1, RETOLD.response)
            && forall i :: 0 <= i < |g.subs| ==> g.subs[i].request != "retry"
  {
    var es := [L.Start(0)] + ([L.RunStartHook(0)] + [L.FireArm(1, 0)]);
    var answers := [Submit(Reuse(7, 1)), Submit(RETRY), CacheReply(RETOLD), Probe("retry", 8, 1)];
    assert Limits(SAMPLE_QUIZ) == [20];
    hide Play, L.Run, RowsInv, LiveMoves, Judge;
    NewMatchRows(SAMPLE_ROOM, SAMPLE_QUIZ);
    var s0 := Play(NewMatch(SAMPLE_ROOM), SAMPLE_QUIZ, LiveMoves(es));
    L.OpensFirst();
    LivePlay(NewMatch(SAMPLE_ROOM), SAMPLE_QUIZ, es);
    RowsRun(NewMatch(SAMPLE_ROOM), SAMPLE_QUIZ, LiveMoves(es));
    PlayAppend(NewMatch(SAMPLE_ROOM), SAMPLE_QUIZ, LiveMoves(es), answers);
    CachedForAnother(s0);
  }

  /** The state after the first answer. */
  ghost predicate AnsweredBySeven(s: State) {
    && s.life.game == Some(L.Running) && s.life.rows == L.OPENED.rows && s.ledger.roster == SAMPLE_ROOM
    && s.ledger.subs == [Submission(1, 1, 7, {1}, true, 100, 5_000, "request")]
    && s.ledger.cache == map[] && s.ledger.replies == []
  }

  lemma FirstAnswer(s: State)
    requires RowsInv(s, SAMPLE_QUIZ) && s.ledger.roster == SAMPLE_ROOM && s.ledger.subs == []
    requires s.ledger.cache == map[] && s.ledger.replies == []
    requires s.life.game == Some(L.Running) && s.life.rows == L.OPENED.rows
    ensures AnsweredBySeven(Apply(s, SAMPLE_QUIZ, Submit(Reuse(7, 1))))
  {
    SampleAnswer(s, 7, 1);
    InsertedExactly(s, SAMPLE_QUIZ, Reuse(7, 1));
  }

  lemma Retold(s: State)
    requires AnsweredBySeven(s)
    ensures Judge(s, SAMPLE_QUIZ, RETRY) == Duplicate(s.ledger.subs[0])
  {
    assert SAMPLE_ROOM[0].participant == 7;
    assert WithPair(s.ledger.subs, 1, 7) == Some(s.ledger.subs[0]);
    assert WithRequest(s.ledger.subs, "retry").None?;
  }

  lemma CachedForAnother(s: State)
    requires RowsInv(s, SAMPLE_QUIZ) && s.ledger.roster == SAMPLE_ROOM && s.ledger.subs == []
    requires s.ledger.cache == map[] && s.ledger.replies == []
    requires s.life.game == Some(L.Running) && s.life.rows == L.OPENED.rows
    ensures var ms := [Submit(Reuse(7, 1)), Submit(RETRY), CacheReply(RETOLD), Probe("retry", 8, 1)];
            var g := Play(s, SAMPLE_QUIZ, ms).ledger;
            && g.replies == [Reply("retry", 8, 1, RETOLD.response)]
            && !Backed(g.subs, 8, 1, RETOLD.response)
            && forall i :: 0 <= i < |g.subs| ==> g.subs[i].request != "retry"
  {
    var ms := [Submit(Reuse(7, 1)), Submit(RETRY), CacheReply(RETOLD), Probe("retry", 8, 1)];
    FirstAnswer(s);
    var s1 := Apply(s, SAMPLE_QUIZ, ms[0]);
    Retold(s1);
    hide Judge, RowsInv;
    var s2 := Apply(s1, SAMPLE_QUIZ, ms[1]);
    assert RETOLD in s2.ledger.unsent && s2.ledger.subs == s1.ledger.subs && s2.ledger.cache == map[] && s2.ledger.replies == [];
    HitForAnother(s2);
    hide Apply;
    PlayTwo(s, SAMPLE_QUIZ, ms);
    assert ms[2..] == [ms[2], ms[3]];
  }

  lemma HitForAnother(s: State)
    requires RETOLD in s.ledger.unsent && s.ledger.cache == map[] && s.ledger.replies == []
    ensures var s' := Play(s, SAMPLE_QUIZ, [CacheReply(RETOLD), Probe("retry", 8, 1)]);
            s'.ledger.replies == [Reply("retry", 8, 1, RETOLD.response)] && s'.ledger.subs == s.ledger.subs
  {
    PlayTwo(s, SAMPLE_QUIZ, [CacheReply(RETOLD), Probe("retry", 8, 1)]);
  }

  lemma PlayTwo(s: State, quiz: seq<Question>, ms: seq<Move>)
    requires |ms| >= 2
    ensures Play(s, quiz, ms) == Play(Apply(Apply(s, quiz, ms[0]), quiz, ms[1]), quiz, ms[2..])
  {
    hide Apply;
    assert ms[1..][0] == ms[1] && ms[1..][1..] == ms[2..];
  }
}
