/** A whole match: its life plus the answer ledger, the outbox, the Redis
    leaderboard, the idempotency cache and the answer requests in flight
    (backend/app/services/match_service.py, backend/app/cache/idempotency.py).

    submit_answer is five moves: the cache probe, the transaction, the leaderboard
    hook, the write of the idempotency key and the reply. Moves of different requests
    interleave freely, and a transaction may follow a probe that is long out of
    date. */
module MatchModel {
  import opened Common
  import opened Answers
  import opened Leaderboard
  import opened Ranking
  import opened Scoring
  import L = Lifecycle

  datatype Question = Question(limitSeconds: nat, points: nat, options: set<int>, correct: set<int>)

  datatype Member = Member(participant: int, kicked: bool)

  datatype Event =
    | MatchStarted(questions: nat)
    | QuestionStarted(position: nat)
    | QuestionClosed(position: nat)
    | AnswerSubmitted(row: Submission)
    | MatchFinished(finals: seq<FinalScore>)

  datatype Response = Response(submission: int, correct: bool, score: int, responseMs: nat, rank: Option<nat>)

  /** An accepted response and the request it answers. */
  datatype Reply = Reply(request: string, participant: int, question: nat, response: Response)

  datatype Ledger = Ledger(
    roster: seq<Member>,
    subs: seq<Submission>,        // answer_submissions
    outbox: seq<Event>,           // outbox_events of this match
    finals: seq<FinalScore>,      // final_scores
    board: Board,                 // Redis sorted set
    cache: map<string, Response>, // Redis idempotency keys
    uncredited: set<int>,         // committed rows whose ZINCRBY is still to come
    unsent: multiset<Reply>,      // replies about to be cached
    ready: multiset<Reply>,       // replies cached and about to be returned
    replies: seq<Reply>)          // accepted responses seen by clients

  datatype State = State(life: L.Life, ledger: Ledger)

  datatype Attempt = Attempt(request: string, participant: int, question: nat, selected: set<int>,
                             id: int, mode: Mode, at: int)

  datatype Move =
    | Live(step: L.Step)
    | Join(participant: int)
    | Kick(participant: int)
    | Probe(request: string, participant: int, question: nat)
    | Submit(attempt: Attempt)
    | CreditBoard(id: int, rank: Option<nat>)
    | LoseHook(id: int)           // a ZINCRBY that fails, or whose replica dies
    | CacheReply(reply: Reply)
    | Send(reply: Reply)
    | Expire(request: string)

  const DEADLINE_GRACE_US := 200_000

  const NO_ANSWERS := Ledger([], [], [], [], map[], map[], {}, multiset{}, multiset{}, [])

  function NewMatch(roster: seq<Member>): State {
    State(L.NEW_ROOM, NO_ANSWERS.(roster := roster))
  }

  function Limits(quiz: seq<Question>): (r: seq<nat>)
    ensures |r| == |quiz|
  {
    seq(|quiz|, i requires 0 <= i < |quiz| => quiz[i].limitSeconds)
  }

  // ---------------------------------------------------------------------------
  // The submit transaction
  // ---------------------------------------------------------------------------

  datatype Code = ValidationError | QuestionClosedCode | Forbidden | AnswerAlreadySubmitted

  datatype Verdict = Refused(code: Code) | Inserted(row: Submission) | Duplicate(existing: Submission)

  function Find(subs: seq<Submission>, wanted: Submission -> bool): (r: Option<Submission>)
    ensures r.Some? ==> wanted(r.value) && exists i :: 0 <= i < |subs| && subs[i] == r.value
    ensures r.None? ==> forall i :: 0 <= i < |subs| ==> !wanted(subs[i])
  {
    if subs == [] then None
    else if wanted(subs[|subs| - 1]) then Some(subs[|subs| - 1])
    else Find(subs[..|subs| - 1], wanted)
  }

  function WithRequest(subs: seq<Submission>, request: string): Option<Submission> {
    Find(subs, (s: Submission) => s.request == request)
  }

  function WithPair(subs: seq<Submission>, question: nat, participant: int): Option<Submission> {
    Find(subs, (s: Submission) => s.question == question && s.participant == participant)
  }

  function WithId(subs: seq<Submission>, id: int): Option<Submission> {
    Find(subs, (s: Submission) => s.id == id)
  }

  predicate MayPlay(roster: seq<Member>, p: int) {
    exists i :: 0 <= i < |roster| && roster[i].participant == p && !roster[i].kicked
  }

  predicate OnRoster(roster: seq<Member>, p: int) {
    exists i :: 0 <= i < |roster| && roster[i].participant == p
  }

  /** The checks before the insert, in the source's order. */
  function Gate(s: State, quiz: seq<Question>, a: Attempt): Option<Code> {
    if a.request == "" then Some(ValidationError)
    else if !(1 <= a.question <= |s.life.rows| && a.question <= |quiz|) then Some(ValidationError)
    else
      var row := s.life.rows[a.question - 1];
      if s.life.game != Some(L.Running) then Some(QuestionClosedCode)
      else if row.closed.Some? then Some(QuestionClosedCode)
      else if row.deadline.None? || row.started.None? then Some(QuestionClosedCode)
      else if a.at > row.deadline.value + DEADLINE_GRACE_US then Some(QuestionClosedCode)
      else if !MayPlay(s.ledger.roster, a.participant) then Some(Forbidden)
      else if !(a.selected <= quiz[a.question - 1].options) then Some(ValidationError)
      else None
  }

  /** The row the attempt would insert. A window that is not positive scores full
      points, so flooring a negative window differs from truncating it in no case. */
  function NewRow(s: State, quiz: seq<Question>, a: Attempt): Submission
    requires Gate(s, quiz, a).None?
  {
    var row, q := s.life.rows[a.question - 1], quiz[a.question - 1];
    var isCorrect := a.selected == q.correct && q.correct != {};
    var responseMs := AtLeastZero(a.at - row.started.value) / 1000;
    var windowMs := (row.deadline.value - row.started.value) / 1000;
    Submission(a.id, a.question, a.participant, a.selected, isCorrect,
               Score(q.points, responseMs, windowMs, a.mode, isCorrect), responseMs, a.request)
  }

  /** The insert under the primary key and the two unique constraints, with the
      look-up that follows a collision: by request id first, then by pair. */
  function Judge(s: State, quiz: seq<Question>, a: Attempt): Verdict {
    var gate := Gate(s, quiz, a);
    if gate.Some? then Refused(gate.value)
    else
      var subs := s.ledger.subs;
      var byRequest := WithRequest(subs, a.request);
      var byPair := WithPair(subs, a.question, a.participant);
      if byRequest.None? && byPair.None? && WithId(subs, a.id).None? then Inserted(NewRow(s, quiz, a))
      else if byRequest.Some? then Duplicate(byRequest.value)
      else if byPair.Some? then Duplicate(byPair.value)
      else Refused(AnswerAlreadySubmitted)
  }

  function ResponseFor(row: Submission, rank: Option<nat>): Response {
    Response(row.id, row.correct, row.score, row.responseMs, rank)
  }

  function AfterSubmit(s: State, quiz: seq<Question>, a: Attempt): Ledger {
    var g := s.ledger;
    match Judge(s, quiz, a)
    case Refused(_) => g
    case Inserted(row) =>
      g.(subs := g.subs + [row], outbox := g.outbox + [AnswerSubmitted(row)], uncredited := g.uncredited + {row.id})
    case Duplicate(row) =>
      g.(unsent := g.unsent + multiset{Reply(a.request, a.participant, a.question, ResponseFor(row, None))})
  }

  /** The leaderboard hook of a genuine insert. */
  function AfterCredit(g: Ledger, id: int, rank: Option<nat>): Ledger {
    var found := WithId(g.subs, id);
    if id !in g.uncredited || found.None? then g
    else
      var row := found.value;
      g.(board := Increment(g.board, row.participant, row.score),
         uncredited := g.uncredited - {id},
         unsent := g.unsent + multiset{Reply(row.request, row.participant, row.question, ResponseFor(row, rank))})
  }

  /** `SET NX` on the idempotency key. */
  function AfterCache(g: Ledger, r: Reply): Ledger {
    if r !in g.unsent then g
    else
      g.(unsent := g.unsent - multiset{r}, ready := g.ready + multiset{r},
         cache := if r.request in g.cache then g.cache else g.cache[r.request := r.response])
  }

  /** The response reaches the client; one that is lost in transit is never sent. */
  function AfterSend(g: Ledger, r: Reply): Ledger {
    if r !in g.ready then g else g.(ready := g.ready - multiset{r}, replies := g.replies + [r])
  }

  function AfterProbe(g: Ledger, request: string, p: int, k: nat): Ledger {
    if request in g.cache then g.(replies := g.replies + [Reply(request, p, k, g.cache[request])]) else g
  }

  // ---------------------------------------------------------------------------
  // The rest of the machine
  // ---------------------------------------------------------------------------

  function ActiveIds(roster: seq<Member>): seq<int> {
    if roster == [] then []
    else
      var m := roster[|roster| - 1];
      ActiveIds(roster[..|roster| - 1]) + if m.kicked then [] else [m.participant]
  }

  /** join_room checks the lobby status without a lock, so a join may commit at any time. */
  function JoinIn(roster: seq<Member>, p: int): seq<Member> {
    if OnRoster(roster, p) then roster else roster + [Member(p, false)]
  }

  function KickIn(roster: seq<Member>, p: int): seq<Member> {
    seq(|roster|, i requires 0 <= i < |roster| =>
      if roster[i].participant == p then roster[i].(kicked := true) else roster[i])
  }

  /** Does this step complete the match? */
  predicate Ends(l: L.Life, e: L.Step) {
    (e.EndMatch? && L.EndTakes(l)) || (e.FireFinish? && L.FinishTakes(l, e.registered))
  }

  function FinalScores(g: Ledger): seq<FinalScore> {
    FinalList(g.subs, ActiveIds(g.roster))
  }

  /** The outbox event a step of the match's life registers. */
  function Announced(s: State, quiz: seq<Question>, e: L.Step): (r: Option<Event>)
    ensures r.Some? ==> !r.value.AnswerSubmitted?
    ensures r.Some? && r.value.MatchFinished? <==> Ends(s.life, e)
  {
    if Ends(s.life, e) then Some(MatchFinished(FinalScores(s.ledger)))
    else if e.Start? && L.StartTakes(s.life, Limits(quiz)) then Some(MatchStarted(|quiz|))
    else if e.FireArm? && L.ArmTakes(s.life, e.position) then Some(QuestionStarted(e.position))
    else if e.FireClose? && L.CloseTakes(s.life, e.position, e.registered) then Some(QuestionClosed(e.position))
    else None
  }

  predicate Resets(l: L.Life, e: L.Step) {
    e.RunStartHook? && L.StartHook in l.tasks
  }

  /** A crash forgets the requests in flight; their rows stay. */
  function AfterLive(s: State, quiz: seq<Question>, e: L.Step): Ledger {
    var g, event := s.ledger, Announced(s, quiz, e);
    g.(outbox := if event.Some? then g.outbox + [event.value] else g.outbox,
       finals := if Ends(s.life, e) then FinalScores(g) else g.finals,
       board := if Resets(s.life, e) then map[] else g.board,
       uncredited := if e.Crash? then {} else g.uncredited,
       unsent := if e.Crash? then multiset{} else g.unsent,
       ready := if e.Crash? then multiset{} else g.ready)
  }

  function Apply(s: State, quiz: seq<Question>, m: Move): State {
    match m
    case Live(e) => State(L.Next(s.life, Limits(quiz), e), AfterLive(s, quiz, e))
    case Join(p) => s.(ledger := s.ledger.(roster := JoinIn(s.ledger.roster, p)))
    case Kick(p) => s.(ledger := s.ledger.(roster := KickIn(s.ledger.roster, p)))
    case Probe(request, p, k) => s.(ledger := AfterProbe(s.ledger, request, p, k))
    case Submit(a) => s.(ledger := AfterSubmit(s, quiz, a))
    case CreditBoard(id, rank) => s.(ledger := AfterCredit(s.ledger, id, rank))
    case LoseHook(id) => s.(ledger := s.ledger.(uncredited := s.ledger.uncredited - {id}))
    case CacheReply(r) => s.(ledger := AfterCache(s.ledger, r))
    case Send(r) => s.(ledger := AfterSend(s.ledger, r))
    case Expire(request) => s.(ledger := s.ledger.(cache := s.ledger.cache - {request}))
  }

  function Play(s: State, quiz: seq<Question>, ms: seq<Move>): State
    decreases |ms|
  {
    if ms == [] then s else Play(Apply(s, quiz, ms[0]), quiz, ms[1..])
  }
}
