/** Where a cached response comes from: the history of a request id
    (backend/app/services/match_service.py, backend/app/cache/idempotency.py). */
module MatchHistory {
  import opened Common
  import opened Answers
  import opened Leaderboard
  import opened MatchModel
  import opened MatchLedger
  import L = Lifecycle

  /** The attempt is accepted with a row of its own pair, inserted now or found. */
  ghost predicate AcceptsOwn(s: State, quiz: seq<Question>, a: Attempt, id: int) {
    var v := Judge(s, quiz, a);
    || (v.Inserted? && v.row.id == id)
    || (v.Duplicate? && v.existing.id == id && v.existing.participant == a.participant && v.existing.question == a.question)
  }

  /** At some moment of the run the pair (p, k) was accepted under this request id with
      its own row `id`. */
  ghost predicate AcceptedOnce(s: State, quiz: seq<Question>, ms: seq<Move>, request: string, id: int, p: int, k: nat) {
    exists i :: 0 <= i < |ms| && AcceptedAt(s, quiz, ms, i, request, id, p, k)
  }

  ghost predicate AcceptedAt(s: State, quiz: seq<Question>, ms: seq<Move>, i: nat, request: string, id: int, p: int, k: nat)
    requires i < |ms|
  {
    && ms[i].Submit? && ms[i].attempt.request == request
    && ms[i].attempt.participant == p && ms[i].attempt.question == k
    && AcceptsOwn(Play(s, quiz, ms[..i]), quiz, ms[i].attempt, id)
  }

  /** Its reply was then written under the request id. */
  ghost predicate CachedOnce(ms: seq<Move>, request: string, response: Response) {
    exists i :: 0 <= i < |ms| && ms[i].CacheReply? && ms[i].reply.request == request && ms[i].reply.response == response
  }

  /** Row `id` is there, and its pair was accepted with it under this request id. */
  ghost predicate Grounded(s: State, quiz: seq<Question>, ms: seq<Move>, subs: seq<Submission>, request: string, id: int) {
    exists j :: 0 <= j < |subs| && subs[j].id == id
      && AcceptedOnce(s, quiz, ms, request, id, subs[j].participant, subs[j].question)
  }

  type Past = (string, int) -> bool
  type Writes = (string, Response) -> bool

  /** Every row, reply and cached response goes back to an acceptance in the past. */
  ghost predicate Explained(g: Ledger, past: Past, writes: Writes) {
    && (forall j :: 0 <= j < |g.subs| ==> past(g.subs[j].request, g.subs[j].id))
    && (forall r :: r in g.unsent ==> past(r.request, r.response.submission))
    && (forall r :: r in g.ready ==> past(r.request, r.response.submission))
    && (forall q :: q in g.cache ==> past(q, g.cache[q].submission) && writes(q, g.cache[q]))
  }

  ghost function PastOf(s: State, quiz: seq<Question>, ms: seq<Move>): Past {
    (request, id) => Grounded(s, quiz, ms, Play(s, quiz, ms).ledger.subs, request, id)
  }

  ghost function WritesOf(ms: seq<Move>): Writes {
    (request, response) => CachedOnce(ms, request, response)
  }

  ghost predicate HistoryInv(s: State, quiz: seq<Question>, ms: seq<Move>) {
    Explained(Play(s, quiz, ms).ledger, PastOf(s, quiz, ms), WritesOf(ms))
  }

  /** What the next move may rely on, and what it must have added to the past itself. */
  ghost predicate Extends(s: State, quiz: seq<Question>, m: Move, past: Past, writes: Writes, past': Past, writes': Writes) {
    && (forall request, id :: past(request, id) ==> past'(request, id))
    && (forall request, r :: writes(request, r) ==> writes'(request, r))
    && (m.Submit? ==> forall id :: AcceptsOwn(s, quiz, m.attempt, id) ==> past'(m.attempt.request, id))
    && (m.CacheReply? ==> writes'(m.reply.request, m.reply.response))
  }

  lemma ExplainedSubmit(s: State, quiz: seq<Question>, a: Attempt, past: Past, writes: Writes, past': Past, writes': Writes)
    requires Explained(s.ledger, past, writes) && Extends(s, quiz, Submit(a), past, writes, past', writes')
    ensures Explained(AfterSubmit(s, quiz, a), past', writes')
  {
    var g := s.ledger;
    match Judge(s, quiz, a)
    case Refused(_) =>
    case Inserted(row) =>
      assert AcceptsOwn(s, quiz, a, row.id) && row.request == a.request;
    case Duplicate(row) =>
      FoundRow(s, quiz, a);
      assert row.request == a.request || AcceptsOwn(s, quiz, a, row.id);
      assert past'(a.request, row.id);
  }

  /** A collision is with a row under the same request id, or of the same pair. */
  lemma FoundRow(s: State, quiz: seq<Question>, a: Attempt)
    requires Judge(s, quiz, a).Duplicate?
    ensures var row := Judge(s, quiz, a).existing;
            && (exists j :: 0 <= j < |s.ledger.subs| && s.ledger.subs[j] == row)
            && (row.request == a.request || (row.participant == a.participant && row.question == a.question))
  {
  }

  lemma ExplainedCredit(g: Ledger, id: int, rank: Option<nat>, past: Past, writes: Writes)
    requires Explained(g, past, writes)
    ensures Explained(AfterCredit(g, id, rank), past, writes)
  {
  }

  lemma ExplainedCache(g: Ledger, r: Reply, past: Past, writes: Writes)
    requires Explained(g, past, writes) && writes(r.request, r.response)
    ensures Explained(AfterCache(g, r), past, writes)
  {
  }

  lemma ExplainedSend(g: Ledger, r: Reply, past: Past, writes: Writes)
    requires Explained(g, past, writes)
    ensures Explained(AfterSend(g, r), past, writes)
  {
  }

  lemma ExplainedLive(s: State, quiz: seq<Question>, e: L.Step, past: Past, writes: Writes)
    requires Explained(s.ledger, past, writes)
    ensures Explained(AfterLive(s, quiz, e), past, writes)
  {
    hide Announced, FinalScores;
  }

  lemma ExplainedMore(g: Ledger, past: Past, writes: Writes, past': Past, writes': Writes)
    requires Explained(g, past, writes)
    requires forall request, id :: past(request, id) ==> past'(request, id)
    requires forall request, r :: writes(request, r) ==> writes'(request, r)
    ensures Explained(g, past', writes')
  {
  }

  lemma ExplainedOther(s: State, quiz: seq<Question>, m: Move, past: Past, writes: Writes)
    requires Explained(s.ledger, past, writes) && (m.Join? || m.Kick? || m.Probe? || m.LoseHook? || m.Expire?)
    ensures Explained(Apply(s, quiz, m).ledger, past, writes)
  {
  }

  lemma ExplainedStep(s: State, quiz: seq<Question>, m: Move, past: Past, writes: Writes, past': Past, writes': Writes)
    requires Explained(s.ledger, past, writes) && Extends(s, quiz, m, past, writes, past', writes')
    ensures Explained(Apply(s, quiz, m).ledger, past', writes')
  {
    hide Explained, AfterLive, AfterSubmit, AfterCredit, AfterCache, AfterSend, AfterProbe, L.Next;
    ExplainedMore(s.ledger, past, writes, past', writes');
    match m
    case Live(e) => ExplainedLive(s, quiz, e, past', writes');
    case Submit(a) => ExplainedSubmit(s, quiz, a, past, writes, past', writes');
    case CreditBoard(id, rank) => ExplainedCredit(s.ledger, id, rank, past', writes');
    case CacheReply(r) => ExplainedCache(s.ledger, r, past', writes');
    case Send(r) => ExplainedSend(s.ledger, r, past', writes');
    case _ => ExplainedOther(s, quiz, m, past', writes');
  }

  /** A longer run has the same past. */
  lemma PastStays(s: State, quiz: seq<Question>, ms: seq<Move>, m: Move, subs: seq<Submission>, more: seq<Submission>)
    ensures forall request, id :: Grounded(s, quiz, ms, subs, request, id) ==> Grounded(s, quiz, ms + [m], subs + more, request, id)
    ensures forall request, r :: CachedOnce(ms, request, r) ==> CachedOnce(ms + [m], request, r)
  {
    var all, rows := ms + [m], subs + more;
    forall request, id | Grounded(s, quiz, ms, subs, request, id) ensures Grounded(s, quiz, all, rows, request, id) {
      var j :| 0 <= j < |subs| && subs[j].id == id
               && AcceptedOnce(s, quiz, ms, request, id, subs[j].participant, subs[j].question);
      var i :| 0 <= i < |ms| && AcceptedAt(s, quiz, ms, i, request, id, subs[j].participant, subs[j].question);
      assert all[..i] == ms[..i];
      assert AcceptedAt(s, quiz, all, i, request, id, subs[j].participant, subs[j].question);
      assert rows[j] == subs[j];
    }
    forall request, r | CachedOnce(ms, request, r) ensures CachedOnce(all, request, r) {
      var i :| 0 <= i < |ms| && ms[i].CacheReply? && ms[i].reply.request == request && ms[i].reply.response == r;
      assert all[i] == ms[i];
    }
  }

  /** The attempt that ends the run is part of its past. */
  lemma NowAccepted(s: State, quiz: seq<Question>, ms: seq<Move>, a: Attempt, id: int)
    requires AcceptsOwn(Play(s, quiz, ms), quiz, a, id)
    ensures AcceptedOnce(s, quiz, ms + [Submit(a)], a.request, id, a.participant, a.question)
  {
    var all := ms + [Submit(a)];
    assert all[..|ms|] == ms;
    assert AcceptedAt(s, quiz, all, |ms|, a.request, id, a.participant, a.question);
  }

  lemma PlaySnoc(s: State, quiz: seq<Question>, ms: seq<Move>, m: Move)
    ensures Play(s, quiz, ms + [m]) == Apply(Play(s, quiz, ms), quiz, m)
  {
    PlayAppend(s, quiz, ms, [m]);
    hide Apply;
    var end := Play(s, quiz, ms);
    assert Play(end, quiz, [m]) == Play(Apply(end, quiz, m), quiz, []);
  }

  /** Rows stay, at their places. */
  lemma RowsStay(s: State, quiz: seq<Question>, m: Move)
    ensures s.ledger.subs <= Apply(s, quiz, m).ledger.subs
  {
  }

  lemma {:induction false} RowsStayRun(s: State, quiz: seq<Question>, ms: seq<Move>)
    ensures s.ledger.subs <= Play(s, quiz, ms).ledger.subs
    decreases |ms|
  {
    hide Apply;
    if ms != [] {
      RowsStay(s, quiz, ms[0]);
      RowsStayRun(Apply(s, quiz, ms[0]), quiz, ms[1..]);
    }
  }

  /** An attempt accepted with its own row leaves that row. */
  lemma OwnRowIsThere(s: State, quiz: seq<Question>, a: Attempt, id: int)
    requires AcceptsOwn(s, quiz, a, id)
    ensures exists j :: 0 <= j < |AfterSubmit(s, quiz, a).subs| && IsRow(AfterSubmit(s, quiz, a).subs[j], id, a.participant, a.question)
  {
    var subs' := AfterSubmit(s, quiz, a).subs;
    if Judge(s, quiz, a).Inserted? {
      assert IsRow(subs'[|subs'| - 1], id, a.participant, a.question);
    } else {
      FoundRow(s, quiz, a);
      var j :| 0 <= j < |s.ledger.subs| && s.ledger.subs[j] == Judge(s, quiz, a).existing;
      assert IsRow(subs'[j], id, a.participant, a.question);
    }
  }

  ghost predicate IsRow(row: Submission, id: int, p: int, k: nat) {
    row.id == id && row.participant == p && row.question == k
  }

  lemma HistoryStep(s: State, quiz: seq<Question>, ms: seq<Move>, m: Move)
    requires HistoryInv(s, quiz, ms)
    ensures HistoryInv(s, quiz, ms + [m])
  {
    var now := Play(s, quiz, ms);
    var next := Apply(now, quiz, m);
    var past, past', writes, writes' := PastOf(s, quiz, ms), PastOf(s, quiz, ms + [m]), WritesOf(ms), WritesOf(ms + [m]);
    PlaySnoc(s, quiz, ms, m);
    RowsStay(now, quiz, m);
    hide Play, Apply, Explained, Judge, AcceptsOwn, Grounded, CachedOnce;
    PastStays(s, quiz, ms, m, now.ledger.subs, next.ledger.subs[|now.ledger.subs|..]);
    assert now.ledger.subs + next.ledger.subs[|now.ledger.subs|..] == next.ledger.subs;
    if m.Submit? {
      forall id | AcceptsOwn(now, quiz, m.attempt, id) ensures past'(m.attempt.request, id) {
        NowGrounded(s, quiz, ms, m.attempt, id);
      }
    }
    if m.CacheReply? {
      NowCached(ms, m);
    }
    ExplainedStep(now, quiz, m, past, writes, past', writes');
  }

  lemma NowCached(ms: seq<Move>, m: Move)
    requires m.CacheReply?
    ensures CachedOnce(ms + [m], m.reply.request, m.reply.response)
  {
    assert (ms + [m])[|ms|] == m;
  }

  lemma NowGrounded(s: State, quiz: seq<Question>, ms: seq<Move>, a: Attempt, id: int)
    requires AcceptsOwn(Play(s, quiz, ms), quiz, a, id)
    ensures Grounded(s, quiz, ms + [Submit(a)], Apply(Play(s, quiz, ms), quiz, Submit(a)).ledger.subs, a.request, id)
  {
    NowAccepted(s, quiz, ms, a, id);
    OwnRowIsThere(Play(s, quiz, ms), quiz, a, id);
  }

  lemma {:induction false} HistoryRun(roster: seq<Member>, quiz: seq<Question>, ms: seq<Move>)
    ensures HistoryInv(NewMatch(roster), quiz, ms)
    decreases |ms|
  {
    if ms != [] {
      var n := |ms| - 1;
      HistoryRun(roster, quiz, ms[..n]);
      HistoryStep(NewMatch(roster), quiz, ms[..n], ms[n]);
      assert ms[..n] + [ms[n]] == ms;
    }
  }

  lemma RowSince(s: State, quiz: seq<Question>, a: Attempt, id: int, after: seq<Move>)
    requires AcceptsOwn(s, quiz, a, id)
    ensures HasRow(Play(Apply(s, quiz, Submit(a)), quiz, after).ledger.subs, id, a.participant, a.question)
  {
    OwnRowIsThere(s, quiz, a, id);
    var now := Apply(s, quiz, Submit(a));
    hide Play, Judge, AcceptsOwn, Apply, AfterSubmit;
    RowsStayRun(now, quiz, after);
    assert now.ledger.subs == AfterSubmit(s, quiz, a).subs by { SubmitRows(s, quiz, a); }
    var j :| 0 <= j < |now.ledger.subs| && IsRow(now.ledger.subs[j], id, a.participant, a.question);
    assert Play(now, quiz, after).ledger.subs[j] == now.ledger.subs[j];
  }

  lemma SubmitRows(s: State, quiz: seq<Question>, a: Attempt)
    ensures Apply(s, quiz, Submit(a)).ledger == AfterSubmit(s, quiz, a)
  {
  }

  ghost predicate HasRow(subs: seq<Submission>, id: int, p: int, k: nat) {
    exists j :: 0 <= j < |subs| && IsRow(subs[j], id, p, k)
  }

  /** Whoever was accepted with row `id` at some moment still has that row. */
  lemma AcceptedHasRow(s: State, quiz: seq<Question>, ms: seq<Move>, request: string, id: int, p: int, k: nat)
    requires AcceptedOnce(s, quiz, ms, request, id, p, k)
    ensures HasRow(Play(s, quiz, ms).ledger.subs, id, p, k)
  {
    hide AcceptsOwn, Play, Apply, HasRow;
    var i :| 0 <= i < |ms| && AcceptedAt(s, quiz, ms, i, request, id, p, k);
    PlaySnoc(s, quiz, ms[..i], ms[i]);
    PlayAppend(s, quiz, ms[..i] + [ms[i]], ms[i + 1..]);
    assert ms[..i] + [ms[i]] + ms[i + 1..] == ms;
    assert ms[i] == Submit(ms[i].attempt);
    RowSince(Play(s, quiz, ms[..i]), quiz, ms[i].attempt, id, ms[i + 1..]);
  }

  /** What the past says of a request id that is cached. */
  lemma CachedIsExplained(s: State, quiz: seq<Question>, ms: seq<Move>, request: string)
    requires HistoryInv(s, quiz, ms) && request in Play(s, quiz, ms).ledger.cache
    ensures var g := Play(s, quiz, ms).ledger;
            Grounded(s, quiz, ms, g.subs, request, g.cache[request].submission) && CachedOnce(ms, request, g.cache[request])
  {
  }

  lemma OneRowPerId(subs: seq<Submission>, row: Submission, p: int, k: nat)
    requires UniqueRows(subs) && row in subs && HasRow(subs, row.id, p, k)
    ensures row.participant == p && row.question == k
  {
  }

  /** When the cache answers a participant with somebody else's row, as a matter of
      history: if and only if under this request id another pair was accepted with its own
      row, and its response is the one that was written to the cache. */
  lemma HitIsForeignExactly(roster: seq<Member>, quiz: seq<Question>, ms: seq<Move>, request: string, p: int, k: nat)
    requires request in Play(NewMatch(roster), quiz, ms).ledger.cache
    ensures var s, g := NewMatch(roster), Play(NewMatch(roster), quiz, ms).ledger;
            var hit := g.cache[request];
            && CachedOnce(ms, request, hit)
            && (!Backed(g.subs, p, k, hit) <==>
                exists p', k' :: !(p' == p && k' == k) && AcceptedOnce(s, quiz, ms, request, hit.submission, p', k'))
  {
    var s := NewMatch(roster);
    var g := Play(s, quiz, ms).ledger;
    var hit := g.cache[request];
    HistoryRun(roster, quiz, ms);
    ToldRun(s, quiz, ms);
    NewMatchRows(roster, quiz);
    RowsRun(s, quiz, ms);
    CachedIsExplained(s, quiz, ms, request);
    assert Told(g.subs, hit) && UniqueRows(g.subs);
    hide Play, AcceptedOnce, HistoryInv, ToldInv, RowsInv, HasRow, Backed, UniqueRows;
    var n :| 0 <= n < |g.subs| && g.subs[n].id == hit.submission
             && AcceptedOnce(s, quiz, ms, request, hit.submission, g.subs[n].participant, g.subs[n].question);
    ToldById(g.subs, hit, n);
    RowTellsOnly(g.subs, g.subs[n], p, k);
    forall p', k' | AcceptedOnce(s, quiz, ms, request, hit.submission, p', k')
      ensures p' == g.subs[n].participant && k' == g.subs[n].question
    {
      AcceptedHasRow(s, quiz, ms, request, hit.submission, p', k');
      OneRowPerId(g.subs, g.subs[n], p', k');
    }
  }

  lemma ToldById(subs: seq<Submission>, r: Response, n: nat)
    requires UniqueRows(subs) && Told(subs, r) && n < |subs| && subs[n].id == r.submission
    ensures Tells(subs[n], r)
  {
    var j :| 0 <= j < |subs| && Tells(subs[j], r);
    assert j == n;
  }
}
