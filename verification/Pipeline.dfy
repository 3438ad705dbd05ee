/** End to end: from the answers a match commits, through the outbox and the broker,
    to the analytics fact table (backend/app/services/match_service.py,
    workers/outbox_publisher/app/main.py, workers/stream_worker/app/main.py). */
module Pipeline {
  import opened Common
  import opened Answers
  import opened MatchModel
  import opened MatchLedger
  import opened MatchBoard
  import L = Lifecycle
  import O = Outbox
  import S = StreamWorker

  // ---------------------------------------------------------------------------
  // What the broker delivers
  // ---------------------------------------------------------------------------

  function KindOf(eventType: string): S.Kind {
    if eventType == "AnswerSubmitted" then S.AnswerSubmitted
    else if eventType == "MatchFinished" then S.MatchFinished
    else S.OtherEvent
  }

  /** The three kinds that the consumer tells apart. */
  lemma KindsExactly(eventType: string)
    ensures KindOf(eventType) == S.AnswerSubmitted <==> eventType == "AnswerSubmitted"
    ensures KindOf(eventType) == S.MatchFinished <==> eventType == "MatchFinished"
  {
  }

  function EnvelopeOf(id: int, event: O.Event): S.Envelope {
    S.Envelope(id, KindOf(event.eventType), event.payload)
  }

  /** The consumer subscribes to every topic but the dead-letter one. */
  predicate Consumed(r: O.Record) {
    r.topic != O.DeadLetter
  }

  ghost predicate OnTopic(log: seq<O.Record>, env: S.Envelope) {
    exists j :: 0 <= j < |log| && Consumed(log[j]) && env == EnvelopeOf(log[j].eventId, log[j].event)
  }

  ghost predicate Delivered(steps: seq<S.Step>, env: S.Envelope) {
    exists i :: 0 <= i < |steps| && steps[i].Claim? && steps[i].msg == S.Readable(env) && steps[i].reply.Recorded()
  }

  /** Whatever is delivered is on a topic, and whatever is on a topic is delivered at
      least once with its claim reaching Redis. Order and repeats are arbitrary. */
  ghost predicate AtLeastOnce(log: seq<O.Record>, steps: seq<S.Step>) {
    && (forall i :: 0 <= i < |steps| && steps[i].Claim? ==> steps[i].msg.Readable? && OnTopic(log, steps[i].msg.env))
    && (forall env :: OnTopic(log, env) ==> Delivered(steps, env))
  }

  /** An event id stands for one event. */
  ghost predicate OneEventPerId(steps: seq<S.Step>) {
    forall a, b :: Delivered(steps, a) && Delivered(steps, b) && a.eventId == b.eventId ==> a == b
  }

  lemma OneEventTail(steps: seq<S.Step>)
    requires steps != [] && OneEventPerId(steps)
    ensures OneEventPerId(steps[1..])
  {
  }

  ghost predicate IsFresh(seen: set<int>, steps: seq<S.Step>, env: S.Envelope) {
    env.eventId !in seen && Delivered(steps, env)
  }

  /** Claiming the first delivery removes exactly its own event from those to come. */
  lemma FreshTail(seen: set<int>, steps: seq<S.Step>, env: S.Envelope)
    requires steps != [] && OneEventPerId(steps)
    ensures S.Records(seen, steps[0]) ==>
              (IsFresh(seen, steps, env) <==>
               env == steps[0].msg.env || IsFresh(seen + {steps[0].msg.env.eventId}, steps[1..], env))
    ensures !S.Records(seen, steps[0]) ==> (IsFresh(seen, steps, env) <==> IsFresh(seen, steps[1..], env))
  {
  }

  /** The rows of the first deliveries are the rows of the events delivered. */
  lemma {:induction false} WantedRaw(seen: set<int>, steps: seq<S.Step>, env: S.Envelope)
    requires OneEventPerId(steps)
    ensures S.RawRow(env) in S.Wanted(seen, steps).raw <==> IsFresh(seen, steps, env)
    decreases |steps|
  {
    if steps != [] {
      OneEventTail(steps);
      FreshTail(seen, steps, env);
      if S.Records(seen, steps[0]) {
        WantedRaw(seen + {steps[0].msg.env.eventId}, steps[1..], env);
      } else {
        WantedRaw(seen, steps[1..], env);
      }
    }
  }

  lemma {:induction false} WantedFact(seen: set<int>, steps: seq<S.Step>, row: S.Row)
    requires OneEventPerId(steps)
    ensures row in S.Wanted(seen, steps).fact <==> exists env :: IsFresh(seen, steps, env) && row in S.RowsOf(env).fact
    decreases |steps|
  {
    if steps != [] {
      OneEventTail(steps);
      forall env {
        FreshTail(seen, steps, env);
      }
      if S.Records(seen, steps[0]) {
        var first := steps[0].msg.env;
        WantedFact(seen + {first.eventId}, steps[1..], row);
        assert IsFresh(seen, steps, first);
      } else {
        WantedFact(seen, steps[1..], row);
      }
    }
  }

  // ---------------------------------------------------------------------------
  // Every event arrives once
  // ---------------------------------------------------------------------------

  lemma LogHasOneEventPerId(o: O.State, steps: seq<S.Step>)
    requires O.Inv(o) && AtLeastOnce(o.log, steps)
    ensures OneEventPerId(steps)
  {
  }

  lemma DeliveredIsOnTopic(o: O.State, steps: seq<S.Step>, env: S.Envelope)
    requires AtLeastOnce(o.log, steps)
    ensures Delivered(steps, env) <==> OnTopic(o.log, env)
  {
  }

  /** For any run of the publisher, with its retries, rollbacks and duplicates, and any
      delivery of what it left on the topics, at least once and in any order: if the
      consumer loses nothing, it holds each of those events exactly once and nothing
      else, in the tables themselves once nothing is buffered or in hand. */
  lemma EventsArriveOnce(published: seq<O.Step>, batch: nat, steps: seq<S.Step>, ok: S.Oracle)
    requires AtLeastOnce(O.Run(O.EMPTY, published).log, steps) && S.Intact(S.START, batch, steps, ok)
    ensures var log, held := O.Run(O.EMPTY, published).log, S.HeldBy(S.Run(S.START, batch, steps, ok));
            && NoDuplicates(held.raw) && NoDuplicates(held.fact)
            && (forall env :: S.RawRow(env) in held.raw <==> OnTopic(log, env))
            && (forall row :: row in held.fact <==> exists env :: OnTopic(log, env) && row in S.RowsOf(env).fact)
            && (S.Settled(S.Run(S.START, batch, steps, ok)) ==> S.Run(S.START, batch, steps, ok).client.db == held)
  {
    hide O.Run, S.Run, S.Wanted, S.Intact, S.RowsOf;
    var o := O.Run(O.EMPTY, published);
    O.InvRun(O.EMPTY, published);
    LogHasOneEventPerId(o, steps);
    S.ExactlyOnceExactly(batch, steps, ok);
    S.AtMostOnce(batch, steps, ok);
    forall env ensures IsFresh({}, steps, env) <==> OnTopic(o.log, env) {
      DeliveredIsOnTopic(o, steps, env);
    }
    forall env ensures S.RawRow(env) in S.Wanted({}, steps).raw <==> OnTopic(o.log, env) {
      WantedRaw({}, steps, env);
    }
    forall row ensures row in S.Wanted({}, steps).fact <==> exists env :: OnTopic(o.log, env) && row in S.RowsOf(env).fact {
      WantedFact({}, steps, row);
    }
  }

  // ---------------------------------------------------------------------------
  // Analytics agree with the ledger
  // ---------------------------------------------------------------------------

  /** Ids outside the match model: the match, its room, the question at each position,
      and the event registered for each submission. */
  datatype Ids = Ids(matchId: int, roomId: int, question: nat -> int, event: int -> int)

  function PayloadOf(ids: Ids, s: Submission): S.Payload {
    S.Payload(Some(ids.matchId), Some(ids.roomId), Some(s.participant), Some(ids.question(s.question)),
              s.correct, s.score, s.responseMs)
  }

  function FactOf(ids: Ids, s: Submission): S.Row {
    S.FactRow(ids.event(s.id), ids.matchId, ids.roomId, s.participant, ids.question(s.question),
              s.correct, s.score, s.responseMs)
  }

  /** The outbox table holds one AnswerSubmitted row for each committed answer. */
  ghost predicate Registered(t: O.Table, subs: seq<Submission>, ids: Ids) {
    && (forall i :: 0 <= i < |subs| ==>
          && ids.event(subs[i].id) in t
          && t[ids.event(subs[i].id)].event == O.Event("AnswerSubmitted", subs[i].id, PayloadOf(ids, subs[i])))
    && (forall i, j :: 0 <= i < j < |subs| ==> ids.event(subs[i].id) != ids.event(subs[j].id))
    && (forall e :: e in t && t[e].event.eventType == "AnswerSubmitted" ==> IsAnswer(subs, ids, e))
  }

  ghost predicate IsAnswer(subs: seq<Submission>, ids: Ids, e: int) {
    exists i :: 0 <= i < |subs| && e == ids.event(subs[i].id)
  }

  ghost predicate IsFact(subs: seq<Submission>, ids: Ids, row: S.Row) {
    exists i :: 0 <= i < |subs| && row == FactOf(ids, subs[i])
  }

  lemma FactRowsOf(ids: Ids, s: Submission)
    ensures S.RowsOf(EnvelopeOf(ids.event(s.id), O.Event("AnswerSubmitted", s.id, PayloadOf(ids, s)))).fact == [FactOf(ids, s)]
  {
  }

  /** A row that was published without ten failures left a record on its own topic. */
  lemma PublishedIsOnTopic(published: seq<O.Step>, e: int)
    requires var t := O.Run(O.EMPTY, published).table;
             e in t && t[e].published && !t[e].Exhausted() && O.TopicFor(t[e].event.eventType) != O.DeadLetter
    ensures var o := O.Run(O.EMPTY, published); OnTopic(o.log, EnvelopeOf(e, o.table[e].event))
  {
    hide O.Run, O.TopicFor;
    var o := O.Run(O.EMPTY, published);
    O.PublishedMeansSent(published, e);
    var i :| 0 <= i < |o.log| && o.log[i].eventId == e && o.log[i].acked && O.OwnRecord(o.table, o.log[i]);
    assert Consumed(o.log[i]) && EnvelopeOf(e, o.table[e].event) == EnvelopeOf(o.log[i].eventId, o.log[i].event);
  }

  /** A fact row on the topics is that of a committed answer. */
  lemma FactIsAnswer(o: O.State, subs: seq<Submission>, ids: Ids, env: S.Envelope, row: S.Row)
    requires O.Inv(o) && Registered(o.table, subs, ids) && OnTopic(o.log, env) && row in S.RowsOf(env).fact
    ensures IsFact(subs, ids, row)
  {
  }

  /** Nothing was diverted: every answer row is published and none ran out of attempts. */
  ghost predicate AllAnswersPublished(t: O.Table, subs: seq<Submission>, ids: Ids) {
    forall i :: 0 <= i < |subs| ==>
      var e := ids.event(subs[i].id);
      e in t && t[e].published && !t[e].Exhausted()
  }

  lemma AnswerIsOnTopic(published: seq<O.Step>, subs: seq<Submission>, ids: Ids, i: nat)
    requires var t := O.Run(O.EMPTY, published).table; Registered(t, subs, ids) && AllAnswersPublished(t, subs, ids)
    requires i < |subs|
    ensures exists env :: OnTopic(O.Run(O.EMPTY, published).log, env) && FactOf(ids, subs[i]) in S.RowsOf(env).fact
  {
    hide O.Run, S.RowsOf;
    var e, t := ids.event(subs[i].id), O.Run(O.EMPTY, published).table;
    assert O.TopicFor("AnswerSubmitted") == O.AnswerTopic;
    PublishedIsOnTopic(published, e);
    FactRowsOf(ids, subs[i]);
    var env := EnvelopeOf(e, t[e].event);
    assert FactOf(ids, subs[i]) in S.RowsOf(env).fact;
  }

  /** `sum(score_awarded)` for one participant of the fact table. */
  function FactTotal(rows: seq<S.Row>, p: int): int {
    if rows == [] then 0
    else FactTotal(rows[..|rows| - 1], p) + FactScore(rows[|rows| - 1], p)
  }

  function FactScore(row: S.Row, p: int): int {
    if row.FactRow? && row.participantId == p then row.score else 0
  }

  function FactsOf(ids: Ids, subs: seq<Submission>): (r: seq<S.Row>)
    ensures |r| == |subs| && forall i :: 0 <= i < |subs| ==> r[i] == FactOf(ids, subs[i])
  {
    seq(|subs|, i requires 0 <= i < |subs| => FactOf(ids, subs[i]))
  }

  lemma {:induction false} FactTotalIsTotal(ids: Ids, subs: seq<Submission>, p: int)
    ensures FactTotal(FactsOf(ids, subs), p) == Total(subs, p)
  {
    if subs != [] {
      var n := |subs| - 1;
      FactTotalIsTotal(ids, subs[..n], p);
      assert FactsOf(ids, subs)[..n] == FactsOf(ids, subs[..n]);
    }
  }

  lemma {:induction false} FactTotalWithout(rows: seq<S.Row>, j: nat, p: int)
    requires j < |rows|
    ensures FactTotal(rows, p) == FactTotal(rows[..j] + rows[j + 1..], p) + FactScore(rows[j], p)
    decreases |rows|
  {
    var n := |rows| - 1;
    if j == n {
      assert rows[..j] + rows[j + 1..] == rows[..n];
    } else {
      FactTotalWithout(rows[..n], j, p);
      var rest := rows[..j] + rows[j + 1..];
      assert rest[..|rest| - 1] == rows[..n][..j] + rows[..n][j + 1..];
    }
  }

  lemma MembersWithout(b: seq<S.Row>, j: nat)
    requires j < |b| && NoDuplicates(b)
    ensures var rest := b[..j] + b[j + 1..];
            NoDuplicates(rest) && forall r :: r in rest <==> r in b && r != b[j]
  {
  }

  lemma HeadIsMember(b: seq<S.Row>)
    ensures b != [] ==> b[0] in b
  {
  }

  /** The same rows in another order have the same sum. */
  lemma {:induction false} SameRowsSameTotal(a: seq<S.Row>, b: seq<S.Row>, p: int)
    requires NoDuplicates(a) && NoDuplicates(b) && forall r :: r in a <==> r in b
    ensures |a| == |b| && FactTotal(a, p) == FactTotal(b, p)
    decreases |a|
  {
    if a == [] {
      HeadIsMember(b);
    } else {
      var n := |a| - 1;
      assert a[n] in a;
      var j :| 0 <= j < |b| && b[j] == a[n];
      MembersWithout(a, n);
      MembersWithout(b, j);
      assert a[..n] + a[n + 1..] == a[..n];
      SameRowsSameTotal(a[..n], b[..j] + b[j + 1..], p);
      FactTotalWithout(b, j, p);
    }
  }

  lemma FactsAreDistinct(t: O.Table, subs: seq<Submission>, ids: Ids)
    requires Registered(t, subs, ids)
    ensures NoDuplicates(FactsOf(ids, subs))
  {
  }

  /** The consumer holds exactly the committed answers, each once; in the fact table
      itself once nothing is buffered or in hand. */
  lemma FactsAreAnswers(published: seq<O.Step>, subs: seq<Submission>, ids: Ids, batch: nat, steps: seq<S.Step>, ok: S.Oracle)
    requires var o := O.Run(O.EMPTY, published);
             && Registered(o.table, subs, ids) && AllAnswersPublished(o.table, subs, ids)
             && AtLeastOnce(o.log, steps) && S.Intact(S.START, batch, steps, ok)
    ensures var w := S.Run(S.START, batch, steps, ok);
            var facts := S.HeldBy(w).fact;
            && NoDuplicates(facts) && (forall row :: row in facts <==> IsFact(subs, ids, row))
            && (S.Settled(w) ==> w.client.db.fact == facts)
  {
    hide O.Run, S.Run, S.Intact, S.RowsOf, AtLeastOnce, Registered, AllAnswersPublished;
    var o, facts := O.Run(O.EMPTY, published), S.HeldBy(S.Run(S.START, batch, steps, ok)).fact;
    O.InvRun(O.EMPTY, published);
    EventsArriveOnce(published, batch, steps, ok);
    forall row ensures row in facts <==> IsFact(subs, ids, row) {
      if row in facts {
        var env :| OnTopic(o.log, env) && row in S.RowsOf(env).fact;
        FactIsAnswer(o, subs, ids, env, row);
      }
      if IsFact(subs, ids, row) {
        var i :| 0 <= i < |subs| && row == FactOf(ids, subs[i]);
        AnswerIsOnTopic(published, subs, ids, i);
      }
    }
  }

  /** So when the outbox holds the answer events a match announced, the scores that
      analytics add up for a participant are the points in the ledger, and once the
      match is completed they are the final score it announced: over the fact table
      itself once the consumer is idle. */
  lemma AnalyticsMatchLedger(roster: seq<Member>, quiz: seq<Question>, ms: seq<Move>, published: seq<O.Step>,
                             ids: Ids, batch: nat, steps: seq<S.Step>, ok: S.Oracle)
    requires var subs, o := AnswerRows(Play(NewMatch(roster), quiz, ms).ledger.outbox), O.Run(O.EMPTY, published);
             && Registered(o.table, subs, ids) && AllAnswersPublished(o.table, subs, ids)
             && AtLeastOnce(o.log, steps) && S.Intact(S.START, batch, steps, ok)
    ensures var s, w := Play(NewMatch(roster), quiz, ms), S.Run(S.START, batch, steps, ok);
            var facts := S.HeldBy(w).fact;
            && (S.Settled(w) ==> w.client.db.fact == facts)
            && |facts| == |s.ledger.subs|
            && (forall p :: FactTotal(facts, p) == Total(s.ledger.subs, p))
            && (s.life.game == Some(L.Completed) ==>
                  forall i :: 0 <= i < |s.ledger.finals| ==>
                    s.ledger.finals[i].total == FactTotal(facts, s.ledger.finals[i].participant))
  {
    hide O.Run, S.Run, S.Intact, AtLeastOnce, AllAnswersPublished, Play, FactTotal, Total;
    var s, facts := Play(NewMatch(roster), quiz, ms), S.HeldBy(S.Run(S.START, batch, steps, ok)).fact;
    var subs := s.ledger.subs;
    RowsRun(NewMatch(roster), quiz, ms);
    assert subs == AnswerRows(s.ledger.outbox);
    FactsAreAnswers(published, subs, ids, batch, steps, ok);
    FactsAreDistinct(O.Run(O.EMPTY, published).table, subs, ids);
    var wanted := FactsOf(ids, subs);
    forall row ensures row in facts <==> row in wanted {
      if IsFact(subs, ids, row) {
        var i :| 0 <= i < |subs| && row == FactOf(ids, subs[i]);
        assert wanted[i] == row;
      }
    }
    SameRowsSameTotal(facts, wanted, 0);
    forall p ensures FactTotal(facts, p) == Total(subs, p) {
      SameRowsSameTotal(facts, wanted, p);
      FactTotalIsTotal(ids, subs, p);
    }
    if s.life.game == Some(L.Completed) {
      FinalTotals(roster, quiz, ms);
    }
  }

  lemma FinalTotals(roster: seq<Member>, quiz: seq<Question>, ms: seq<Move>)
    requires Play(NewMatch(roster), quiz, ms).life.game == Some(L.Completed)
    ensures var g := Play(NewMatch(roster), quiz, ms).ledger;
            forall i :: 0 <= i < |g.finals| ==> g.finals[i].total == Total(g.subs, g.finals[i].participant)
  {
    var n := CompletedMeansEnded(NewMatch(roster), quiz, ms);
    var before, after := ms[..n], ms[n + 1..];
    CompletedMatchStands(roster, quiz, before, ms[n].step, after);
    PlayAppend(NewMatch(roster), quiz, before + [ms[n]], after);
    PlayAppend(NewMatch(roster), quiz, before, [ms[n]]);
    var s := Play(NewMatch(roster), quiz, before);
    assert Play(s, quiz, [ms[n]]) == Play(Apply(s, quiz, ms[n]), quiz, []);
  }
}
