/** What the consumer writes, call by call, and which offsets it commits
    (workers/stream_worker/app/main.py, workers/stream_worker/app/clickhouse_client.py,
    workers/stream_worker/app/handlers/answer.py). */
module ConsumerLaws {
  import opened Common
  import opened StreamWorker

  // ---------------------------------------------------------------------------
  // Offsets
  // ---------------------------------------------------------------------------

  /** A partition delivers its records in the order of their offsets. */
  ghost predicate Ordered(records: seq<Record>) {
    forall i, j :: 0 <= i < j < |records| && records[i].partition == records[j].partition ==> records[i].offset < records[j].offset
  }

  lemma {:induction false} SomeIsLast(records: seq<Record>, i: nat) returns (k: int)
    requires i < |records|
    ensures i <= k && LastOf(records, records[i].partition, k)
    decreases |records| - i
  {
    if j :| i < j < |records| && records[j].partition == records[i].partition {
      k := SomeIsLast(records, j);
    } else {
      k := i;
    }
  }

  /** A commit covers exactly what was handled: every record handled before the first
      failure lies below the committed offset of its partition, and no other record of
      the poll does, so it is delivered again. */
  lemma CommitCoversExactly(before: map<int, int>, after: map<int, int>, records: seq<Record>, safe: nat)
    requires safe <= |records| && Ordered(records) && CommitsPast(before, after, records[..safe])
    requires forall i :: 0 <= i < |records| && records[i].partition in before ==> before[records[i].partition] <= records[i].offset
    ensures forall i :: 0 <= i < |records| ==>
              (i < safe <==> records[i].partition in after && records[i].offset < after[records[i].partition])
  {
    var handled := records[..safe];
    forall i | 0 <= i < |records|
      ensures i < safe <==> records[i].partition in after && records[i].offset < after[records[i].partition]
    {
      var p := records[i].partition;
      if i < safe {
        var k := SomeIsLast(handled, i);
        assert records[k] == handled[k] && records[i] == handled[i];
      } else if j :| 0 <= j < safe && handled[j].partition == p {
        var k := SomeIsLast(handled, j);
        assert records[k] == handled[k] && records[j] == handled[j];
        assert records[k].offset < records[i].offset;
      }
    }
  }

  // ---------------------------------------------------------------------------
  // Rows and inserts
  // ---------------------------------------------------------------------------

  /** Every event is audited; an answer that names its match, room, participant and
      question is a fact as well, with a response time that is not negative. */
  lemma RowsExactly(env: Envelope)
    ensures RowsOf(env).raw == [RawRow(env)]
    ensures var p := env.payload;
            RowsOf(env).fact ==
            if env.kind != AnswerSubmitted || p.matchId.None? || p.roomId.None? || p.participantId.None? || p.questionId.None?
            then []
            else [FactRow(env.eventId, p.matchId.value, p.roomId.value, p.participantId.value, p.questionId.value,
                          p.isCorrect, p.score, if p.responseMs < 0 then 0 else p.responseMs)]
  {
  }

  /** `rows` added to the lane of one table. */
  function With(l: Lanes, t: Table, rows: seq<Row>): Lanes {
    match t
    case EventsRaw => Lanes(l.raw + rows, l.fact)
    case AnswerEvents => Lanes(l.raw, l.fact + rows)
  }

  /** An insert of no rows is none; any other is counted, and its rows are in the table
      unless ClickHouse lost them, whatever it reported. */
  lemma InsertWrites(c: Client, t: Table, rows: seq<Row>, ok: Oracle)
    ensures Insert(c, t, [], ok) == (c, true)
    ensures rows != [] ==>
              && (ok(c.attempts) == Done ==> Insert(c, t, rows, ok) == (Client(c.buf, With(c.db, t, rows), c.attempts + 1), true))
              && (ok(c.attempts) == Failed(true) ==> Insert(c, t, rows, ok) == (Client(c.buf, With(c.db, t, rows), c.attempts + 1), false))
              && (ok(c.attempts) == Failed(false) ==> Insert(c, t, rows, ok) == (Client(c.buf, c.db, c.attempts + 1), false))
  {
  }

  /** Below the batch size rows are only buffered; a full batch is taken out of the
      buffer and inserted as a whole. */
  lemma InsertManyWrites(c: Client, batch: nat, rows: seq<Row>, ok: Oracle)
    ensures InsertMany(c, batch, EventsRaw, rows, ok) ==
            if |c.buf.raw| + |rows| < batch then (c.(buf := Lanes(c.buf.raw + rows, c.buf.fact)), true)
            else Insert(c.(buf := Lanes([], c.buf.fact)), EventsRaw, c.buf.raw + rows, ok)
    ensures InsertMany(c, batch, AnswerEvents, rows, ok) ==
            if |c.buf.fact| + |rows| < batch then (c.(buf := Lanes(c.buf.raw, c.buf.fact + rows)), true)
            else Insert(c.(buf := Lanes(c.buf.raw, [])), AnswerEvents, c.buf.fact + rows, ok)
  {
  }

  /** A flush takes the due buffers, audit rows first; facts are tried only after those
      were reported stored. */
  lemma FlushWrites(c: Client, due: set<Table>, ok: Oracle)
    ensures var raw, fact := if EventsRaw in due then c.buf.raw else [], if AnswerEvents in due then c.buf.fact else [];
            var left := Lanes(if EventsRaw in due then [] else c.buf.raw, if AnswerEvents in due then [] else c.buf.fact);
            var (c1, sent) := Insert(c.(buf := left), EventsRaw, raw, ok);
            Flush(c, due, ok) == if sent then Insert(c1, AnswerEvents, fact, ok) else (c1, false)
  {
  }

  /** An event is handled when its audit row and then its fact row are taken, each without
      a reported error; the end of a match flushes both tables, and a failure of that
      flush is not reported. */
  lemma DispatchWrites(c: Client, batch: nat, env: Envelope, ok: Oracle)
    ensures var (c1, sent) := InsertMany(c, batch, EventsRaw, [RawRow(env)], ok);
            Dispatch(c, batch, env, ok) ==
            if !sent then (c1, false)
            else if RowsOf(env).fact != [] then InsertMany(c1, batch, AnswerEvents, RowsOf(env).fact, ok)
            else if env.kind == MatchFinished then (Flush(c1, {EventsRaw, AnswerEvents}, ok).0, true)
            else (c1, true)
    ensures env.kind == MatchFinished && Dispatch(c, batch, env, ok).1 ==> Dispatch(c, batch, env, ok).0.buf == EMPTY
  {
    hide InsertMany;
    var c1 := InsertMany(c, batch, EventsRaw, [RawRow(env)], ok).0;
    FlushKeeps(c1, ALL_TABLES, ok);
  }

  /** An offset is safe when its message cannot be read, was claimed before, or was
      claimed now and handled; a claim that raises is not, whatever Redis stored. */
  lemma SafeExactly(w: Worker, batch: nat, msg: Message, reply: Reply, ok: Oracle)
    ensures Safe(w, batch, msg, reply, ok) <==>
            || msg == Unreadable
            || (reply == Answered && (msg.env.eventId in w.seen || Dispatch(w.client, batch, msg.env, ok).1))
  {
  }

  /** A claim is recorded once and, when it is answered, puts the event in hand; a
      dispatch takes the oldest event in hand; a crash empties memory and leaves Redis
      and the tables. */
  lemma StepWrites(w: Worker, batch: nat, msg: Message, reply: Reply, ok: Oracle)
    ensures Apply(w, batch, Claim(msg, reply), ok) ==
            if msg == Unreadable || reply == Errored(false) || msg.env.eventId in w.seen then w
            else w.(seen := w.seen + {msg.env.eventId}, hand := if reply == Answered then w.hand + [msg.env] else w.hand)
    ensures Apply(w, batch, DispatchNext, ok) ==
            if w.hand == [] then w
            else Worker(Dispatch(w.client, batch, w.hand[0], ok).0, w.hand[1..], w.seen)
    ensures Apply(w, batch, Crash, ok) == Worker(Client(EMPTY, w.client.db, w.client.attempts), [], w.seen)
    ensures Apply(w, batch, EndBatch, ok) == w.(client := Flush(w.client, {EventsRaw, AnswerEvents}, ok).0)
  {
  }
}
