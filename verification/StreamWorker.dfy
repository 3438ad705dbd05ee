/** The consumer that lands events in ClickHouse: deduplicating, buffering, flushing
    before it commits offsets (workers/stream_worker/app). Kafka is an arbitrary
    sequence of deliveries, Redis and ClickHouse answer, fail or store without answering
    as they please. A crash inside a dispatch or a flush is a crash after it in which the
    inserts not reached have failed. */
module StreamWorker {
  import opened Common

  datatype Table = EventsRaw | AnswerEvents

  datatype Kind = AnswerSubmitted | MatchFinished | OtherEvent

  datatype Payload = Payload(matchId: Option<int>, roomId: Option<int>, participantId: Option<int>, questionId: Option<int>,
                             isCorrect: bool, score: int, responseMs: int)

  datatype Envelope = Envelope(eventId: int, kind: Kind, payload: Payload)

  /** `Unreadable`: a malformed envelope or another schema version. */
  datatype Message = Unreadable | Readable(env: Envelope)

  datatype Row =
    | RawRow(env: Envelope)
    | FactRow(eventId: int, matchId: int, roomId: int, participantId: int, questionId: int, isCorrect: bool, score: int, responseMs: nat)

  /** Rows for each table. */
  datatype Lanes = Lanes(raw: seq<Row>, fact: seq<Row>)

  const EMPTY := Lanes([], [])

  function At(l: Lanes, t: Table): seq<Row> {
    match t case EventsRaw => l.raw case AnswerEvents => l.fact
  }

  function Put(l: Lanes, t: Table, rows: seq<Row>): Lanes {
    match t case EventsRaw => l.(raw := rows) case AnswerEvents => l.(fact := rows)
  }

  function Join(a: Lanes, b: Lanes): Lanes {
    Lanes(a.raw + b.raw, a.fact + b.fact)
  }

  function Size(l: Lanes): nat {
    |l.raw| + |l.fact|
  }

  /** The rows an event stands for: always an audit row, and a fact row for an
      answer that names its match, room, participant and question. */
  function RowsOf(env: Envelope): Lanes {
    var p := env.payload;
    Lanes([RawRow(env)],
          if env.kind.AnswerSubmitted? && p.matchId.Some? && p.roomId.Some? && p.participantId.Some? && p.questionId.Some? then
            [FactRow(env.eventId, p.matchId.value, p.roomId.value, p.participantId.value, p.questionId.value,
                     p.isCorrect, p.score, AtLeastZero(p.responseMs))]
          else [])
  }

  // ---------------------------------------------------------------------------
  // The buffering client
  // ---------------------------------------------------------------------------

  /** What an insert reports. An error may hide that ClickHouse stored the rows. */
  datatype Outcome = Done | Failed(stored: bool) {
    predicate Landed() {
      Done? || stored
    }
  }

  /** The outcome of each insert tried, by its number. */
  type Oracle = nat -> Outcome

  /** `buf` is the process memory, `db` what ClickHouse holds; `attempts` counts the
      inserts tried. */
  datatype Client = Client(buf: Lanes, db: Lanes, attempts: nat)

  function Insert(c: Client, t: Table, rows: seq<Row>, ok: Oracle): (Client, bool) {
    if rows == [] then (c, true)
    else
      var outcome := ok(c.attempts);
      (c.(db := if outcome.Landed() then Put(c.db, t, At(c.db, t) + rows) else c.db, attempts := c.attempts + 1),
       outcome.Done?)
  }

  /** The buffer is cleared before the insert is tried. */
  function InsertMany(c: Client, batch: nat, t: Table, rows: seq<Row>, ok: Oracle): (Client, bool) {
    var buffered := At(c.buf, t) + rows;
    if |buffered| >= batch then Insert(c.(buf := Put(c.buf, t, [])), t, buffered, ok)
    else (c.(buf := Put(c.buf, t, buffered)), true)
  }

  function Taken(l: Lanes, due: set<Table>): Lanes {
    Lanes(if EventsRaw in due then l.raw else [], if AnswerEvents in due then l.fact else [])
  }

  /** Every due buffer is cleared, then the inserts are tried in turn up to the
      first that fails. */
  function Flush(c: Client, due: set<Table>, ok: Oracle): (Client, bool) {
    var taken := Taken(c.buf, due);
    var (c1, sent) := Insert(c.(buf := Taken(c.buf, ALL_TABLES - due)), EventsRaw, taken.raw, ok);
    if sent then Insert(c1, AnswerEvents, taken.fact, ok) else (c1, false)
  }

  const ALL_TABLES := {EventsRaw, AnswerEvents}

  /** The handlers: the audit row first, then the fact row, and on MatchFinished a
      flush whose failure is swallowed. */
  function Dispatch(c: Client, batch: nat, env: Envelope, ok: Oracle): (Client, bool) {
    var rows := RowsOf(env);
    var (c1, sent) := InsertMany(c, batch, EventsRaw, rows.raw, ok);
    if !sent then (c1, false)
    else if rows.fact != [] then InsertMany(c1, batch, AnswerEvents, rows.fact, ok)
    else if env.kind.MatchFinished? then (Flush(c1, ALL_TABLES, ok).0, true)
    else (c1, true)
  }

  // ---------------------------------------------------------------------------
  // The worker
  // ---------------------------------------------------------------------------

  /** What a claim reports. An error may hide that Redis stored the key. */
  datatype Reply = Answered | Errored(stored: bool) {
    predicate Recorded() {
      Answered? || stored
    }
  }

  /** `seen` holds the event ids claimed in Redis, which outlive the process; `hand` the
      events that the process has claimed and not yet dispatched. */
  datatype Worker = Worker(client: Client, hand: seq<Envelope>, seen: set<int>)

  /** One awaited call is one step. `due` says which buffers have reached their flush
      interval. A crash loses what is buffered and what is in hand. */
  datatype Step =
    | Claim(msg: Message, reply: Reply)
    | DispatchNext
    | EndBatch
    | Idle(due: set<Table>)
    | Crash

  /** Redis records the event id of this delivery: it is the first of its event. */
  predicate Records(seen: set<int>, step: Step) {
    step.Claim? && step.msg.Readable? && step.reply.Recorded() && step.msg.env.eventId !in seen
  }

  function Apply(w: Worker, batch: nat, step: Step, ok: Oracle): Worker {
    match step
    case Claim(msg, reply) =>
      if !Records(w.seen, step) then w
      else w.(seen := w.seen + {msg.env.eventId}, hand := if reply.Answered? then w.hand + [msg.env] else w.hand)
    case DispatchNext =>
      if w.hand == [] then w else w.(client := Dispatch(w.client, batch, w.hand[0], ok).0, hand := w.hand[1..])
    case EndBatch => w.(client := Flush(w.client, ALL_TABLES, ok).0)
    case Idle(due) => w.(client := Flush(w.client, due, ok).0)
    case Crash => w.(client := w.client.(buf := EMPTY), hand := [])
  }

  function Run(w: Worker, batch: nat, steps: seq<Step>, ok: Oracle): Worker
    decreases |steps|
  {
    if steps == [] then w else Run(Apply(w, batch, steps[0], ok), batch, steps[1..], ok)
  }

  /** The reference: the rows of the first deliveries, in order. */
  function Wanted(seen: set<int>, steps: seq<Step>): Lanes
    decreases |steps|
  {
    if steps == [] then EMPTY
    else if Records(seen, steps[0]) then
      Join(RowsOf(steps[0].msg.env), Wanted(seen + {steps[0].msg.env.eventId}, steps[1..]))
    else Wanted(seen, steps[1..])
  }

  const START := Worker(Client(EMPTY, EMPTY, 0), [], {})

  // ---------------------------------------------------------------------------
  // The running process
  // ---------------------------------------------------------------------------

  datatype Record = Record(partition: int, offset: int, msg: Message, reply: Reply)

  /** Whether _handle_message reports the offset as safe, when nothing is in hand. */
  function Safe(w: Worker, batch: nat, msg: Message, reply: Reply, ok: Oracle): bool {
    if msg.Unreadable? then true
    else if reply.Errored? then false
    else msg.env.eventId in w.seen || Dispatch(w.client, batch, msg.env, ok).1
  }

  /** One message is claimed and, if the claim says so, dispatched. */
  function Delivery(msg: Message, reply: Reply): seq<Step> {
    [Claim(msg, reply), DispatchNext]
  }

  class Consumer {
    const batchRows: nat
    const ok: Oracle
    var buffers: Lanes
    var tables: Lanes
    var attempts: nat
    var hand: seq<Envelope>
    var seen: set<int>
    var committed: map<int, int>

    function State(): Worker
      reads this
    {
      Worker(Client(buffers, tables, attempts), hand, seen)
    }

    constructor (batchRows: nat, ok: Oracle)
      ensures State() == START && committed == map[] && this.batchRows == batchRows && this.ok == ok
    {
      this.batchRows, this.ok := batchRows, ok;
      buffers, tables, attempts, hand, seen, committed := EMPTY, EMPTY, 0, [], {}, map[];
    }

    method DoInsert(t: Table, rows: seq<Row>) returns (sent: bool)
      modifies this`tables, this`attempts
      ensures (State().client, sent) == Insert(old(State().client), t, rows, ok)
    {
      if rows == [] {
        return true;
      }
      var outcome := ok(attempts);
      if outcome.Landed() {
        tables := Put(tables, t, At(tables, t) + rows);
      }
      attempts := attempts + 1;
      return outcome.Done?;
    }

    method InsertRows(t: Table, rows: seq<Row>) returns (sent: bool)
      modifies this`buffers, this`tables, this`attempts
      ensures (State().client, sent) == InsertMany(old(State().client), batchRows, t, rows, ok)
    {
      var buffered := At(buffers, t) + rows;
      var drained := [];
      if |buffered| >= batchRows {
        drained := buffered;
        buffered := [];
      }
      buffers := Put(buffers, t, buffered);
      sent := DoInsert(t, drained);
    }

    method FlushTables(due: set<Table>) returns (sent: bool)
      modifies this`buffers, this`tables, this`attempts
      ensures (State().client, sent) == Flush(old(State().client), due, ok)
    {
      var order := [EventsRaw, AnswerEvents];
      var toFlush := EMPTY;
      ghost var start := buffers;
      for i := 0 to 2
        invariant tables == old(tables) && attempts == old(attempts)
        invariant toFlush.raw == (if i >= 1 then Taken(start, due).raw else [])
        invariant toFlush.fact == (if i >= 2 then Taken(start, due).fact else [])
        invariant buffers.raw == if i >= 1 && EventsRaw in due then [] else start.raw
        invariant buffers.fact == if i >= 2 && AnswerEvents in due then [] else start.fact
      {
        if order[i] in due {
          toFlush := Put(toFlush, order[i], At(buffers, order[i]));
          buffers := Put(buffers, order[i], []);
        }
      }
      ghost var cleared := State().client;
      sent := true;
      var i := 0;
      while i < 2 && sent
        invariant 0 <= i <= 2 && buffers == cleared.buf && (i == 0 ==> sent)
        invariant i == 0 ==> State().client == cleared
        invariant i == 1 ==> (State().client, sent) == Insert(cleared, EventsRaw, toFlush.raw, ok)
        invariant i == 2 ==> (State().client, sent) == Flush(old(State().client), due, ok)
      {
        sent := DoInsert(order[i], At(toFlush, order[i]));
        i := i + 1;
      }
    }

    /** SET NX on the event id: whether this claim is the first. Redis may store the key
        and the call fail all the same. */
    method ClaimEvent(eventId: int, reply: Reply) returns (first: Option<bool>)
      modifies this`seen
      ensures first == if reply.Errored? then None else Some(eventId !in old(seen))
      ensures seen == if reply.Recorded() then old(seen) + {eventId} else old(seen)
    {
      if reply.Recorded() {
        first := Some(eventId !in seen);
        seen := seen + {eventId};
      }
      if reply.Errored? {
        first := None;
      }
    }

    method DispatchEvent(env: Envelope) returns (done: bool)
      modifies this`buffers, this`tables, this`attempts
      ensures (State().client, done) == Dispatch(old(State().client), batchRows, env, ok)
    {
      var rows := RowsOf(env);
      done := InsertRows(EventsRaw, rows.raw);
      if done {
        if rows.fact != [] {
          done := InsertRows(AnswerEvents, rows.fact);
        } else if env.kind.MatchFinished? {
          var _ := FlushTables(ALL_TABLES);
        }
      }
    }

    /** True means that the offset is safe to commit. */
    method HandleMessage(msg: Message, reply: Reply) returns (safe: bool)
      requires hand == []
      modifies this`buffers, this`tables, this`attempts, this`hand, this`seen
      ensures hand == []
      ensures State() == Run(old(State()), batchRows, Delivery(msg, reply), ok)
      ensures safe == Safe(old(State()), batchRows, msg, reply, ok)
    {
      RunDelivery(State(), batchRows, msg, reply, ok);
      if msg.Unreadable? {
        return true;
      }
      var first := ClaimEvent(msg.env.eventId, reply);
      if first.None? {
        return false;
      }
      if !first.value {
        return true;
      }
      hand := [msg.env];
      safe := DispatchEvent(msg.env);
      hand := [];
    }

    /** One poll cycle with records: handle them up to the first failure, flush, and
        if the flush and the commit call succeed, commit the offsets of the `safe`
        records handled before that failure. Whatever happens the buffers end up empty. */
    method Poll(records: seq<Record>, commitWorks: bool) returns (safe: nat, commits: bool)
      requires hand == []
      modifies this
      ensures safe <= |records| && hand == []
      ensures forall k :: 0 <= k < safe ==> IsSafe(old(State()), batchRows, records, k, ok)
      ensures safe < |records| ==> !IsSafe(old(State()), batchRows, records, safe, ok)
      ensures var taken := if safe < |records| then safe + 1 else safe;
              State() == Run(old(State()), batchRows, Deliveries(records[..taken]) + [EndBatch], ok)
      ensures buffers == EMPTY && (commits ==> commitWorks)
      ensures var taken := if safe < |records| then safe + 1 else safe;
              commits ==> Flush(Run(old(State()), batchRows, Deliveries(records[..taken]), ok).client, ALL_TABLES, ok).1
      ensures if commits then CommitsPast(old(committed), committed, records[..safe]) else committed == old(committed)
    {
      hide Dispatch, Flush, Deliveries, Run;
      safe := 0;
      var failed, safeOffsets := false, map[];
      ghost var taken, start := 0, State();
      NoDeliveries(records, start, batchRows, ok);
      while safe < |records| && !failed
        invariant safe <= |records| && committed == old(committed) && hand == []
        invariant failed ==> safe < |records| && !IsSafe(start, batchRows, records, safe, ok)
        invariant forall k :: 0 <= k < safe ==> IsSafe(start, batchRows, records, k, ok)
        invariant safeOffsets == Offsets(records[..safe])
        invariant taken == if failed then safe + 1 else safe
        invariant State() == Run(start, batchRows, Deliveries(records[..taken]), ok)
        decreases |records| - safe, !failed
      {
        var r := records[safe];
        DeliveriesSnoc(records, safe);
        RunAppend(start, batchRows, Deliveries(records[..safe]), Delivery(r.msg, r.reply), ok);
        var ok1 := HandleMessage(r.msg, r.reply);
        taken := safe + 1;
        if ok1 {
          safeOffsets := safeOffsets[r.partition := r.offset + 1];
          assert records[..safe + 1][..safe] == records[..safe];
          safe := safe + 1;
        } else {
          failed := true;
        }
      }
      RunSnoc(start, batchRows, Deliveries(records[..taken]), EndBatch, ok);
      FlushedIsEmpty(State(), batchRows, ok);
      commits := FlushTables(ALL_TABLES);
      commits := commits && commitWorks;
      if commits {
        CommitIsPast(committed, records[..safe]);
        committed := committed + safeOffsets;
      }
    }
  }

  /** The offsets to commit: past the last record of each partition. */
  function Offsets(records: seq<Record>): map<int, int> {
    if records == [] then map[]
    else
      var last := records[|records| - 1];
      Offsets(records[..|records| - 1])[last.partition := last.offset + 1]
  }

  /** Record k is the last of its partition p. */
  ghost predicate LastOf(records: seq<Record>, p: int, k: int) {
    0 <= k < |records| && records[k].partition == p && forall j :: k < j < |records| ==> records[j].partition != p
  }

  lemma {:induction false} OffsetsExactly(records: seq<Record>)
    ensures forall p :: p in Offsets(records) <==> exists k :: 0 <= k < |records| && records[k].partition == p
    ensures forall p, k :: LastOf(records, p, k) ==> p in Offsets(records) && Offsets(records)[p] == records[k].offset + 1
    ensures forall p :: p in Offsets(records) ==> exists k :: LastOf(records, p, k)
  {
    if records != [] {
      var n := |records| - 1;
      OffsetsExactly(records[..n]);
      forall p ensures p in Offsets(records) <==> exists k :: 0 <= k < |records| && records[k].partition == p {
        if k :| 0 <= k < n && records[k].partition == p {
          assert records[..n][k].partition == p;
        }
      }
      forall p, k | LastOf(records, p, k) ensures p in Offsets(records) && Offsets(records)[p] == records[k].offset + 1 {
        if k < n {
          assert LastOf(records[..n], p, k);
          assert records[n].partition != p;
        }
      }
      forall p | p in Offsets(records) ensures exists k :: LastOf(records, p, k) {
        if p == records[n].partition {
          assert LastOf(records, p, n);
        } else {
          var k :| LastOf(records[..n], p, k);
          assert LastOf(records, p, k);
        }
      }
    }
  }

  /** Each partition of the handled records is committed past its last one, every other
      partition stays where it was. */
  ghost predicate CommitsPast(before: map<int, int>, after: map<int, int>, handled: seq<Record>) {
    && (forall p, k :: LastOf(handled, p, k) ==> p in after && after[p] == handled[k].offset + 1)
    && (forall p :: (forall k :: 0 <= k < |handled| ==> handled[k].partition != p) ==>
          (p in after <==> p in before) && (p in before ==> after[p] == before[p]))
  }

  lemma CommitIsPast(before: map<int, int>, handled: seq<Record>)
    ensures CommitsPast(before, before + Offsets(handled), handled)
  {
    OffsetsExactly(handled);
  }

  /** The k-th record of a poll, handled after those before it, is safe to commit. */
  ghost predicate IsSafe(w: Worker, batch: nat, records: seq<Record>, k: nat, ok: Oracle)
    requires k < |records|
  {
    Safe(Run(w, batch, Deliveries(records[..k]), ok), batch, records[k].msg, records[k].reply, ok)
  }

  lemma NoDeliveries(records: seq<Record>, w: Worker, batch: nat, ok: Oracle)
    ensures Run(w, batch, Deliveries(records[..0]), ok) == w
  {
  }

  lemma DeliveriesSnoc(records: seq<Record>, k: nat)
    requires k < |records|
    ensures Deliveries(records[..k + 1]) == Deliveries(records[..k]) + Delivery(records[k].msg, records[k].reply)
  {
    assert records[..k + 1][..k] == records[..k];
  }

  function Deliveries(records: seq<Record>): seq<Step> {
    if records == [] then []
    else
      var last := records[|records| - 1];
      Deliveries(records[..|records| - 1]) + Delivery(last.msg, last.reply)
  }

  lemma RunDelivery(w: Worker, batch: nat, msg: Message, reply: Reply, ok: Oracle)
    ensures Run(w, batch, Delivery(msg, reply), ok) == Apply(Apply(w, batch, Claim(msg, reply), ok), batch, DispatchNext, ok)
  {
    hide Dispatch;
    var steps := Delivery(msg, reply);
    var w1 := Apply(w, batch, steps[0], ok);
    assert steps[1..] == [DispatchNext];
    assert Run(w1, batch, [DispatchNext], ok) == Run(Apply(w1, batch, DispatchNext, ok), batch, [], ok);
  }

  lemma {:induction false} RunAppend(w: Worker, batch: nat, steps: seq<Step>, more: seq<Step>, ok: Oracle)
    ensures Run(w, batch, steps + more, ok) == Run(Run(w, batch, steps, ok), batch, more, ok)
    decreases |steps|
  {
    if steps == [] {
      assert steps + more == more;
    } else {
      assert (steps + more)[1..] == steps[1..] + more;
      RunAppend(Apply(w, batch, steps[0], ok), batch, steps[1..], more, ok);
    }
  }

  lemma RunSnoc(w: Worker, batch: nat, steps: seq<Step>, last: Step, ok: Oracle)
    ensures Run(w, batch, steps + [last], ok) == Apply(Run(w, batch, steps, ok), batch, last, ok)
  {
    RunAppend(w, batch, steps, [last], ok);
    var end := Run(w, batch, steps, ok);
    assert Run(end, batch, [last], ok) == Run(Apply(end, batch, last, ok), batch, [], ok);
  }

  // ---------------------------------------------------------------------------
  // Subsequences
  // ---------------------------------------------------------------------------

  /** `a` is `b` with some elements left out. */
  ghost predicate Sub(a: seq<Row>, b: seq<Row>)
    decreases |b|
  {
    if b == [] then a == []
    else Sub(a, b[..|b| - 1]) || (a != [] && a[|a| - 1] == b[|b| - 1] && Sub(a[..|a| - 1], b[..|b| - 1]))
  }

  lemma {:induction false} SubRefl(a: seq<Row>)
    ensures Sub(a, a)
    decreases |a|
  {
    if a != [] {
      SubRefl(a[..|a| - 1]);
    }
  }

  lemma {:induction false} SubMore(a: seq<Row>, b: seq<Row>, more: seq<Row>)
    requires Sub(a, b)
    ensures Sub(a, b + more)
    decreases |more|
  {
    if more == [] {
      assert b + more == b;
    } else {
      var init := more[..|more| - 1];
      assert (b + more)[..|b + more| - 1] == b + init;
      SubMore(a, b, init);
    }
  }

  lemma {:induction false} SubBoth(a: seq<Row>, b: seq<Row>, more: seq<Row>)
    requires Sub(a, b)
    ensures Sub(a + more, b + more)
    decreases |more|
  {
    if more == [] {
      assert a + more == a && b + more == b;
    } else {
      var init := more[..|more| - 1];
      assert (b + more)[..|b + more| - 1] == b + init;
      assert (a + more)[..|a + more| - 1] == a + init;
      SubBoth(a, b, init);
    }
  }

  lemma {:induction false} SubTrans(a: seq<Row>, b: seq<Row>, c: seq<Row>)
    requires Sub(a, b) && Sub(b, c)
    ensures Sub(a, c)
    decreases |c|
  {
    if c != [] {
      var c' := c[..|c| - 1];
      if Sub(b, c') {
        SubTrans(a, b, c');
      } else {
        var b' := b[..|b| - 1];
        if Sub(a, b') {
          SubTrans(a, b', c');
        } else {
          SubTrans(a[..|a| - 1], b', c');
        }
      }
    }
  }

  /** A subsequence is no longer, and is everything when it is as long. */
  lemma {:induction false} SubLength(a: seq<Row>, b: seq<Row>)
    requires Sub(a, b)
    ensures |a| <= |b| && (|a| == |b| ==> a == b)
    decreases |b|
  {
    if b != [] {
      var b' := b[..|b| - 1];
      if Sub(a, b') {
        SubLength(a, b');
      } else {
        SubLength(a[..|a| - 1], b');
        assert a == a[..|a| - 1] + [a[|a| - 1]];
        assert b == b' + [b[|b| - 1]];
      }
    }
  }

  /** A subsequence of rows without repeats has no repeats. */
  lemma {:induction false} SubNoDuplicates(a: seq<Row>, b: seq<Row>)
    requires Sub(a, b) && NoDuplicates(b)
    ensures NoDuplicates(a) && forall r :: r in a ==> r in b
    decreases |b|
  {
    if b != [] {
      var b', last := b[..|b| - 1], b[|b| - 1];
      assert b == b' + [last];
      if Sub(a, b') {
        SubNoDuplicates(a, b');
      } else {
        SubNoDuplicates(a[..|a| - 1], b');
        assert a == a[..|a| - 1] + [last];
        assert last !in b';
      }
    }
  }

  // ---------------------------------------------------------------------------
  // What one operation keeps
  // ---------------------------------------------------------------------------

  /** What a table holds followed by what is buffered for it. */
  function Held(c: Client): Lanes {
    Join(c.db, c.buf)
  }

  ghost predicate SubLanes(a: Lanes, b: Lanes) {
    Sub(a.raw, b.raw) && Sub(a.fact, b.fact)
  }

  /** Going from `c` to `d` while `rows` were handed in: rows are only ever left out,
      never repeated or reordered, and none is left out exactly when `whole`. */
  ghost predicate Kept(c: Client, d: Client, rows: Lanes, whole: bool) {
    && SubLanes(Held(d), Join(Held(c), rows))
    && (Size(Held(d)) == Size(Held(c)) + Size(rows) <==> whole)
  }

  /** The insert keeps its rows. */
  predicate InsertLands(c: Client, rows: seq<Row>, ok: Oracle) {
    rows == [] || ok(c.attempts).Landed()
  }

  predicate InsertManyLands(c: Client, batch: nat, t: Table, rows: seq<Row>, ok: Oracle) {
    var buffered := At(c.buf, t) + rows;
    |buffered| >= batch ==> InsertLands(c, buffered, ok)
  }

  /** Both inserts keep their rows; one that reports an error leaves none behind it. */
  predicate FlushLands(c: Client, due: set<Table>, ok: Oracle) {
    var taken := Taken(c.buf, due);
    var (c1, sent) := Insert(c.(buf := Taken(c.buf, ALL_TABLES - due)), EventsRaw, taken.raw, ok);
    InsertLands(c, taken.raw, ok) && if sent then InsertLands(c1, taken.fact, ok) else taken.fact == []
  }

  predicate DispatchLands(c: Client, batch: nat, env: Envelope, ok: Oracle) {
    var rows := RowsOf(env);
    var (c1, sent) := InsertMany(c, batch, EventsRaw, rows.raw, ok);
    && InsertManyLands(c, batch, EventsRaw, rows.raw, ok)
    && if !sent then rows.fact == []
       else if rows.fact != [] then InsertManyLands(c1, batch, AnswerEvents, rows.fact, ok)
       else env.kind.MatchFinished? ==> FlushLands(c1, ALL_TABLES, ok)
  }

  lemma SubLanesSize(a: Lanes, b: Lanes)
    requires SubLanes(a, b)
    ensures Size(a) <= Size(b) && (Size(a) == Size(b) ==> a == b)
  {
    SubLength(a.raw, b.raw);
    SubLength(a.fact, b.fact);
  }

  lemma SubLanesRefl(a: Lanes)
    ensures SubLanes(a, a) && Join(a, EMPTY) == a && Join(EMPTY, a) == a
  {
    SubRefl(a.raw);
    SubRefl(a.fact);
  }

  lemma SubLanesMore(a: Lanes, b: Lanes, more: Lanes)
    requires SubLanes(a, b)
    ensures SubLanes(a, Join(b, more)) && SubLanes(Join(a, more), Join(b, more))
  {
    SubMore(a.raw, b.raw, more.raw);
    SubMore(a.fact, b.fact, more.fact);
    SubBoth(a.raw, b.raw, more.raw);
    SubBoth(a.fact, b.fact, more.fact);
  }

  lemma SubLanesCompose(a: Lanes, b: Lanes, c: Lanes, r1: Lanes, r2: Lanes)
    requires SubLanes(b, Join(a, r1)) && SubLanes(c, Join(b, r2))
    ensures SubLanes(c, Join(a, Join(r1, r2)))
  {
    SubBoth(b.raw, a.raw + r1.raw, r2.raw);
    SubBoth(b.fact, a.fact + r1.fact, r2.fact);
    assert a.raw + r1.raw + r2.raw == a.raw + (r1.raw + r2.raw);
    assert a.fact + r1.fact + r2.fact == a.fact + (r1.fact + r2.fact);
    SubTrans(c.raw, b.raw + r2.raw, a.raw + r1.raw + r2.raw);
    SubTrans(c.fact, b.fact + r2.fact, a.fact + r1.fact + r2.fact);
  }

  lemma KeptCompose(c: Client, d: Client, e: Client, r1: Lanes, r2: Lanes, w1: bool, w2: bool)
    requires Kept(c, d, r1, w1) && Kept(d, e, r2, w2)
    ensures Kept(c, e, Join(r1, r2), w1 && w2)
  {
    hide Sub;
    SubLanesCompose(Held(c), Held(d), Held(e), r1, r2);
    SubLanesSize(Held(d), Join(Held(c), r1));
    SubLanesSize(Held(e), Join(Held(d), r2));
  }

  /** Rows that are never handed in after an error are left out as well. */
  lemma KeptWeaken(c: Client, d: Client, rows: Lanes, more: Lanes, whole: bool)
    requires Kept(c, d, rows, whole)
    ensures Kept(c, d, Join(rows, more), whole && more == EMPTY)
  {
    hide Sub;
    var h, k := Held(c), Held(d);
    SubLanesSize(k, Join(h, rows));
    SubLanesMore(k, Join(h, rows), more);
    assert Join(h, Join(rows, more)) == Join(Join(h, rows), more);
  }

  function Only(t: Table, rows: seq<Row>): Lanes {
    Put(EMPTY, t, rows)
  }

  /** An insert into a table whose buffer was cleared. */
  lemma InsertKeeps(c: Client, t: Table, rows: seq<Row>, ok: Oracle)
    requires At(c.buf, t) == [] || rows == []
    ensures Kept(c, Insert(c, t, rows, ok).0, Only(t, rows), InsertLands(c, rows, ok))
    ensures Insert(c, t, rows, ok).0.buf == c.buf
    ensures Insert(c, t, rows, ok).1 ==> InsertLands(c, rows, ok)
  {
    hide Sub;
    var h, d := Held(c), Insert(c, t, rows, ok).0;
    SubLanesRefl(Join(h, Only(t, rows)));
    if InsertLands(c, rows, ok) {
      assert Held(d) == Join(h, Only(t, rows));
    } else {
      assert Held(d) == h;
      SubLanesRefl(h);
      SubLanesMore(h, h, Only(t, rows));
    }
  }

  /** Clearing buffers and then handing their rows in is as good as keeping them. */
  lemma HandBack(c: Client, cleared: Client, d: Client, taken: Lanes, more: Lanes, whole: bool)
    requires Join(Held(cleared), taken) == Join(Held(c), more) && Kept(cleared, d, taken, whole)
    ensures Kept(c, d, more, whole)
  {
  }

  lemma InsertManyKeeps(c: Client, batch: nat, t: Table, rows: seq<Row>, ok: Oracle)
    ensures Kept(c, InsertMany(c, batch, t, rows, ok).0, Only(t, rows), InsertManyLands(c, batch, t, rows, ok))
  {
    hide Sub;
    var buffered := At(c.buf, t) + rows;
    var d := InsertMany(c, batch, t, rows, ok).0;
    if |buffered| >= batch {
      var cleared := c.(buf := Put(c.buf, t, []));
      InsertKeeps(cleared, t, buffered, ok);
      assert Join(Held(cleared), Only(t, buffered)) == Join(Held(c), Only(t, rows));
      HandBack(c, cleared, d, Only(t, buffered), Only(t, rows), InsertLands(c, buffered, ok));
    } else {
      assert Held(d) == Join(Held(c), Only(t, rows));
      SubLanesRefl(Held(d));
    }
  }

  /** The first insert of a flush, counted together with the facts still in hand. */
  lemma FlushFirst(c: Client, due: set<Table>, ok: Oracle)
    ensures var taken, cleared := Taken(c.buf, due), c.(buf := Taken(c.buf, ALL_TABLES - due));
            var c1 := Insert(cleared, EventsRaw, taken.raw, ok).0;
            && Kept(cleared, c1, Only(EventsRaw, taken.raw), InsertLands(c, taken.raw, ok))
            && c1.buf == cleared.buf
            && Join(Held(cleared), taken) == Join(Held(c), EMPTY)
            && Join(Only(EventsRaw, taken.raw), Only(AnswerEvents, taken.fact)) == taken
  {
    hide Sub, Kept, Insert;
    InsertKeeps(c.(buf := Taken(c.buf, ALL_TABLES - due)), EventsRaw, Taken(c.buf, due).raw, ok);
  }

  lemma FlushKeeps(c: Client, due: set<Table>, ok: Oracle)
    ensures Kept(c, Flush(c, due, ok).0, EMPTY, FlushLands(c, due, ok))
    ensures Flush(c, due, ok).0.buf == Taken(c.buf, ALL_TABLES - due)
  {
    var taken, cleared := Taken(c.buf, due), c.(buf := Taken(c.buf, ALL_TABLES - due));
    var (c1, sent) := Insert(cleared, EventsRaw, taken.raw, ok);
    var raw, fact := Only(EventsRaw, taken.raw), Only(AnswerEvents, taken.fact);
    FlushFirst(c, due, ok);
    var lands := InsertLands(c, taken.raw, ok);
    assert c1.buf.fact == [] || taken.fact == [];
    hide Sub, Kept, Insert, Held, Join, Only;
    if sent {
      InsertKeeps(c1, AnswerEvents, taken.fact, ok);
      var d := Insert(c1, AnswerEvents, taken.fact, ok).0;
      KeptCompose(cleared, c1, d, raw, fact, lands, InsertLands(c1, taken.fact, ok));
      SentMeansLands(cleared, taken.raw, ok, c);
      HandBack(c, cleared, d, taken, EMPTY, FlushLands(c, due, ok));
    } else {
      KeptWeaken(cleared, c1, raw, fact, lands);
      OnlyFacts(taken.fact);
      HandBack(c, cleared, c1, taken, EMPTY, FlushLands(c, due, ok));
    }
  }

  lemma SentMeansLands(c: Client, rows: seq<Row>, ok: Oracle, d: Client)
    requires c.attempts == d.attempts
    ensures Insert(c, EventsRaw, rows, ok).1 ==> InsertLands(d, rows, ok)
  {
  }

  lemma OnlyFacts(rows: seq<Row>)
    ensures Only(AnswerEvents, rows) == EMPTY <==> rows == []
  {
  }

  lemma DispatchKeeps(c: Client, batch: nat, env: Envelope, ok: Oracle)
    ensures Kept(c, Dispatch(c, batch, env, ok).0, RowsOf(env), DispatchLands(c, batch, env, ok))
  {
    hide Sub, Kept, InsertMany, Flush, InsertManyLands, FlushLands;
    var rows := RowsOf(env);
    var raw, fact := Only(EventsRaw, rows.raw), Only(AnswerEvents, rows.fact);
    assert Join(raw, fact) == rows;
    var (c1, sent) := InsertMany(c, batch, EventsRaw, rows.raw, ok);
    var lands := InsertManyLands(c, batch, EventsRaw, rows.raw, ok);
    InsertManyKeeps(c, batch, EventsRaw, rows.raw, ok);
    if !sent {
      KeptWeaken(c, c1, raw, fact, lands);
    } else if rows.fact != [] {
      InsertManyKeeps(c1, batch, AnswerEvents, rows.fact, ok);
      KeptCompose(c, c1, InsertMany(c1, batch, AnswerEvents, rows.fact, ok).0, raw, fact,
                  lands, InsertManyLands(c1, batch, AnswerEvents, rows.fact, ok));
    } else if env.kind.MatchFinished? {
      FlushKeeps(c1, ALL_TABLES, ok);
      KeptCompose(c, c1, Flush(c1, ALL_TABLES, ok).0, raw, EMPTY, lands, FlushLands(c1, ALL_TABLES, ok));
    }
  }

  // ---------------------------------------------------------------------------
  // Whole runs
  // ---------------------------------------------------------------------------

  /** The rows of the events in hand, in order. */
  function RowsIn(hand: seq<Envelope>): Lanes {
    if hand == [] then EMPTY else Join(RowsOf(hand[0]), RowsIn(hand[1..]))
  }

  /** What the tables hold, followed by what is buffered, followed by what is in hand. */
  function HeldBy(w: Worker): Lanes {
    Join(Held(w.client), RowsIn(w.hand))
  }

  function Emits(seen: set<int>, step: Step): Lanes {
    if Records(seen, step) then RowsOf(step.msg.env) else EMPTY
  }

  /** Nothing is lost: every insert lands with nothing left behind it, no claim is stored
      without an answer, and no crash hits rows in a buffer or an event in hand. */
  ghost predicate IntactStep(w: Worker, batch: nat, step: Step, ok: Oracle) {
    match step
    case Claim(_, reply) => Records(w.seen, step) ==> reply.Answered?
    case DispatchNext => w.hand != [] ==> DispatchLands(w.client, batch, w.hand[0], ok)
    case EndBatch => FlushLands(w.client, ALL_TABLES, ok)
    case Idle(due) => FlushLands(w.client, due, ok)
    case Crash => w.client.buf == EMPTY && w.hand == []
  }

  ghost predicate Intact(w: Worker, batch: nat, steps: seq<Step>, ok: Oracle)
    decreases |steps|
  {
    steps == [] || (IntactStep(w, batch, steps[0], ok) && Intact(Apply(w, batch, steps[0], ok), batch, steps[1..], ok))
  }

  lemma {:induction false} RowsInSnoc(hand: seq<Envelope>, env: Envelope)
    ensures RowsIn(hand + [env]) == Join(RowsIn(hand), RowsOf(env))
    decreases |hand|
  {
    if hand == [] {
      assert [env][1..] == [];
      assert RowsIn([env]) == Join(RowsOf(env), RowsIn([]));
    } else {
      assert (hand + [env])[1..] == hand[1..] + [env];
      RowsInSnoc(hand[1..], env);
    }
  }

  ghost predicate StepKept(w: Worker, w': Worker, rows: Lanes, whole: bool) {
    && SubLanes(HeldBy(w'), Join(HeldBy(w), rows))
    && (Size(HeldBy(w')) == Size(HeldBy(w)) + Size(rows) <==> whole)
  }

  /** What the client keeps, the worker keeps, whatever is in hand behind it. */
  lemma ClientKeeps(w: Worker, w': Worker, rows: Lanes, rest: seq<Envelope>, whole: bool)
    requires Kept(w.client, w'.client, rows, whole) && w'.hand == rest && RowsIn(w.hand) == Join(rows, RowsIn(rest))
    ensures StepKept(w, w', EMPTY, whole)
  {
    hide Sub, RowsIn;
    var h := Held(w.client);
    SubLanesMore(Held(w'.client), Join(h, rows), RowsIn(rest));
    assert Join(Join(h, rows), RowsIn(rest)) == HeldBy(w);
    SubLanesRefl(HeldBy(w));
  }

  lemma ClaimLaw(w: Worker, batch: nat, step: Step, ok: Oracle)
    requires step.Claim?
    ensures StepKept(w, Apply(w, batch, step, ok), Emits(w.seen, step), IntactStep(w, batch, step, ok))
  {
    hide Sub, RowsIn;
    SubLanesRefl(HeldBy(w));
    if Records(w.seen, step) {
      var env := step.msg.env;
      RowsInSnoc(w.hand, env);
      assert Join(HeldBy(w), RowsOf(env)) == Join(Held(w.client), RowsIn(w.hand + [env]));
      SubLanesRefl(Join(HeldBy(w), RowsOf(env)));
      SubLanesMore(HeldBy(w), HeldBy(w), RowsOf(env));
    }
  }

  lemma CrashLaw(w: Worker, batch: nat, ok: Oracle)
    ensures StepKept(w, Apply(w, batch, Crash, ok), EMPTY, IntactStep(w, batch, Crash, ok))
  {
    hide Sub;
    var db := w.client.db;
    SubLanesRefl(db);
    SubLanesMore(db, db, w.client.buf);
    SubLanesMore(db, Held(w.client), RowsIn(w.hand));
    SubLanesRefl(HeldBy(w));
    assert HeldBy(Apply(w, batch, Crash, ok)) == db;
    assert Size(RowsIn(w.hand)) == 0 <==> w.hand == [];
    assert Size(w.client.buf) == 0 <==> w.client.buf == EMPTY;
  }

  lemma StepLaw(w: Worker, batch: nat, step: Step, ok: Oracle)
    ensures StepKept(w, Apply(w, batch, step, ok), Emits(w.seen, step), IntactStep(w, batch, step, ok))
    ensures Apply(w, batch, step, ok).seen == if Records(w.seen, step) then w.seen + {step.msg.env.eventId} else w.seen
  {
    hide Sub, Dispatch, Flush, DispatchLands, FlushLands, Kept, StepKept, RowsOf;
    var c, w' := w.client, Apply(w, batch, step, ok);
    SubLanesRefl(RowsIn(w.hand));
    match step
    case Claim(_, _) => ClaimLaw(w, batch, step, ok);
    case DispatchNext =>
      if w.hand == [] {
        NothingHappens(w);
      } else {
        DispatchKeeps(c, batch, w.hand[0], ok);
        ClientKeeps(w, w', RowsOf(w.hand[0]), w.hand[1..], DispatchLands(c, batch, w.hand[0], ok));
      }
    case EndBatch =>
      FlushKeeps(c, ALL_TABLES, ok);
      ClientKeeps(w, w', EMPTY, w.hand, FlushLands(c, ALL_TABLES, ok));
    case Idle(due) =>
      FlushKeeps(c, due, ok);
      ClientKeeps(w, w', EMPTY, w.hand, FlushLands(c, due, ok));
    case Crash => CrashLaw(w, batch, ok);
  }

  lemma NothingHappens(w: Worker)
    ensures StepKept(w, w, EMPTY, true)
  {
    SubLanesRefl(HeldBy(w));
  }

  lemma {:induction false} RunLaw(w: Worker, batch: nat, steps: seq<Step>, ok: Oracle)
    ensures var held, all := HeldBy(Run(w, batch, steps, ok)), Join(HeldBy(w), Wanted(w.seen, steps));
            && SubLanes(held, all)
            && (Size(held) == Size(all) <==> Intact(w, batch, steps, ok))
    decreases |steps|
  {
    hide Sub, SubLanes, IntactStep, Apply, Records, RowsOf, HeldBy;
    if steps == [] {
      SubLanesRefl(HeldBy(w));
    } else {
      var w1, rows, rest := Apply(w, batch, steps[0], ok), Emits(w.seen, steps[0]), steps[1..];
      StepLaw(w, batch, steps[0], ok);
      RunLaw(w1, batch, rest, ok);
      var end := HeldBy(Run(w1, batch, rest, ok));
      SubLanesCompose(HeldBy(w), HeldBy(w1), end, rows, Wanted(w1.seen, rest));
      SubLanesSize(HeldBy(w1), Join(HeldBy(w), rows));
      SubLanesSize(end, Join(HeldBy(w1), Wanted(w1.seen, rest)));
      assert Wanted(w.seen, steps) == Join(rows, Wanted(w1.seen, rest));
    }
  }

  /** At most once, whatever fails: what each table holds, followed by what is buffered
      and what is in hand for it, is the rows of the first deliveries in order with at
      most some left out, and no row is there twice. */
  lemma AtMostOnce(batch: nat, steps: seq<Step>, ok: Oracle)
    ensures var held := HeldBy(Run(START, batch, steps, ok));
            SubLanes(held, Wanted({}, steps)) && NoDuplicates(held.raw) && NoDuplicates(held.fact)
  {
    hide Sub, Run;
    RunLaw(START, batch, steps, ok);
    var held, wanted := HeldBy(Run(START, batch, steps, ok)), Wanted({}, steps);
    assert Join(HeldBy(START), wanted) == wanted;
    WantedDistinct({}, steps);
    SubNoDuplicates(held.raw, wanted.raw);
    SubNoDuplicates(held.fact, wanted.fact);
  }

  /** Exactly once: tables, buffers and hand hold exactly the rows of the first
      deliveries in order, if and only if every insert landed with nothing left behind
      it, no claim was stored without an answer, and no crash hit rows in a buffer or an
      event between its claim and its dispatch. */
  lemma ExactlyOnceExactly(batch: nat, steps: seq<Step>, ok: Oracle)
    ensures HeldBy(Run(START, batch, steps, ok)) == Wanted({}, steps) <==> Intact(START, batch, steps, ok)
  {
    hide Sub, Run, Intact;
    RunLaw(START, batch, steps, ok);
    assert Join(HeldBy(START), Wanted({}, steps)) == Wanted({}, steps);
    SubLanesSize(HeldBy(Run(START, batch, steps, ok)), Wanted({}, steps));
  }

  function RowId(r: Row): int {
    match r case RawRow(env) => env.eventId case FactRow(id, _, _, _, _, _, _, _) => id
  }

  ghost predicate FreshRows(seen: set<int>, rows: seq<Row>) {
    NoDuplicates(rows) && forall r :: r in rows ==> RowId(r) !in seen
  }

  lemma FreshCons(seen: set<int>, rows: seq<Row>, first: seq<Row>, id: int)
    requires FreshRows(seen + {id}, rows) && id !in seen
    requires |first| <= 1 && forall r :: r in first ==> RowId(r) == id
    ensures FreshRows(seen, first + rows)
  {
    var all := first + rows;
    forall i, j | 0 <= i < j < |all| ensures all[i] != all[j] {
      assert all[j] == rows[j - |first|] && all[j] in rows;
      if i < |first| {
        assert all[i] == first[i] && all[i] in first;
      } else {
        assert all[i] == rows[i - |first|];
      }
    }
  }

  lemma {:induction false} WantedDistinct(seen: set<int>, steps: seq<Step>)
    ensures FreshRows(seen, Wanted(seen, steps).raw) && FreshRows(seen, Wanted(seen, steps).fact)
    decreases |steps|
  {
    if steps != [] {
      if Records(seen, steps[0]) {
        var env := steps[0].msg.env;
        var rest := Wanted(seen + {env.eventId}, steps[1..]);
        WantedDistinct(seen + {env.eventId}, steps[1..]);
        FreshCons(seen, rest.raw, RowsOf(env).raw, env.eventId);
        FreshCons(seen, rest.fact, RowsOf(env).fact, env.eventId);
      } else {
        WantedDistinct(seen, steps[1..]);
      }
    }
  }

  // ---------------------------------------------------------------------------
  // Redelivery does not repair a loss
  // ---------------------------------------------------------------------------

  lemma {:induction false} IntactPrefix(w: Worker, batch: nat, steps: seq<Step>, more: seq<Step>, ok: Oracle)
    requires Intact(w, batch, steps + more, ok)
    ensures Intact(w, batch, steps, ok)
    decreases |steps|
  {
    hide IntactStep, Apply;
    if steps != [] {
      assert (steps + more)[0] == steps[0] && (steps + more)[1..] == steps[1..] + more;
      IntactPrefix(Apply(w, batch, steps[0], ok), batch, steps[1..], more, ok);
    }
  }

  /** The event id is claimed before the rows are safe, so once rows are lost no
      redelivery, however often, brings the tables back to the first deliveries. */
  lemma LossIsPermanent(batch: nat, steps: seq<Step>, more: seq<Step>, ok: Oracle)
    requires HeldBy(Run(START, batch, steps, ok)) != Wanted({}, steps)
    ensures HeldBy(Run(START, batch, steps + more, ok)) != Wanted({}, steps + more)
  {
    hide Run, Wanted, Intact;
    ExactlyOnceExactly(batch, steps, ok);
    ExactlyOnceExactly(batch, steps + more, ok);
    if Intact(START, batch, steps + more, ok) {
      IntactPrefix(START, batch, steps, more, ok);
    }
  }

  /** One failed flush: the offset is not committed, the event is delivered again,
      and its row still never arrives. */
  lemma FailedInsertIsLost(env: Envelope, ok: Oracle)
    requires ok(0) == Failed(false) && (forall i :: i > 0 ==> ok(i) == Done) && env.kind.OtherEvent?
    ensures var once := Delivery(Readable(env), Answered) + [EndBatch];
            Wanted({}, once + once).raw == [RawRow(env)] && Run(START, 100, once + once, ok).client.db == EMPTY
  {
    var d, once := Delivery(Readable(env), Answered), Delivery(Readable(env), Answered) + [EndBatch];
    var w1 := Worker(Client(Lanes([RawRow(env)], []), EMPTY, 0), [], {env.eventId});
    var w2 := Worker(Client(EMPTY, EMPTY, 1), [], {env.eventId});
    RunDelivery(START, 100, Readable(env), Answered, ok);
    assert Apply(START, 100, d[0], ok).hand == [env];
    RunSnoc(START, 100, d, EndBatch, ok);
    assert Run(START, 100, once, ok) == w2;
    SkippedOnceSeen(w2, env, ok);
    RunAppend(START, 100, once, once, ok);
    OnlyFirstWanted(env, once, once);
  }

  /** A repeat of a claimed event only flushes. */
  lemma SkippedOnceSeen(w: Worker, env: Envelope, ok: Oracle)
    requires w.hand == [] && w.client.buf == EMPTY && env.eventId in w.seen
    ensures Run(w, 100, Delivery(Readable(env), Answered) + [EndBatch], ok) == w
  {
    RunDelivery(w, 100, Readable(env), Answered, ok);
    RunSnoc(w, 100, Delivery(Readable(env), Answered), EndBatch, ok);
  }

  /** Once an event is recorded, its repeats want nothing. */
  lemma OnlyFirstWanted(env: Envelope, first: seq<Step>, again: seq<Step>)
    requires |first| >= 1 && first[0].Claim? && first[0].msg == Readable(env) && first[0].reply.Recorded()
    requires forall i :: 0 <= i < |first| && first[i].Claim? ==> first[i].msg == Readable(env)
    requires forall i :: 0 <= i < |again| && again[i].Claim? ==> again[i].msg == Readable(env)
    ensures Wanted({}, first + again) == RowsOf(env)
  {
    NoneWanted({} + {env.eventId}, env, (first + again)[1..]);
    assert Join(RowsOf(env), EMPTY) == RowsOf(env);
  }

  lemma {:induction false} NoneWanted(seen: set<int>, env: Envelope, steps: seq<Step>)
    requires env.eventId in seen && forall i :: 0 <= i < |steps| && steps[i].Claim? ==> steps[i].msg == Readable(env)
    ensures Wanted(seen, steps) == EMPTY
    decreases |steps|
  {
    if steps != [] {
      NoneWanted(seen, env, steps[1..]);
    }
  }

  /** The claim comes before the dispatch: a process killed in between, or a claim that
      Redis stored while the call failed, loses the event for good, with every insert
      done and nothing ever buffered. */
  lemma ClaimedIsLost(env: Envelope, ok: Oracle, killed: bool)
    ensures var first := if killed then [Claim(Readable(env), Answered), Crash] else [Claim(Readable(env), Errored(true))];
            var again := Delivery(Readable(env), Answered) + [EndBatch];
            Wanted({}, first + again) == RowsOf(env) && HeldBy(Run(START, 100, first + again, ok)) == EMPTY
  {
    var claim := Claim(Readable(env), if killed then Answered else Errored(true));
    var first := if killed then [claim] + [Crash] else [] + [claim];
    var again := Delivery(Readable(env), Answered) + [EndBatch];
    RunSnoc(START, 100, [], claim, ok);
    assert [] + [claim] == [claim];
    if killed {
      RunSnoc(START, 100, [claim], Crash, ok);
    }
    var w := Run(START, 100, first, ok);
    assert w == START.(seen := {env.eventId});
    SkippedOnceSeen(w, env, ok);
    RunAppend(START, 100, first, again, ok);
    OnlyFirstWanted(env, first, again);
  }

  // ---------------------------------------------------------------------------
  // What a committed offset is worth
  // ---------------------------------------------------------------------------

  /** Nothing is buffered and nothing is in hand, as between polls. */
  ghost predicate Settled(w: Worker) {
    w.client.buf == EMPTY && w.hand == []
  }

  ghost predicate Holds(a: Lanes, b: Lanes) {
    (forall r :: r in b.raw ==> r in a.raw) && (forall r :: r in b.fact ==> r in a.fact)
  }

  /** No row is held twice, and every row held is of a claimed event. */
  ghost predicate Tidy(w: Worker) {
    var h := HeldBy(w);
    && NoDuplicates(h.raw) && NoDuplicates(h.fact)
    && forall r :: r in h.raw || r in h.fact ==> RowId(r) in w.seen
  }

  lemma FreshJoin(seen: set<int>, a: seq<Row>, b: seq<Row>)
    requires NoDuplicates(a) && (forall r :: r in a ==> RowId(r) in seen) && FreshRows(seen, b)
    ensures NoDuplicates(a + b)
  {
    forall i, j | 0 <= i < j < |a + b| ensures (a + b)[i] != (a + b)[j] {
      if i < |a| <= j {
        assert a[i] in a && b[j - |a|] in b;
      }
    }
  }

  lemma TidyStep(w: Worker, batch: nat, step: Step, ok: Oracle)
    requires Tidy(w)
    ensures Tidy(Apply(w, batch, step, ok))
    ensures Holds(Join(HeldBy(w), Emits(w.seen, step)), HeldBy(Apply(w, batch, step, ok)))
  {
    hide Apply, Sub, HeldBy;
    var h, e, h' := HeldBy(w), Emits(w.seen, step), HeldBy(Apply(w, batch, step, ok));
    StepLaw(w, batch, step, ok);
    FreshJoin(w.seen, h.raw, e.raw);
    FreshJoin(w.seen, h.fact, e.fact);
    SubNoDuplicates(h'.raw, h.raw + e.raw);
    SubNoDuplicates(h'.fact, h.fact + e.fact);
  }

  lemma {:induction false} TidyRun(w: Worker, batch: nat, steps: seq<Step>, ok: Oracle)
    requires Tidy(w)
    ensures Tidy(Run(w, batch, steps, ok))
    decreases |steps|
  {
    hide Apply, Tidy;
    if steps != [] {
      TidyStep(w, batch, steps[0], ok);
      TidyRun(Apply(w, batch, steps[0], ok), batch, steps[1..], ok);
    }
  }

  /** Some row of `b` is missing from a shorter subsequence. */
  lemma {:induction false} SubMissing(a: seq<Row>, b: seq<Row>) returns (r: Row)
    requires Sub(a, b) && NoDuplicates(b) && |a| < |b|
    ensures r in b && r !in a
    decreases |b|
  {
    var b', last := b[..|b| - 1], b[|b| - 1];
    assert b == b' + [last];
    if Sub(a, b') {
      SubNoDuplicates(a, b');
      r := last;
    } else {
      r := SubMissing(a[..|a| - 1], b');
      assert a == a[..|a| - 1] + [last];
    }
  }

  ghost predicate Grows(c: Client, d: Client) {
    c.db.raw <= d.db.raw && c.db.fact <= d.db.fact
  }

  lemma GrowsInsertMany(c: Client, batch: nat, t: Table, rows: seq<Row>, ok: Oracle)
    ensures Grows(c, InsertMany(c, batch, t, rows, ok).0)
  {
  }

  lemma GrowsFlush(c: Client, due: set<Table>, ok: Oracle)
    ensures Grows(c, Flush(c, due, ok).0)
  {
  }

  lemma GrowsStep(w: Worker, batch: nat, step: Step, ok: Oracle)
    ensures Grows(w.client, Apply(w, batch, step, ok).client)
  {
    hide InsertMany, Flush;
    var c := w.client;
    match step
    case DispatchNext =>
      if w.hand != [] {
        var rows := RowsOf(w.hand[0]);
        var c1 := InsertMany(c, batch, EventsRaw, rows.raw, ok).0;
        GrowsInsertMany(c, batch, EventsRaw, rows.raw, ok);
        GrowsInsertMany(c1, batch, AnswerEvents, rows.fact, ok);
        GrowsFlush(c1, ALL_TABLES, ok);
      }
    case EndBatch => GrowsFlush(c, ALL_TABLES, ok);
    case Idle(due) => GrowsFlush(c, due, ok);
    case _ =>
  }

  lemma {:induction false} GrowsRun(w: Worker, batch: nat, steps: seq<Step>, ok: Oracle)
    ensures Grows(w.client, Run(w, batch, steps, ok).client)
    decreases |steps|
  {
    hide Apply;
    if steps != [] {
      GrowsStep(w, batch, steps[0], ok);
      GrowsRun(Apply(w, batch, steps[0], ok), batch, steps[1..], ok);
    }
  }

  lemma {:induction false} WantedSeen(w: Worker, batch: nat, steps: seq<Step>, ok: Oracle)
    ensures var rows, seen := Wanted(w.seen, steps), Run(w, batch, steps, ok).seen;
            w.seen <= seen && forall r :: r in rows.raw || r in rows.fact ==> RowId(r) in seen
    decreases |steps|
  {
    if steps != [] {
      StepLaw(w, batch, steps[0], ok);
      WantedSeen(Apply(w, batch, steps[0], ok), batch, steps[1..], ok);
    }
  }

  lemma {:induction false} NothingInHand(w: Worker, batch: nat, records: seq<Record>, ok: Oracle)
    requires w.hand == []
    ensures Run(w, batch, Deliveries(records), ok).hand == []
    decreases |records|
  {
    hide Dispatch;
    if records != [] {
      var n := |records| - 1;
      var last := records[n];
      NothingInHand(w, batch, records[..n], ok);
      RunAppend(w, batch, Deliveries(records[..n]), Delivery(last.msg, last.reply), ok);
      RunDelivery(Run(w, batch, Deliveries(records[..n]), ok), batch, last.msg, last.reply, ok);
    }
  }

  /** A successful flush leaves everything held in the tables. */
  lemma FlushedIsHeld(w: Worker, batch: nat, ok: Oracle)
    requires w.hand == [] && Flush(w.client, ALL_TABLES, ok).1
    ensures Apply(w, batch, EndBatch, ok).client.db == HeldBy(w)
  {
    hide Sub;
    var c := w.client;
    FlushKeeps(c, ALL_TABLES, ok);
    assert FlushLands(c, ALL_TABLES, ok);
    SubLanesSize(Held(Flush(c, ALL_TABLES, ok).0), Join(Held(c), EMPTY));
    SubLanesRefl(Held(c));
    SubLanesRefl(HeldBy(w));
    assert Held(Flush(c, ALL_TABLES, ok).0) == Flush(c, ALL_TABLES, ok).0.db;
  }

  /** A record that fails takes no row of others with it: an insert of a full batch that
      it triggers lands, or there was nothing buffered before it. */
  predicate Spares(w: Worker, batch: nat, r: Record, ok: Oracle) {
    r.msg.Readable? && r.reply.Answered? && r.msg.env.eventId !in w.seen ==>
      var c, rows := w.client, RowsOf(r.msg.env);
      var (c1, sent) := InsertMany(c, batch, EventsRaw, rows.raw, ok);
      && (c.buf.raw != [] ==> InsertManyLands(c, batch, EventsRaw, rows.raw, ok))
      && (sent && rows.fact != [] && c.buf.fact != [] ==> InsertManyLands(c1, batch, AnswerEvents, rows.fact, ok))
  }

  lemma InsertManyFails(c: Client, batch: nat, t: Table, rows: seq<Row>, ok: Oracle)
    requires !InsertMany(c, batch, t, rows, ok).1 && NoDuplicates(At(Held(c), t))
    ensures var d := InsertMany(c, batch, t, rows, ok).0;
            && (At(c.buf, t) == [] || InsertManyLands(c, batch, t, rows, ok) ==>
                  forall r :: r in At(Held(c), t) ==> r in At(Held(d), t))
            && (At(c.buf, t) != [] && !InsertManyLands(c, batch, t, rows, ok) ==> At(c.buf, t)[0] !in At(Held(d), t))
  {
    var db, buf := At(c.db, t), At(c.buf, t);
    assert At(Held(c), t) == db + buf;
    forall i | 0 <= i < |db| && buf != [] ensures db[i] != buf[0] {
      assert (db + buf)[i] != (db + buf)[|db|];
    }
  }

  lemma OtherLane(c: Client, batch: nat, t: Table, u: Table, rows: seq<Row>, ok: Oracle)
    requires t != u
    ensures var d := InsertMany(c, batch, t, rows, ok).0; At(d.buf, u) == At(c.buf, u) && At(d.db, u) == At(c.db, u)
  {
  }

  /** An insert that reports success keeps what was buffered. */
  lemma InsertManyWorks(c: Client, batch: nat, t: Table, rows: seq<Row>, ok: Oracle)
    requires InsertMany(c, batch, t, rows, ok).1
    ensures forall r :: r in At(Held(c), t) ==> r in At(Held(InsertMany(c, batch, t, rows, ok).0), t)
  {
  }

  lemma DispatchFails(c: Client, batch: nat, env: Envelope, ok: Oracle)
    requires !Dispatch(c, batch, env, ok).1 && NoDuplicates(Held(c).raw) && NoDuplicates(Held(c).fact)
    ensures var rows, d := RowsOf(env), Dispatch(c, batch, env, ok).0;
            var (c1, sent) := InsertMany(c, batch, EventsRaw, rows.raw, ok);
            if (c.buf.raw != [] ==> InsertManyLands(c, batch, EventsRaw, rows.raw, ok))
               && (sent && rows.fact != [] && c.buf.fact != [] ==> InsertManyLands(c1, batch, AnswerEvents, rows.fact, ok))
            then Holds(Held(d), Held(c))
            else !Holds(Held(d), c.buf)
  {
    var rows := RowsOf(env);
    var (c1, sent) := InsertMany(c, batch, EventsRaw, rows.raw, ok);
    OtherLane(c, batch, EventsRaw, AnswerEvents, rows.raw, ok);
    hide InsertMany, InsertManyLands, RowsOf;
    if !sent {
      InsertManyFails(c, batch, EventsRaw, rows.raw, ok);
      assert c.buf.raw != [] ==> c.buf.raw[0] in c.buf.raw;
    } else {
      InsertManyWorks(c, batch, EventsRaw, rows.raw, ok);
      InsertManyKeeps(c, batch, EventsRaw, rows.raw, ok);
      SentLands(c, batch, EventsRaw, rows.raw, ok);
      InsertManyFails(c1, batch, AnswerEvents, rows.fact, ok);
      OtherLane(c1, batch, AnswerEvents, EventsRaw, rows.fact, ok);
      assert c.buf.fact != [] ==> c.buf.fact[0] in c.buf.fact;
    }
  }

  lemma SentLands(c: Client, batch: nat, t: Table, rows: seq<Row>, ok: Oracle)
    ensures InsertMany(c, batch, t, rows, ok).1 ==> InsertManyLands(c, batch, t, rows, ok)
  {
  }

  lemma FailingRecord(w: Worker, batch: nat, r: Record, ok: Oracle)
    requires Tidy(w) && w.hand == [] && !Safe(w, batch, r.msg, r.reply, ok)
    ensures var w' := Run(w, batch, Delivery(r.msg, r.reply), ok);
            if Spares(w, batch, r, ok) then Holds(HeldBy(w'), HeldBy(w)) else !Holds(HeldBy(w'), w.client.buf)
  {
    RunDelivery(w, batch, r.msg, r.reply, ok);
    var h := Held(w.client);
    SubLanesRefl(h);
    assert HeldBy(w) == h;
    if r.msg.Readable? && r.reply.Answered? && r.msg.env.eventId !in w.seen {
      DispatchFails(w.client, batch, r.msg.env, ok);
      hide Dispatch, RowsOf, InsertMany, InsertManyLands, Sub;
      SubLanesRefl(Held(Dispatch(w.client, batch, r.msg.env, ok).0));
    }
  }

  /** How many records a poll handles: the `safe` ones and the one that fails, if any. */
  function Handled(records: seq<Record>, safe: nat): nat
    requires safe <= |records|
  {
    if safe < |records| then safe + 1 else safe
  }

  lemma MissingRow(w: Worker, batch: nat, steps: seq<Step>, ok: Oracle)
    requires Tidy(w) && w.client.buf == EMPTY && w.hand == [] && !Intact(w, batch, steps, ok)
    ensures !Holds(HeldBy(Run(w, batch, steps, ok)), Wanted(w.seen, steps))
  {
    hide Sub, Intact, Run;
    var held, wanted := HeldBy(Run(w, batch, steps, ok)), Wanted(w.seen, steps);
    var all := Join(HeldBy(w), wanted);
    RunLaw(w, batch, steps, ok);
    WantedDistinct(w.seen, steps);
    FreshJoin(w.seen, HeldBy(w).raw, wanted.raw);
    FreshJoin(w.seen, HeldBy(w).fact, wanted.fact);
    SubLanesSize(held, all);
    GrowsRun(w, batch, steps, ok);
    DbIsHeld(w, Run(w, batch, steps, ok));
    SubLength(held.raw, all.raw);
    SubLength(held.fact, all.fact);
    if |held.raw| < |all.raw| {
      var r := SubMissing(held.raw, all.raw);
    } else {
      var r := SubMissing(held.fact, all.fact);
    }
  }

  /** What an idle worker held stays held. */
  lemma DbIsHeld(w: Worker, w': Worker)
    requires w.client.buf == EMPTY && w.hand == [] && Grows(w.client, w'.client)
    ensures HeldBy(w) == w.client.db && Holds(HeldBy(w'), HeldBy(w))
  {
  }

  /** Rows once lost are not brought back by the delivery of another event. */
  lemma StaysLost(w: Worker, batch: nat, msg: Message, reply: Reply, rows: Lanes, ok: Oracle)
    requires Tidy(w) && w.hand == [] && !Holds(HeldBy(w), rows)
    requires forall r :: r in rows.raw || r in rows.fact ==> RowId(r) in w.seen
    ensures !Holds(HeldBy(Run(w, batch, Delivery(msg, reply), ok)), rows)
  {
    var claim := Claim(msg, reply);
    RunDelivery(w, batch, msg, reply, ok);
    TidyStep(w, batch, claim, ok);
    TidyStep(Apply(w, batch, claim, ok), batch, DispatchNext, ok);
  }

  /** When the rows of committed offsets are in the tables. After a poll that flushed,
      the tables hold the rows of every event that the `safe` records were the first to
      deliver if and only if handling them lost nothing and the record that failed after
      them, if any, spared what they had left in the buffers. */
  lemma CommittedRowsExactly(batch: nat, before: seq<Step>, records: seq<Record>, safe: nat, ok: Oracle)
    requires safe <= |records| && Settled(Run(START, batch, before, ok))
    requires safe < |records| ==> !IsSafe(Run(START, batch, before, ok), batch, records, safe, ok)
    requires Flush(Run(Run(START, batch, before, ok), batch, Deliveries(records[..Handled(records, safe)]), ok).client, ALL_TABLES, ok).1
    ensures var w := Run(START, batch, before, ok);
            var handled := Deliveries(records[..Handled(records, safe)]);
            Holds(Run(w, batch, handled + [EndBatch], ok).client.db, Wanted(w.seen, Deliveries(records[..safe])))
            <==>
            && Intact(w, batch, Deliveries(records[..safe]), ok)
            && (safe < |records| ==> Spares(Run(w, batch, Deliveries(records[..safe]), ok), batch, records[safe], ok))
  {
    hide Run, Intact, Tidy, Wanted, Spares, Safe, Flush;
    var w, safely := Run(START, batch, before, ok), Deliveries(records[..safe]);
    var handled := Deliveries(records[..Handled(records, safe)]);
    var w1, w2 := Run(w, batch, safely, ok), Run(w, batch, handled, ok);
    StartIsTidy();
    TidyRun(START, batch, before, ok);
    TidyRun(w, batch, safely, ok);
    NothingInHand(w, batch, records[..safe], ok);
    NothingInHand(w, batch, records[..Handled(records, safe)], ok);
    RunSnoc(w, batch, handled, EndBatch, ok);
    FlushedIsHeld(w2, batch, ok);
    WantedSeen(w, batch, safely, ok);
    if safe < |records| {
      var r := records[safe];
      DeliveriesSnoc(records, safe);
      RunAppend(w, batch, safely, Delivery(r.msg, r.reply), ok);
      AfterSafe(w, w1, w2, batch, safely, r, ok);
    } else {
      JustSafe(w, batch, safely, ok);
    }
  }

  lemma StartIsTidy()
    ensures Tidy(START)
  {
  }

  lemma JustSafe(w: Worker, batch: nat, steps: seq<Step>, ok: Oracle)
    requires Tidy(w) && Settled(w)
    ensures Holds(HeldBy(Run(w, batch, steps, ok)), Wanted(w.seen, steps)) <==> Intact(w, batch, steps, ok)
  {
    hide Run, Intact, Sub, Tidy;
    if Intact(w, batch, steps, ok) {
      RunLaw(w, batch, steps, ok);
      SubLanesSize(HeldBy(Run(w, batch, steps, ok)), Join(HeldBy(w), Wanted(w.seen, steps)));
    } else {
      MissingRow(w, batch, steps, ok);
    }
  }

  lemma AfterSafe(w: Worker, w1: Worker, w2: Worker, batch: nat, steps: seq<Step>, r: Record, ok: Oracle)
    requires Tidy(w) && Settled(w) && w1 == Run(w, batch, steps, ok) && Tidy(w1) && w1.hand == []
    requires w2 == Run(w1, batch, Delivery(r.msg, r.reply), ok) && !Safe(w1, batch, r.msg, r.reply, ok)
    requires forall x :: x in Wanted(w.seen, steps).raw || x in Wanted(w.seen, steps).fact ==> RowId(x) in w1.seen
    ensures Holds(HeldBy(w2), Wanted(w.seen, steps)) <==> Intact(w, batch, steps, ok) && Spares(w1, batch, r, ok)
  {
    hide Run, Intact, Tidy, Spares, Safe;
    JustSafe(w, batch, steps, ok);
    FailingRecord(w1, batch, r, ok);
    if !Intact(w, batch, steps, ok) {
      StaysLost(w1, batch, r.msg, r.reply, Wanted(w.seen, steps), ok);
    } else if !Spares(w1, batch, r, ok) {
      BufferIsWanted(w, w1, batch, steps, ok);
    }
  }

  /** What is buffered after an idle worker handled `steps` without loss are rows of theirs. */
  lemma BufferIsWanted(w: Worker, w1: Worker, batch: nat, steps: seq<Step>, ok: Oracle)
    requires Settled(w) && w1 == Run(w, batch, steps, ok) && w1.hand == [] && Intact(w, batch, steps, ok)
    ensures Holds(Wanted(w.seen, steps), w1.client.buf)
  {
    hide Run, Intact, Sub;
    var wanted := Wanted(w.seen, steps);
    RunLaw(w, batch, steps, ok);
    SubLanesSize(HeldBy(w1), Join(HeldBy(w), wanted));
    GrowsRun(w, batch, steps, ok);
    assert HeldBy(w) == w.client.db && HeldBy(w1) == Held(w1.client);
    SuffixIn(w.client.db.raw, wanted.raw, w1.client.db.raw, w1.client.buf.raw);
    SuffixIn(w.client.db.fact, wanted.fact, w1.client.db.fact, w1.client.buf.fact);
  }

  lemma SuffixIn(a: seq<Row>, b: seq<Row>, c: seq<Row>, d: seq<Row>)
    requires a + b == c + d && a <= c
    ensures forall r :: r in d ==> r in b
  {
    forall i | 0 <= i < |d| ensures d[i] in b {
      assert d[i] == (c + d)[|c| + i] == (a + b)[|c| + i] == b[|c| + i - |a|];
    }
  }

  /** With batches of two: the insert that the second record triggers fails and takes the
      first one's row with it; the flush finds nothing to send, and the first record's
      offset is committed for a row that is nowhere. */
  lemma CommittedButLost(first: Record, second: Record, ok: Oracle)
    requires first.msg.Readable? && first.reply.Answered? && first.msg.env.kind.OtherEvent?
    requires second.msg.Readable? && second.reply.Answered? && second.msg.env.kind.OtherEvent?
    requires first.msg.env.eventId != second.msg.env.eventId && ok(0) == Failed(false)
    ensures var records := [first, second];
            var w := Run(START, 2, Deliveries(records), ok);
            && IsSafe(START, 2, records, 0, ok) && !IsSafe(START, 2, records, 1, ok)
            && Flush(w.client, ALL_TABLES, ok).1 && HeldBy(w) == EMPTY
            && Wanted({}, Deliveries(records[..1])) == RowsOf(first.msg.env)
  {
    var records, a, b := [first, second], first.msg.env, second.msg.env;
    assert records[..0] == [] && records[..1] == [first] && records[..2] == records;
    DeliveriesSnoc(records, 0);
    DeliveriesSnoc(records, 1);
    assert Deliveries([]) == [];
    var d1, d2 := Delivery(first.msg, first.reply), Delivery(second.msg, second.reply);
    assert Deliveries(records[..1]) == d1 && Deliveries(records) == d1 + d2;
    RunDelivery(START, 2, first.msg, first.reply, ok);
    FirstBuffered(first, ok);
    var w1 := Worker(Client(Lanes([RawRow(a)], []), EMPTY, 0), [], {a.eventId});
    RunAppend(START, 2, d1, d2, ok);
    RunDelivery(w1, 2, second.msg, second.reply, ok);
    SecondFails(first, second, ok);
    OnlyFirstWanted(a, d1, []);
    assert d1 + [] == d1;
  }

  lemma FirstBuffered(r: Record, ok: Oracle)
    requires r.msg.Readable? && r.reply.Answered? && r.msg.env.kind.OtherEvent?
    ensures Safe(START, 2, r.msg, r.reply, ok)
    ensures Apply(Apply(START, 2, Claim(r.msg, r.reply), ok), 2, DispatchNext, ok)
            == Worker(Client(Lanes([RawRow(r.msg.env)], []), EMPTY, 0), [], {r.msg.env.eventId})
  {
    assert Apply(START, 2, Claim(r.msg, r.reply), ok) == Worker(Client(EMPTY, EMPTY, 0), [r.msg.env], {r.msg.env.eventId});
  }

  lemma SecondFails(first: Record, second: Record, ok: Oracle)
    requires first.msg.Readable? && second.msg.Readable? && second.reply.Answered? && second.msg.env.kind.OtherEvent?
    requires first.msg.env.eventId != second.msg.env.eventId && ok(0) == Failed(false)
    ensures var w := Worker(Client(Lanes([RawRow(first.msg.env)], []), EMPTY, 0), [], {first.msg.env.eventId});
            && !Safe(w, 2, second.msg, second.reply, ok)
            && var w' := Apply(Apply(w, 2, Claim(second.msg, second.reply), ok), 2, DispatchNext, ok);
               w'.client == Client(EMPTY, EMPTY, 1) && w'.hand == []
  {
    var w := Worker(Client(Lanes([RawRow(first.msg.env)], []), EMPTY, 0), [], {first.msg.env.eventId});
    assert Apply(w, 2, Claim(second.msg, second.reply), ok).hand == [second.msg.env];
    assert |At(w.client.buf, EventsRaw) + RowsOf(second.msg.env).raw| == 2;
  }

  // ---------------------------------------------------------------------------
  // Buffers
  // ---------------------------------------------------------------------------

  ghost predicate Bounded(c: Client, batch: nat) {
    |c.buf.raw| < batch && |c.buf.fact| < batch
  }

  lemma InsertManyBounded(c: Client, batch: nat, t: Table, rows: seq<Row>, ok: Oracle)
    requires Bounded(c, batch)
    ensures Bounded(InsertMany(c, batch, t, rows, ok).0, batch)
  {
  }

  lemma StepBounded(w: Worker, batch: nat, step: Step, ok: Oracle)
    requires Bounded(w.client, batch)
    ensures Bounded(Apply(w, batch, step, ok).client, batch)
  {
    hide InsertMany, Flush;
    var c := w.client;
    match step
    case DispatchNext =>
      if w.hand != [] {
        var rows := RowsOf(w.hand[0]);
        var c1 := InsertMany(c, batch, EventsRaw, rows.raw, ok).0;
        InsertManyBounded(c, batch, EventsRaw, rows.raw, ok);
        InsertManyBounded(c1, batch, AnswerEvents, rows.fact, ok);
        FlushKeeps(c1, ALL_TABLES, ok);
      }
    case EndBatch => FlushKeeps(c, ALL_TABLES, ok);
    case Idle(due) => FlushKeeps(c, due, ok);
    case _ =>
  }

  /** Buffers stay under the batch size in every run, and are empty after every flush
      that precedes a commit. */
  lemma {:induction false} BuffersBounded(w: Worker, batch: nat, steps: seq<Step>, ok: Oracle)
    requires Bounded(w.client, batch)
    ensures Bounded(Run(w, batch, steps, ok).client, batch)
    ensures steps != [] && steps[|steps| - 1].EndBatch? ==> Run(w, batch, steps, ok).client.buf == EMPTY
    decreases |steps|
  {
    hide Apply, Flush, Bounded;
    if steps != [] {
      var w1 := Apply(w, batch, steps[0], ok);
      StepBounded(w, batch, steps[0], ok);
      BuffersBounded(w1, batch, steps[1..], ok);
      if |steps| == 1 {
        FlushedIsEmpty(w, batch, ok);
      }
    }
  }

  lemma FlushedIsEmpty(w: Worker, batch: nat, ok: Oracle)
    ensures Apply(w, batch, EndBatch, ok).client.buf == EMPTY
  {
  }

  /** Steps in the order of the poll loop: the time trigger runs only between
      batches. `open` says whether a batch is being handled. */
  ghost predicate Polled(open: bool, steps: seq<Step>)
    decreases |steps|
  {
    steps == [] ||
    match steps[0]
    case Claim(_, _) => Polled(true, steps[1..])
    case DispatchNext => Polled(true, steps[1..])
    case EndBatch => Polled(false, steps[1..])
    case Idle(_) => !open && Polled(false, steps[1..])
    case Crash => Polled(false, steps[1..])
  }

  function WithoutIdle(steps: seq<Step>): seq<Step>
    decreases |steps|
  {
    if steps == [] then []
    else if steps[0].Idle? then WithoutIdle(steps[1..])
    else [steps[0]] + WithoutIdle(steps[1..])
  }

  /** In the poll loop's order the time trigger never finds a row: every batch ends
      by draining the buffers, so runs with and without it are the same. */
  lemma {:induction false} TimeTriggerNeverFires(w: Worker, batch: nat, open: bool, steps: seq<Step>, ok: Oracle)
    requires Polled(open, steps) && (open || w.client.buf == EMPTY)
    ensures Run(w, batch, steps, ok) == Run(w, batch, WithoutIdle(steps), ok)
    decreases |steps|
  {
    if steps != [] {
      var step, rest := steps[0], steps[1..];
      var w1 := Apply(w, batch, step, ok);
      if step.EndBatch? {
        FlushedIsEmpty(w, batch, ok);
      }
      TimeTriggerNeverFires(w1, batch, step.Claim? || step.DispatchNext?, rest, ok);
      if step.Idle? {
        assert w1 == w;
      } else {
        assert ([step] + WithoutIdle(rest))[1..] == WithoutIdle(rest);
      }
    }
  }
}
