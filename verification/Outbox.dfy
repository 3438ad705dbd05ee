/** The outbox publisher: a batch of unpublished rows is sent to the broker, failures
    are counted, and exhausted rows are diverted to the dead-letter topic
    (workers/outbox_publisher/app/main.py, workers/outbox_publisher/app/topics.py). */
module Outbox {
  import opened Common
  import S = StreamWorker

  const POLL_BATCH := 100
  const MAX_PUBLISH_ATTEMPTS := 10
  const BACKOFF_BASE_S := 0.25
  const BACKOFF_MAX_S := 30.0

  datatype Topic = RoomTopic | MatchTopic | AnswerTopic | ModerationTopic | DeadLetter

  /** Unknown event types go to the dead-letter topic. */
  function TopicFor(eventType: string): Topic {
    if eventType in ["RoomCreated", "PlayerJoined", "PlayerLeft"] then RoomTopic
    else if eventType in ["MatchStarted", "QuestionStarted", "QuestionClosed", "MatchFinished"] then MatchTopic
    else if eventType in ["AnswerSubmitted"] then AnswerTopic
    else if eventType in ["ContentReported", "ContentFlagged", "ModerationDecisionMade"] then ModerationTopic
    else DeadLetter
  }

  /** Each event type has its topic; a type nobody knows goes to the dead-letter topic. */
  lemma TopicsExactly(eventType: string)
    ensures TopicFor(eventType) == RoomTopic <==> eventType == "RoomCreated" || eventType == "PlayerJoined" || eventType == "PlayerLeft"
    ensures TopicFor(eventType) == MatchTopic <==>
            eventType == "MatchStarted" || eventType == "QuestionStarted" || eventType == "QuestionClosed" || eventType == "MatchFinished"
    ensures TopicFor(eventType) == AnswerTopic <==> eventType == "AnswerSubmitted"
    ensures TopicFor(eventType) == ModerationTopic <==>
            eventType == "ContentReported" || eventType == "ContentFlagged" || eventType == "ModerationDecisionMade"
  {
  }

  datatype Event = Event(eventType: string, aggregateId: int, payload: S.Payload)

  /** One row of outbox_events; `published` is `published_at IS NOT NULL`. */
  datatype Row = Row(event: Event, occurredAt: int, attempts: nat, published: bool) {
    predicate Exhausted() {
      attempts >= MAX_PUBLISH_ATTEMPTS
    }
  }

  type Table = map<int, Row>

  /** What a send reports. An error may hide that the broker stored the record. */
  datatype Ack = Acked | Unacked(stored: bool)

  /** A record in the broker; `acked` says whether the publisher was told. */
  datatype Record = Record(topic: Topic, eventId: int, event: Event, acked: bool)

  /** The table and everything the broker has stored, in order. */
  datatype State = State(table: Table, log: seq<Record>)

  /** A batch selects `picked` while other replicas hold locks on `locked`. `acks`
      are the outcomes of the sends made; a batch that does not commit may stop
      anywhere, and its updates are rolled back, but not its sends. */
  datatype Step =
    | Register(id: int, event: Event, occurredAt: int)
    | Batch(locked: set<int>, picked: seq<int>, acks: seq<Ack>, commits: bool)

  const EMPTY := State(map[], [])

  ghost predicate Candidate(t: Table, locked: set<int>, id: int) {
    id in t && !t[id].published && id !in locked
  }

  /** `published_at IS NULL ORDER BY occurred_at LIMIT 100 FOR UPDATE SKIP LOCKED`. */
  ghost predicate IsBatch(t: Table, locked: set<int>, picked: seq<int>) {
    && NoDuplicates(picked) && |picked| <= POLL_BATCH
    && (forall k :: 0 <= k < |picked| ==> Candidate(t, locked, picked[k]))
    && (forall i, j :: 0 <= i < j < |picked| ==> t[picked[i]].occurredAt <= t[picked[j]].occurredAt)
    && (forall id :: Candidate(t, locked, id) && id !in picked ==>
          |picked| == POLL_BATCH && forall k :: 0 <= k < |picked| ==> t[picked[k]].occurredAt <= t[id].occurredAt)
  }

  ghost predicate Takes(s: State, step: Step) {
    match step
    case Register(id, _, _) => id !in s.table
    case Batch(locked, picked, acks, commits) =>
      IsBatch(s.table, locked, picked) && (if commits then |acks| == |picked| else |acks| <= |picked|)
  }

  // ---------------------------------------------------------------------------
  // One batch
  // ---------------------------------------------------------------------------

  /** One send: what the row becomes, and the record that the broker stores, on the topic
      of its type or, after ten failures, on the dead-letter topic. */
  lemma SendExactly(id: int, row: Row, ack: Ack)
    ensures Settled(row, ack) ==
            if ack == Acked then Row(row.event, row.occurredAt, row.attempts, true)
            else if row.attempts >= 10 then row
            else Row(row.event, row.occurredAt, row.attempts + 1, row.published)
    ensures Stored(id, row, ack) ==
            if ack == Unacked(false) then []
            else [Record(if row.attempts >= 10 then DeadLetter else TopicFor(row.event.eventType), id, row.event, ack == Acked)]
  {
  }

  /** A batch in full: every send made is in the broker's log whether it commits or not; a
      batch that commits settles each row it sent, one that does not changes no row. */
  lemma BatchExactly(s: State, locked: set<int>, picked: seq<int>, acks: seq<Ack>, commits: bool)
    requires Takes(s, Batch(locked, picked, acks, commits))
    ensures var s' := Next(s, Batch(locked, picked, acks, commits));
            && s'.table.Keys == s.table.Keys && s'.log == s.log + Sent(s.table, picked, acks)
            && (!commits ==> s'.table == s.table)
            && (commits ==> forall k :: 0 <= k < |picked| ==> s'.table[picked[k]] == Settled(s.table[picked[k]], acks[k]))
            && (commits ==> forall id :: id in s.table && id !in picked ==> s'.table[id] == s.table[id])
  {
    PickedAreCandidates(s.table, locked, picked);
    if commits {
      assert picked[..|acks|] == picked;
      forall k | 0 <= k < |picked| ensures IndexOf(picked, picked[k]) == k {
      }
    }
  }

  /** A new event waits unpublished with no attempt made. */
  lemma RegisterExactly(s: State, id: int, event: Event, at: int)
    ensures Next(s, Register(id, event, at)) ==
            if id in s.table then s else State(s.table[id := Row(event, at, 0, false)], s.log)
  {
  }

  function Target(row: Row): Topic {
    if row.Exhausted() then DeadLetter else TopicFor(row.event.eventType)
  }

  /** What the outcome of its send does to a row. */
  function Settled(row: Row, ack: Ack): Row {
    if ack.Acked? then row.(published := true)
    else if row.Exhausted() then row
    else row.(attempts := row.attempts + 1)
  }

  function Settle(t: Table, picked: seq<int>, acks: seq<Ack>): Table
    requires |acks| <= |picked|
  {
    map id | id in t :: if id in picked[..|acks|] then Settled(t[id], acks[IndexOf(picked[..|acks|], id)]) else t[id]
  }

  /** The record the broker stores for one send, if any. */
  function Stored(id: int, row: Row, ack: Ack): seq<Record> {
    if ack.Acked? || ack.stored then [Record(Target(row), id, row.event, ack.Acked?)] else []
  }

  /** The records the broker stores for the sends of a batch, in order. */
  function Sent(t: Table, picked: seq<int>, acks: seq<Ack>): seq<Record>
    requires |acks| <= |picked| && forall k :: 0 <= k < |picked| ==> picked[k] in t
  {
    if acks == [] then []
    else
      var k := |acks| - 1;
      Sent(t, picked, acks[..k]) + Stored(picked[k], t[picked[k]], acks[k])
  }

  ghost function Next(s: State, step: Step): State {
    if !Takes(s, step) then s
    else
      match step
      case Register(id, event, at) => s.(table := s.table[id := Row(event, at, 0, false)])
      case Batch(_, picked, acks, commits) =>
        State(if commits then Settle(s.table, picked, acks) else s.table, s.log + Sent(s.table, picked, acks))
  }

  ghost function Run(s: State, steps: seq<Step>): State
    decreases |steps|
  {
    if steps == [] then s else Run(Next(s, steps[0]), steps[1..])
  }

  // ---------------------------------------------------------------------------
  // The process
  // ---------------------------------------------------------------------------

  function AckCount(acks: seq<Ack>): nat {
    if acks == [] then 0
    else AckCount(acks[..|acks| - 1]) + if acks[|acks| - 1].Acked? then 1 else 0
  }

  class Publisher {
    var table: Table
    var log: seq<Record>
    var backoff: map<int, real>

    constructor ()
      ensures table == map[] && log == [] && backoff == map[]
    {
      table, log, backoff := map[], [], map[];
    }

    ghost predicate BackoffInRange()
      reads this
    {
      forall id :: id in backoff ==> 2.0 * BACKOFF_BASE_S <= backoff[id] <= BACKOFF_MAX_S
    }

    /** What the back-off of row `id` becomes after its send. */
    ghost predicate BacksOff(before: map<int, real>, after: map<int, real>, id: int, exhausted: bool, ack: Ack) {
      if ack.Acked? then after == before - {id}
      else if exhausted then after == before
      else
        var prior := if id in before then before[id] else 0.25;
        after == before[id := if prior * 2.0 > 30.0 then 30.0 else prior * 2.0]
    }

    /** The send of one row, with what follows from its outcome inside the transaction. */
    method Attempt(id: int, ack: Ack) returns (sent: bool)
      requires id in table && BackoffInRange()
      modifies this
      ensures sent == ack.Acked? && BackoffInRange()
      ensures table == old(table)[id := Counted(old(table)[id], ack)]
      ensures log == old(log) + Stored(id, old(table)[id], ack)
      ensures BacksOff(old(backoff), backoff, id, old(table)[id].attempts >= 10, ack)
    {
      var row := table[id];
      var topic := if row.attempts >= MAX_PUBLISH_ATTEMPTS then DeadLetter else TopicFor(row.event.eventType);
      if ack.Acked? || ack.stored {
        log := log + [Record(topic, id, row.event, ack.Acked?)];
      }
      sent := ack.Acked?;
      if sent {
        backoff := backoff - {id};
      } else if row.attempts < MAX_PUBLISH_ATTEMPTS {
        table := table[id := row.(attempts := row.attempts + 1)];
        var prior := if id in backoff then backoff[id] else BACKOFF_BASE_S;
        backoff := backoff[id := if prior * 2.0 <= BACKOFF_MAX_S then prior * 2.0 else BACKOFF_MAX_S];
      }
    }

    /** The transaction and the broker after the sends with outcomes `acks`. */
    ghost predicate SentSoFar(start: Table, before: seq<Record>, picked: seq<int>, acks: seq<Ack>, ids: seq<int>)
      reads this
    {
      && Picked(start, picked) && Partway(start, picked, acks, table, ids)
      && log == before + Sent(start, picked, acks)
      && BackoffInRange() && BackoffTracks(start, picked, acks, backoff.Keys)
    }

    /** One round of the loop of _process_batch. */
    method SendNext(picked: seq<int>, acks: seq<Ack>, i: nat, ids: seq<int>, ghost start: Table, ghost before: seq<Record>)
      returns (ids': seq<int>)
      requires i < |acks| <= |picked| && SentSoFar(start, before, picked, acks[..i], ids)
      modifies this
      ensures SentSoFar(start, before, picked, acks[..i + 1], ids')
    {
      UntouchedSoFar(start, picked, acks[..i], table, ids);
      PartwayStep(start, picked, acks[..i], acks[i], table, ids);
      TracksStep(start, picked, acks[..i], acks[i], backoff.Keys);
      assert acks[..i + 1] == acks[..i] + [acks[i]];
      hide Partway, BackoffTracks, BackoffInRange, Sent, Stored, Counted;
      var sent := Attempt(picked[i], acks[i]);
      ids' := if sent then ids + [picked[i]] else ids;
    }

    /** The loop of _process_batch: the ids to mark published. */
    method SendAll(picked: seq<int>, acks: seq<Ack>) returns (publishedIds: seq<int>)
      requires Picked(table, picked) && |acks| <= |picked| && BackoffInRange()
      modifies this
      ensures Partway(old(table), picked, acks, table, publishedIds) && BackoffInRange()
      ensures log == old(log) + Sent(old(table), picked, acks)
      ensures BackoffTracks(old(table), picked, acks, backoff.Keys)
    {
      ghost var start, before := table, log;
      publishedIds := [];
      NothingSent(table, picked, backoff.Keys);
      assert log == before + [] && acks[..0] == [];
      assert SentSoFar(start, before, picked, acks[..0], publishedIds);
      for i := 0 to |acks|
        invariant SentSoFar(start, before, picked, acks[..i], publishedIds)
      {
        publishedIds := SendNext(picked, acks, i, publishedIds, start, before);
      }
      assert acks[..|acks|] == acks;
    }

    /** _process_batch on the rows the SELECT returned, against the given outcomes. */
    method ProcessBatch(picked: seq<int>, acks: seq<Ack>, commits: bool, ghost locked: set<int>) returns (published: nat)
      requires Takes(State(table, log), Batch(locked, picked, acks, commits)) && BackoffInRange()
      modifies this
      ensures State(table, log) == Next(old(State(table, log)), Batch(locked, picked, acks, commits))
      ensures published == AckCount(acks)
      ensures BackoffInRange() && BackoffTracks(old(table), picked, acks, backoff.Keys)
    {
      hide IsBatch, Settle, BackoffTracks, Sent;
      PickedAreCandidates(table, locked, picked);
      var start := table;
      var publishedIds := SendAll(picked, acks);
      if commits {
        MarkedIsSettled(start, picked, acks, table, publishedIds);
        table := Marked(table, publishedIds);
      } else {
        table := start;
      }
      published := |publishedIds|;
    }
  }

  lemma NothingSent(start: Table, picked: seq<int>, keys: set<int>)
    requires forall k :: 0 <= k < |picked| ==> picked[k] in start
    ensures Partway(start, picked, [], start, []) && BackoffTracks(start, picked, [], keys) && Sent(start, picked, []) == []
  {
  }

  /** `publish_attempts` after the send, before anything is marked published. */
  function Counted(row: Row, ack: Ack): Row {
    if ack.Acked? || row.Exhausted() then row else row.(attempts := row.attempts + 1)
  }

  /** `UPDATE ... SET published_at = now() WHERE id = ANY(ids)`. */
  function Marked(t: Table, ids: seq<int>): Table {
    map id | id in t :: if id in ids then t[id].(published := true) else t[id]
  }

  ghost predicate Picked(t: Table, picked: seq<int>) {
    NoDuplicates(picked) && forall k :: 0 <= k < |picked| ==> picked[k] in t && !t[picked[k]].published
  }

  lemma PickedAreCandidates(t: Table, locked: set<int>, picked: seq<int>)
    requires IsBatch(t, locked, picked)
    ensures Picked(t, picked)
  {
  }

  /** The transaction after the sends with outcomes `acks`. */
  ghost predicate Partway(start: Table, picked: seq<int>, acks: seq<Ack>, t: Table, ids: seq<int>) {
    && |acks| <= |picked| && t.Keys == start.Keys && |ids| == AckCount(acks)
    && (forall k :: 0 <= k < |acks| ==> (picked[k] in ids <==> acks[k].Acked?))
    && (forall id :: id in ids ==> id in picked[..|acks|])
    && (forall k :: 0 <= k < |acks| ==> picked[k] in t && t[picked[k]] == Counted(start[picked[k]], acks[k]))
    && (forall id :: id in start && id !in picked[..|acks|] ==> t[id] == start[id])
  }

  /** Acknowledged rows have no back-off entry, other failed rows have one. */
  ghost predicate BackoffTracks(start: Table, picked: seq<int>, acks: seq<Ack>, keys: set<int>) {
    |acks| <= |picked| && forall k :: 0 <= k < |acks| && picked[k] in start ==>
      && (acks[k].Acked? ==> picked[k] !in keys)
      && (acks[k].Unacked? && !start[picked[k]].Exhausted() ==> picked[k] in keys)
  }

  lemma UntouchedSoFar(start: Table, picked: seq<int>, acks: seq<Ack>, t: Table, ids: seq<int>)
    requires Picked(start, picked) && Partway(start, picked, acks, t, ids) && |acks| < |picked|
    ensures var id := picked[|acks|]; id in t && t[id] == start[id] && id !in ids && id !in picked[..|acks|]
  {
  }

  lemma PartwayStep(start: Table, picked: seq<int>, acks: seq<Ack>, ack: Ack, t: Table, ids: seq<int>)
    requires Picked(start, picked) && Partway(start, picked, acks, t, ids) && |acks| < |picked|
    ensures var id := picked[|acks|];
            && Partway(start, picked, acks + [ack], t[id := Counted(t[id], ack)], if ack.Acked? then ids + [id] else ids)
            && Sent(start, picked, acks + [ack]) == Sent(start, picked, acks) + Stored(id, start[id], ack)
  {
  }

  lemma TracksStep(start: Table, picked: seq<int>, acks: seq<Ack>, ack: Ack, keys: set<int>)
    requires Picked(start, picked) && |acks| < |picked| && BackoffTracks(start, picked, acks, keys)
    ensures var id := picked[|acks|];
            BackoffTracks(start, picked, acks + [ack],
                          if ack.Acked? then keys - {id} else if start[id].Exhausted() then keys else keys + {id})
  {
  }

  /** Marking the acknowledged ids leaves exactly the settled table. */
  lemma MarkedIsSettled(start: Table, picked: seq<int>, acks: seq<Ack>, t: Table, ids: seq<int>)
    requires Picked(start, picked) && Partway(start, picked, acks, t, ids)
    ensures Marked(t, ids) == Settle(start, picked, acks)
  {
    forall id | id in start ensures Marked(t, ids)[id] == Settle(start, picked, acks)[id] {
      if id in picked[..|acks|] {
        var k := IndexOf(picked[..|acks|], id);
        assert picked[k] == id;
      }
    }
  }

  // ---------------------------------------------------------------------------
  // What every run keeps
  // ---------------------------------------------------------------------------

  /** The record carries the row's own event, on its own topic, or on the dead-letter
      topic once the row is exhausted. */
  ghost predicate OwnRecord(t: Table, r: Record) {
    && r.eventId in t && r.event == t[r.eventId].event
    && (r.topic == TopicFor(r.event.eventType) || (r.topic == DeadLetter && t[r.eventId].Exhausted()))
  }

  ghost predicate Inv(s: State) {
    && (forall id :: id in s.table ==> s.table[id].attempts <= 10)
    && (forall i :: 0 <= i < |s.log| ==> OwnRecord(s.table, s.log[i]))
  }

  /** Events never change, attempts never fall, and nothing is unpublished again. */
  ghost predicate Grows(t: Table, t': Table) {
    forall id :: id in t ==>
      && id in t' && t'[id].event == t[id].event && t'[id].occurredAt == t[id].occurredAt
      && t[id].attempts <= t'[id].attempts && (t[id].published ==> t'[id].published)
  }

  lemma NextGrows(s: State, step: Step)
    ensures Grows(s.table, Next(s, step).table)
  {
  }

  lemma {:induction false} SentIsOwn(t: Table, picked: seq<int>, acks: seq<Ack>, i: nat)
    requires |acks| <= |picked| && forall k :: 0 <= k < |picked| ==> picked[k] in t
    requires i < |Sent(t, picked, acks)|
    ensures OwnRecord(t, Sent(t, picked, acks)[i])
    decreases |acks|
  {
    var n := |acks| - 1;
    if acks != [] && i < |Sent(t, picked, acks[..n])| {
      SentIsOwn(t, picked, acks[..n], i);
    }
  }

  lemma InvStep(s: State, step: Step)
    requires Inv(s)
    ensures Inv(Next(s, step))
  {
    hide IsBatch, Sent;
    var s' := Next(s, step);
    NextGrows(s, step);
    if Takes(s, step) && step.Batch? {
      PickedAreCandidates(s.table, step.locked, step.picked);
      var sent := Sent(s.table, step.picked, step.acks);
      forall i | 0 <= i < |s'.log| ensures OwnRecord(s'.table, s'.log[i]) {
        if i >= |s.log| {
          SentIsOwn(s.table, step.picked, step.acks, i - |s.log|);
        }
        assert OwnRecord(s.table, s'.log[i]);
      }
    }
  }

  /** In every run, with any failures, rollbacks, crashes and number of replicas:
      publish_attempts never passes 10, and the broker holds nothing but the rows'
      own events, each on its own topic, or on the dead-letter topic after ten
      failures. */
  lemma {:induction false} InvRun(s: State, steps: seq<Step>)
    requires Inv(s)
    ensures Inv(Run(s, steps)) && Grows(s.table, Run(s, steps).table)
    decreases |steps|
  {
    hide Next;
    if steps != [] {
      InvStep(s, steps[0]);
      NextGrows(s, steps[0]);
      InvRun(Next(s, steps[0]), steps[1..]);
    }
  }

  // ---------------------------------------------------------------------------
  // Conservation: acknowledged sends and published rows
  // ---------------------------------------------------------------------------

  /** The acknowledged records of one event. */
  function AckedRecords(log: seq<Record>, id: int): nat {
    if log == [] then 0
    else
      var r := log[|log| - 1];
      AckedRecords(log[..|log| - 1], id) + if r.eventId == id && r.acked then 1 else 0
  }

  lemma {:induction false} AckedRecordsJoin(a: seq<Record>, b: seq<Record>, id: int)
    ensures AckedRecords(a + b, id) == AckedRecords(a, id) + AckedRecords(b, id)
    decreases |b|
  {
    if b == [] {
      assert a + b == a;
    } else {
      assert (a + b)[..|a + b| - 1] == a + b[..|b| - 1];
      AckedRecordsJoin(a, b[..|b| - 1], id);
    }
  }

  /** The acknowledged sends of one event in a batch. */
  function AcksOf(picked: seq<int>, acks: seq<Ack>, id: int): nat
    requires |acks| <= |picked|
  {
    if acks == [] then 0
    else
      var k := |acks| - 1;
      AcksOf(picked, acks[..k], id) + if picked[k] == id && acks[k].Acked? then 1 else 0
  }

  lemma {:induction false} SentAcks(t: Table, picked: seq<int>, acks: seq<Ack>, id: int)
    requires |acks| <= |picked| && forall k :: 0 <= k < |picked| ==> picked[k] in t
    ensures AckedRecords(Sent(t, picked, acks), id) == AcksOf(picked, acks, id)
    decreases |acks|
  {
    if acks != [] {
      var k := |acks| - 1;
      SentAcks(t, picked, acks[..k], id);
      AckedRecordsJoin(Sent(t, picked, acks[..k]), Stored(picked[k], t[picked[k]], acks[k]), id);
      var one := Stored(picked[k], t[picked[k]], acks[k]);
      assert one != [] ==> one[..0] == [];
    }
  }

  /** A batch sends each of its rows once. */
  lemma {:induction false} AcksOfOne(picked: seq<int>, acks: seq<Ack>, id: int)
    requires NoDuplicates(picked) && |acks| <= |picked|
    ensures id !in picked[..|acks|] ==> AcksOf(picked, acks, id) == 0
    ensures forall k :: 0 <= k < |acks| && picked[k] == id ==>
              AcksOf(picked, acks, id) == if acks[k].Acked? then 1 else 0
    decreases |acks|
  {
    if acks != [] {
      var n := |acks| - 1;
      AcksOfOne(picked, acks[..n], id);
      assert picked[..n + 1] == picked[..n] + [picked[n]];
      assert forall k :: 0 <= k < n ==> acks[..n][k] == acks[k];
    }
  }

  function IsPublished(t: Table, id: int): nat {
    if id in t && t[id].published then 1 else 0
  }

  lemma SettlePublishes(t: Table, picked: seq<int>, acks: seq<Ack>, id: int)
    requires Picked(t, picked) && |acks| <= |picked|
    ensures IsPublished(Settle(t, picked, acks), id) == IsPublished(t, id) + AcksOf(picked, acks, id)
  {
    AcksOfOne(picked, acks, id);
    if id in picked[..|acks|] {
      var k := IndexOf(picked[..|acks|], id);
      assert picked[k] == id;
    }
  }

  /** The acknowledgements a rolled-back batch throws away. */
  ghost function Wasted(s: State, step: Step, id: int): nat {
    if Takes(s, step) && step.Batch? && !step.commits then AcksOf(step.picked, step.acks, id) else 0
  }

  ghost function WastedIn(s: State, steps: seq<Step>, id: int): nat
    decreases |steps|
  {
    if steps == [] then 0 else Wasted(s, steps[0], id) + WastedIn(Next(s, steps[0]), steps[1..], id)
  }

  lemma AcksStep(s: State, step: Step, id: int)
    ensures var s' := Next(s, step);
            AckedRecords(s'.log, id) + IsPublished(s.table, id)
            == AckedRecords(s.log, id) + IsPublished(s'.table, id) + Wasted(s, step, id)
  {
    hide IsBatch, Settle, Sent, AcksOf, AckedRecords;
    if Takes(s, step) && step.Batch? {
      PickedAreCandidates(s.table, step.locked, step.picked);
      AckedRecordsJoin(s.log, Sent(s.table, step.picked, step.acks), id);
      SentAcks(s.table, step.picked, step.acks, id);
      SettlePublishes(s.table, step.picked, step.acks, id);
    }
  }

  lemma {:induction false} AcksRun(s: State, steps: seq<Step>, id: int)
    ensures var s' := Run(s, steps);
            AckedRecords(s'.log, id) + IsPublished(s.table, id)
            == AckedRecords(s.log, id) + IsPublished(s'.table, id) + WastedIn(s, steps, id)
    decreases |steps|
  {
    hide Next, AckedRecords, Wasted;
    if steps != [] {
      AcksStep(s, steps[0], id);
      AcksRun(Next(s, steps[0]), steps[1..], id);
    }
  }

  lemma {:induction false} AckedRecordExists(log: seq<Record>, id: int)
    ensures AckedRecords(log, id) > 0 <==> exists i :: 0 <= i < |log| && log[i].eventId == id && log[i].acked
  {
    if log != [] {
      var n := |log| - 1;
      AckedRecordExists(log[..n], id);
      if i :| 0 <= i < n && log[..n][i].eventId == id && log[..n][i].acked {
        assert log[i].eventId == id && log[i].acked;
      }
      if i :| 0 <= i < |log| && log[i].eventId == id && log[i].acked {
        assert i < n ==> log[..n][i] == log[i];
      }
    }
  }

  /** From an empty outbox, however batches fail, overlap and roll back: an event has
      exactly one acknowledged send if its row is published and none if it is not,
      plus one for each acknowledgement that a rolled-back batch threw away. So a row
      is marked published only after an acknowledged send of its own event. */
  lemma PublishedMeansSent(steps: seq<Step>, id: int)
    ensures var s := Run(EMPTY, steps);
            && AckedRecords(s.log, id) == IsPublished(s.table, id) + WastedIn(EMPTY, steps, id)
            && (id in s.table && s.table[id].published ==>
                  exists i :: 0 <= i < |s.log| && s.log[i].eventId == id && s.log[i].acked && OwnRecord(s.table, s.log[i]))
  {
    hide Run, WastedIn, OwnRecord;
    var s := Run(EMPTY, steps);
    AcksRun(EMPTY, steps, id);
    InvRun(EMPTY, steps);
    AckedRecordExists(s.log, id);
    if id in s.table && s.table[id].published {
      var i :| 0 <= i < |s.log| && s.log[i].eventId == id && s.log[i].acked;
      assert OwnRecord(s.table, s.log[i]);
    }
  }

  // ---------------------------------------------------------------------------
  // The outbox drains
  // ---------------------------------------------------------------------------

  /** The batches a row may still need: 11 less its attempts, none once published. */
  function Need(row: Row): nat {
    if row.published then 0 else AtLeastZero(MAX_PUBLISH_ATTEMPTS + 1 - row.attempts)
  }

  ghost function Needs(t: Table, ids: set<int>): nat
    requires ids <= t.Keys
    decreases |ids|
  {
    if ids == {} then 0
    else
      var id := Any(ids);
      Need(t[id]) + Needs(t, ids - {id})
  }

  ghost function Backlog(t: Table): nat {
    Needs(t, t.Keys)
  }

  lemma {:induction false} NeedsSplit(t: Table, ids: set<int>, id: int)
    requires ids <= t.Keys && id in ids
    ensures Needs(t, ids) == Need(t[id]) + Needs(t, ids - {id})
    decreases |ids|
  {
    var x := Any(ids);
    if x != id {
      NeedsSplit(t, ids - {x}, id);
      NeedsSplit(t, ids - {id}, x);
      assert ids - {x} - {id} == ids - {id} - {x};
    }
  }

  lemma {:induction false} NeedsSame(t: Table, t': Table, ids: set<int>)
    requires ids <= t.Keys && ids <= t'.Keys && forall id :: id in ids ==> Need(t[id]) == Need(t'[id])
    ensures Needs(t, ids) == Needs(t', ids)
    decreases |ids|
  {
    if ids != {} {
      var id := Any(ids);
      NeedsSplit(t, ids, id);
      NeedsSplit(t', ids, id);
      NeedsSame(t, t', ids - {id});
    }
  }

  lemma BacklogUpdate(t: Table, id: int, row: Row)
    ensures Backlog(t[id := row]) + (if id in t then Need(t[id]) else 0) == Backlog(t) + Need(row)
  {
    var t' := t[id := row];
    var others := t.Keys - {id};
    NeedsSplit(t', t'.Keys, id);
    assert t'.Keys - {id} == others;
    NeedsSame(t, t', others);
    if id in t {
      NeedsSplit(t, t.Keys, id);
    } else {
      assert others == t.Keys;
    }
  }

  /** What a send brings a row closer to publication by. */
  function Gain(row: Row, ack: Ack): int {
    Need(row) - Need(Settled(row, ack))
  }

  /** A send gains nothing exactly when the dead-letter topic refuses it. */
  lemma GainExactly(row: Row, ack: Ack)
    requires row.attempts <= MAX_PUBLISH_ATTEMPTS && !row.published
    ensures Gain(row, ack) >= 0
    ensures Gain(row, ack) == 0 <==> row.Exhausted() && ack.Unacked?
  {
  }

  function Gains(t: Table, picked: seq<int>, acks: seq<Ack>): int
    requires |acks| <= |picked| && forall k :: 0 <= k < |picked| ==> picked[k] in t
  {
    if acks == [] then 0
    else
      var k := |acks| - 1;
      Gains(t, picked, acks[..k]) + Gain(t[picked[k]], acks[k])
  }

  lemma SettleSnoc(t: Table, picked: seq<int>, acks: seq<Ack>)
    requires Picked(t, picked) && 0 < |acks| <= |picked|
    ensures var k := |acks| - 1;
            && Settle(t, picked, acks) == Settle(t, picked, acks[..k])[picked[k] := Settled(t[picked[k]], acks[k])]
            && Settle(t, picked, acks[..k])[picked[k]] == t[picked[k]]
  {
  }

  lemma {:induction false} BacklogSettle(t: Table, picked: seq<int>, acks: seq<Ack>)
    requires Picked(t, picked) && |acks| <= |picked|
    ensures Backlog(Settle(t, picked, acks)) + Gains(t, picked, acks) == Backlog(t)
    decreases |acks|
  {
    if acks == [] {
      assert Settle(t, picked, acks) == t;
    } else {
      var k := |acks| - 1;
      hide Settle, Backlog;
      BacklogSettle(t, picked, acks[..k]);
      SettleSnoc(t, picked, acks);
      SettleKeys(t, picked, acks[..k]);
      BacklogUpdate(Settle(t, picked, acks[..k]), picked[k], Settled(t[picked[k]], acks[k]));
    }
  }

  lemma SettleKeys(t: Table, picked: seq<int>, acks: seq<Ack>)
    requires |acks| <= |picked|
    ensures Settle(t, picked, acks).Keys == t.Keys
  {
  }

  /** The batch made a send that was not a refused dead-letter send. */
  ghost predicate Moves(t: Table, picked: seq<int>, acks: seq<Ack>)
    requires |acks| <= |picked| && forall k :: 0 <= k < |picked| ==> picked[k] in t
  {
    exists k :: 0 <= k < |acks| && !(t[picked[k]].Exhausted() && acks[k].Unacked?)
  }

  lemma {:induction false} GainsExactly(t: Table, picked: seq<int>, acks: seq<Ack>)
    requires Picked(t, picked) && |acks| <= |picked|
    requires forall k :: 0 <= k < |picked| ==> t[picked[k]].attempts <= MAX_PUBLISH_ATTEMPTS
    ensures Gains(t, picked, acks) >= 0 && (Gains(t, picked, acks) > 0 <==> Moves(t, picked, acks))
    decreases |acks|
  {
    if acks != [] {
      var n := |acks| - 1;
      GainsExactly(t, picked, acks[..n]);
      GainExactly(t[picked[n]], acks[n]);
      if Moves(t, picked, acks[..n]) {
        var k :| 0 <= k < n && !(t[picked[k]].Exhausted() && acks[..n][k].Unacked?);
        assert !(t[picked[k]].Exhausted() && acks[k].Unacked?);
      }
      if Moves(t, picked, acks) && Gain(t[picked[n]], acks[n]) == 0 {
        var k :| 0 <= k < |acks| && !(t[picked[k]].Exhausted() && acks[k].Unacked?);
        assert k < n && acks[..n][k] == acks[k];
      }
    }
  }

  /** A committed batch never increases the backlog, the sum of 11 - attempts over the
      unpublished rows, and decreases it if and only if some send was not a refused
      dead-letter send: a batch stalls only when all it holds is exhausted rows that
      the dead-letter topic refuses. */
  lemma BatchMovesExactly(s: State, locked: set<int>, picked: seq<int>, acks: seq<Ack>)
    requires Inv(s) && Takes(s, Batch(locked, picked, acks, true))
    ensures Picked(s.table, picked)
    ensures var s' := Next(s, Batch(locked, picked, acks, true));
            && Backlog(s'.table) <= Backlog(s.table)
            && (Backlog(s'.table) < Backlog(s.table) <==> Moves(s.table, picked, acks))
  {
    hide IsBatch, Settle, Backlog;
    PickedAreCandidates(s.table, locked, picked);
    BacklogSettle(s.table, picked, acks);
    PickedInRange(s, picked);
    GainsExactly(s.table, picked, acks);
  }

  ghost predicate Drained(t: Table) {
    forall id :: id in t ==> t[id].published
  }

  lemma DrainedExactly(t: Table)
    requires forall id :: id in t ==> t[id].attempts <= MAX_PUBLISH_ATTEMPTS
    ensures Backlog(t) == 0 <==> Drained(t)
  {
    forall id | id in t ensures Need(t[id]) <= Backlog(t) {
      NeedsSplit(t, t.Keys, id);
    }
    if Drained(t) {
      NothingNeeded(t, t.Keys);
    } else {
      var id :| id in t && !t[id].published;
      assert Need(t[id]) > 0;
    }
  }

  lemma {:induction false} NothingNeeded(t: Table, ids: set<int>)
    requires ids <= t.Keys && forall id :: id in ids ==> t[id].published
    ensures Needs(t, ids) == 0
    decreases |ids|
  {
    if ids != {} {
      var id := Any(ids);
      NeedsSplit(t, ids, id);
      NothingNeeded(t, ids - {id});
    }
  }

  /** A registration, or a batch on a real selection, whatever other replicas have
      locked, whose dead-letter sends are accepted if it commits. Ordinary sends fail as
      they please, and batches roll back as they please. */
  ghost predicate Polls(s: State, step: Step) {
    && Takes(s, step)
    && (step.Batch? && step.commits ==>
          forall k :: 0 <= k < |step.picked| && step.picked[k] in s.table && s.table[step.picked[k]].Exhausted() ==>
            step.acks[k].Acked?)
  }

  ghost predicate PollsRun(s: State, steps: seq<Step>)
    decreases |steps|
  {
    steps == [] || (Polls(s, steps[0]) && PollsRun(Next(s, steps[0]), steps[1..]))
  }

  function Registrations(steps: seq<Step>): nat
    decreases |steps|
  {
    if steps == [] then 0 else (if steps[0].Register? then 1 else 0) + Registrations(steps[1..])
  }

  predicate Works(step: Step) {
    step.Batch? && step.commits && step.picked != []
  }

  /** The committed batches that held a row. */
  function WorkingBatches(steps: seq<Step>): nat
    decreases |steps|
  {
    if steps == [] then 0 else (if Works(steps[0]) then 1 else 0) + WorkingBatches(steps[1..])
  }

  /** A committed batch that holds a row takes something off the backlog, and one that
      finds nothing locked holds a row unless everything is published. */
  lemma PollMoves(s: State, step: Step)
    requires Inv(s) && Polls(s, step)
    ensures var s' := Next(s, step);
            && (step.Register? ==> Backlog(s'.table) == Backlog(s.table) + 11)
            && (step.Batch? ==> Backlog(s'.table) <= Backlog(s.table))
            && (Works(step) ==> Backlog(s'.table) < Backlog(s.table))
            && (step.Batch? && step.locked == {} && Backlog(s.table) > 0 ==> step.picked != [])
  {
    if step.Register? {
      BacklogUpdate(s.table, step.id, Row(step.event, step.occurredAt, 0, false));
    } else {
      hide Backlog, Settle, Sent;
      if step.commits {
        BatchMovesExactly(s, step.locked, step.picked, step.acks);
        if step.picked != [] {
          assert !(s.table[step.picked[0]].Exhausted() && step.acks[0].Unacked?);
        }
      }
      DrainedExactly(s.table);
      if Backlog(s.table) > 0 && step.locked == {} {
        var id :| id in s.table && !s.table[id].published;
        assert Candidate(s.table, {}, id);
      }
    }
  }

  /** Every committed batch that holds a row counts, however many publishers run and
      whatever they lock: the backlog left, plus one for each such batch, is at most the
      backlog at first plus eleven for each row registered since. */
  lemma {:induction false} EveryBatchCounts(s: State, steps: seq<Step>)
    requires Inv(s) && PollsRun(s, steps)
    ensures Backlog(Run(s, steps).table) + WorkingBatches(steps) <= Backlog(s.table) + 11 * Registrations(steps)
    ensures WorkingBatches(steps) >= Backlog(s.table) + 11 * Registrations(steps) ==> Drained(Run(s, steps).table)
    decreases |steps|
  {
    hide Next, Polls, Backlog, Inv;
    if steps == [] {
      assert Inv(Run(s, steps));
    } else {
      PollMoves(s, steps[0]);
      InvStep(s, steps[0]);
      EveryBatchCounts(Next(s, steps[0]), steps[1..]);
    }
    InvRun(s, steps);
    AttemptsInRange(Run(s, steps));
    DrainedExactly(Run(s, steps).table);
  }

  /** The committed batches that held a row or found nothing locked. */
  function Rounds(steps: seq<Step>): nat
    decreases |steps|
  {
    if steps == [] then 0
    else (if Works(steps[0]) || (steps[0].Batch? && steps[0].commits && steps[0].locked == {}) then 1 else 0)
         + Rounds(steps[1..])
  }

  /** Any finite outbox drains, whichever ordinary sends fail, whatever other replicas
      lock and however often batches roll back: once as many rounds have committed as
      the backlog counted, at most eleven for each row, every row is published. */
  lemma {:induction false} OutboxDrains(s: State, steps: seq<Step>)
    requires Inv(s) && PollsRun(s, steps) && Registrations(steps) == 0
    ensures Backlog(Run(s, steps).table) <= AtLeastZero(Backlog(s.table) - Rounds(steps))
    ensures Rounds(steps) >= Backlog(s.table) ==> Drained(Run(s, steps).table)
    decreases |steps|
  {
    hide Next, Polls, Backlog, Inv;
    if steps == [] {
      assert Inv(Run(s, steps));
    } else {
      PollMoves(s, steps[0]);
      InvStep(s, steps[0]);
      OutboxDrains(Next(s, steps[0]), steps[1..]);
    }
    InvRun(s, steps);
    AttemptsInRange(Run(s, steps));
    DrainedExactly(Run(s, steps).table);
  }

  lemma AttemptsInRange(s: State)
    requires Inv(s)
    ensures forall id :: id in s.table ==> s.table[id].attempts <= MAX_PUBLISH_ATTEMPTS
  {
  }

  lemma PickedInRange(s: State, picked: seq<int>)
    requires Inv(s) && Picked(s.table, picked)
    ensures forall k :: 0 <= k < |picked| ==> s.table[picked[k]].attempts <= MAX_PUBLISH_ATTEMPTS
  {
    forall k | 0 <= k < |picked| ensures s.table[picked[k]].attempts <= MAX_PUBLISH_ATTEMPTS {
      var id := picked[k];
      assert id in s.table;
    }
  }

  lemma {:induction false} NeedsBound(t: Table, ids: set<int>)
    requires ids <= t.Keys
    ensures Needs(t, ids) <= 11 * |ids|
    decreases |ids|
  {
    if ids != {} {
      var id := Any(ids);
      NeedsSplit(t, ids, id);
      NeedsBound(t, ids - {id});
    }
  }

  /** Eleven rounds for each row are enough from any state a run can reach. */
  lemma ElevenRoundsForEachRow(before: seq<Step>, after: seq<Step>)
    requires PollsRun(Run(EMPTY, before), after) && Registrations(after) == 0
    requires Rounds(after) >= 11 * |Run(EMPTY, before).table|
    ensures Drained(Run(Run(EMPTY, before), after).table)
  {
    var s := Run(EMPTY, before);
    InvRun(EMPTY, before);
    NeedsBound(s.table, s.table.Keys);
    OutboxDrains(s, after);
  }

  // ---------------------------------------------------------------------------
  // There is always a batch to select
  // ---------------------------------------------------------------------------

  lemma {:induction false} Oldest(t: Table, ids: set<int>) returns (id: int)
    requires ids != {} && ids <= t.Keys
    ensures id in ids && forall x :: x in ids ==> t[id].occurredAt <= t[x].occurredAt
    decreases |ids|
  {
    id := Any(ids);
    if ids != {id} {
      assert ids - {id} != {};
      var other := Oldest(t, ids - {id});
      if t[other].occurredAt < t[id].occurredAt {
        id := other;
      }
    }
  }

  /** Next for a batch: one of the oldest, `id` first or last among its equals. */
  lemma NextPick(t: Table, rest: set<int>, id: int, favour: bool) returns (x: int)
    requires rest != {} && rest <= t.Keys
    ensures x in rest && forall y :: y in rest ==> t[x].occurredAt <= t[y].occurredAt
    ensures favour && id in rest && t[id].occurredAt == t[x].occurredAt ==> x == id
    ensures !favour && x == id ==> forall y :: y in rest && y != id ==> t[id].occurredAt < t[y].occurredAt
  {
    x := Oldest(t, rest);
    if favour && id in rest && t[id].occurredAt == t[x].occurredAt {
      x := id;
    } else if !favour && x == id && rest != {id} {
      assert rest - {id} != {};
      var y := Oldest(t, rest - {id});
      if t[y].occurredAt == t[id].occurredAt {
        x := y;
      }
    }
  }

  /** From every table there is a selection, and one that puts `id` first or last among
      the rows of its time. */
  lemma BatchExists(t: Table, locked: set<int>, id: int, favour: bool) returns (picked: seq<int>)
    ensures IsBatch(t, locked, picked)
    ensures favour && Candidate(t, locked, id) && id !in picked ==>
              |picked| == POLL_BATCH && forall x :: x in picked ==> t[x].occurredAt < t[id].occurredAt
    ensures !favour && id in picked ==> forall x :: x in Rivals(t, locked, id) ==> x in picked
  {
    picked := [];
    var rest := set x | x in t && Candidate(t, locked, x);
    while rest != {} && |picked| < POLL_BATCH
      invariant |picked| <= POLL_BATCH && rest <= t.Keys && NoDuplicates(picked)
      invariant forall k :: 0 <= k < |picked| ==> Candidate(t, locked, picked[k]) && picked[k] !in rest
      invariant forall x :: Candidate(t, locked, x) <==> x in rest || x in picked
      invariant forall i, j :: 0 <= i < j < |picked| ==> t[picked[i]].occurredAt <= t[picked[j]].occurredAt
      invariant forall k, x :: 0 <= k < |picked| && x in rest ==> t[picked[k]].occurredAt <= t[x].occurredAt
      invariant favour && id in rest ==> forall k :: 0 <= k < |picked| ==> t[picked[k]].occurredAt < t[id].occurredAt
      invariant !favour && id in picked ==> forall x :: x in rest ==> t[id].occurredAt < t[x].occurredAt
      decreases rest
    {
      var x := NextPick(t, rest, id, favour);
      picked, rest := picked + [x], rest - {x};
    }
  }

  /** The candidates a batch takes before `id`. */
  ghost function Elders(t: Table, locked: set<int>, id: int): set<int>
    requires id in t
  {
    set x | x in t && Candidate(t, locked, x) && t[x].occurredAt < t[id].occurredAt
  }

  /** The candidates a batch may take before `id`. */
  ghost function Rivals(t: Table, locked: set<int>, id: int): set<int>
    requires id in t
  {
    set x | x in t && Candidate(t, locked, x) && x != id && t[x].occurredAt <= t[id].occurredAt
  }

  function Elements(s: seq<int>): set<int> {
    set i | 0 <= i < |s| :: s[i]
  }

  lemma {:induction false} FewElements(s: seq<int>)
    ensures |Elements(s)| <= |s|
  {
    if s != [] {
      var n := |s| - 1;
      FewElements(s[..n]);
      assert Elements(s) == Elements(s[..n]) + {s[n]};
    }
  }

  lemma {:induction false} Cardinality(a: set<int>, b: set<int>)
    requires a <= b
    ensures |a| <= |b|
    decreases |a|
  {
    if a != {} {
      var x := Any(a);
      Cardinality(a - {x}, b - {x});
    }
  }

  lemma {:induction false} ElementCount(s: seq<int>)
    requires NoDuplicates(s)
    ensures |Elements(s)| == |s|
  {
    if s != [] {
      var n := |s| - 1;
      ElementCount(s[..n]);
      assert Elements(s) == Elements(s[..n]) + {s[n]};
    }
  }

  lemma FewWith(picked: seq<int>, others: set<int>, id: int)
    requires id in picked && id !in others && |picked| <= POLL_BATCH && forall x :: x in others ==> x in picked
    ensures |others| < POLL_BATCH
  {
    var all := others + {id};
    forall x | x in all ensures x in Elements(picked) {
      var k :| 0 <= k < |picked| && picked[k] == x;
    }
    FewElements(picked);
    Cardinality(all, Elements(picked));
  }

  lemma ManyElements(picked: seq<int>, others: set<int>)
    requires NoDuplicates(picked) && forall x :: x in picked ==> x in others
    ensures |others| >= |picked|
  {
    ElementCount(picked);
    Cardinality(Elements(picked), others);
  }

  lemma PicksAreCandidates(t: Table, locked: set<int>, picked: seq<int>)
    requires IsBatch(t, locked, picked)
    ensures NoDuplicates(picked) && |picked| <= POLL_BATCH && forall x :: x in picked ==> Candidate(t, locked, x)
  {
  }

  lemma EldersFirst(t: Table, locked: set<int>, picked: seq<int>, id: int)
    requires IsBatch(t, locked, picked) && id in picked
    ensures |picked| <= POLL_BATCH && id in t && forall x :: x in Elders(t, locked, id) ==> x in picked
  {
    var j :| 0 <= j < |picked| && picked[j] == id;
    forall x | x in Elders(t, locked, id) ensures x in picked {
      assert t[picked[j]].occurredAt > t[x].occurredAt;
    }
  }

  lemma OnlyRivals(t: Table, locked: set<int>, picked: seq<int>, id: int)
    requires IsBatch(t, locked, picked) && Candidate(t, locked, id) && id !in picked
    ensures NoDuplicates(picked) && |picked| == POLL_BATCH && forall x :: x in picked ==> x in Rivals(t, locked, id)
  {
  }

  /** A row can be selected if and only if fewer than a hundred unlocked candidates are
      older, and must be if and only if fewer than a hundred others are no younger. */
  lemma SelectedExactly(t: Table, locked: set<int>, id: int)
    requires Candidate(t, locked, id)
    ensures (exists picked :: IsBatch(t, locked, picked) && id in picked) <==> |Elders(t, locked, id)| < 100
    ensures (forall picked :: IsBatch(t, locked, picked) ==> id in picked) <==> |Rivals(t, locked, id)| < 100
  {
    hide IsBatch;
    var first := BatchExists(t, locked, id, true);
    var last := BatchExists(t, locked, id, false);
    if id !in first {
      ManyElements(first, Elders(t, locked, id)) by { PicksAreCandidates(t, locked, first); }
    }
    if id in last {
      FewWith(last, Rivals(t, locked, id), id);
    }
    forall picked | IsBatch(t, locked, picked) && id in picked ensures |Elders(t, locked, id)| < POLL_BATCH {
      EldersFirst(t, locked, picked, id);
      FewWith(picked, Elders(t, locked, id), id);
    }
    forall picked | IsBatch(t, locked, picked) && id !in picked ensures |Rivals(t, locked, id)| >= POLL_BATCH {
      OnlyRivals(t, locked, picked, id);
      ManyElements(picked, Rivals(t, locked, id));
    }
  }

  // ---------------------------------------------------------------------------
  // Why the dead-letter topic must accept
  // ---------------------------------------------------------------------------

  /** A hundred exhausted rows, all older than `id`. */
  ghost predicate Blocked(t: Table, poison: set<int>, id: int) {
    && |poison| == POLL_BATCH && id in t && !t[id].published && id !in poison
    && forall x :: x in poison ==> x in t && t[x].Exhausted() && !t[x].published && t[x].occurredAt < t[id].occurredAt
  }

  /** No other replica holds the exhausted rows, and the dead-letter topic refuses them. */
  ghost predicate Refuses(poison: set<int>, step: Step) {
    step.Batch? ==>
      && step.locked !! poison
      && forall k :: 0 <= k < |step.acks| && k < |step.picked| && step.picked[k] in poison ==> step.acks[k].Unacked?
  }

  lemma CrowdedOut(t: Table, locked: set<int>, picked: seq<int>, poison: set<int>, id: int)
    requires IsBatch(t, locked, picked) && Blocked(t, poison, id) && locked !! poison
    ensures id !in picked
  {
    if id in picked {
      EldersFirst(t, locked, picked, id);
      forall x | x in poison ensures x in Elders(t, locked, id) {
        assert Candidate(t, locked, x);
      }
      Cardinality(poison, Elders(t, locked, id));
      FewWith(picked, Elders(t, locked, id), id);
    }
  }

  lemma {:induction false} SentOnlyPicked(t: Table, picked: seq<int>, acks: seq<Ack>, i: nat)
    requires |acks| <= |picked| && forall k :: 0 <= k < |picked| ==> picked[k] in t
    requires i < |Sent(t, picked, acks)|
    ensures Sent(t, picked, acks)[i].eventId in picked
    decreases |acks|
  {
    var n := |acks| - 1;
    if acks != [] && i < |Sent(t, picked, acks[..n])| {
      SentOnlyPicked(t, picked, acks[..n], i);
    }
  }

  lemma BlockedStays(t: Table, picked: seq<int>, acks: seq<Ack>, poison: set<int>, id: int)
    requires |acks| <= |picked| && NoDuplicates(picked) && Blocked(t, poison, id) && id !in picked
    requires forall k :: 0 <= k < |acks| && picked[k] in poison ==> acks[k].Unacked?
    ensures Blocked(Settle(t, picked, acks), poison, id)
  {
  }

  lemma BlockedStep(s: State, step: Step, poison: set<int>, id: int)
    requires Blocked(s.table, poison, id) && Refuses(poison, step)
    ensures var s' := Next(s, step);
            && Blocked(s'.table, poison, id)
            && s.log <= s'.log && forall i :: |s.log| <= i < |s'.log| ==> s'.log[i].eventId != id
  {
    if Takes(s, step) && step.Batch? {
      CrowdedOut(s.table, step.locked, step.picked, poison, id);
      PickedAreCandidates(s.table, step.locked, step.picked);
      BlockedStays(s.table, step.picked, step.acks, poison, id);
      hide IsBatch, Settle, Blocked, Sent;
      var s' := Next(s, step);
      forall i | |s.log| <= i < |s'.log| ensures s'.log[i].eventId != id {
        SentOnlyPicked(s.table, step.picked, step.acks, i - |s.log|);
      }
    }
  }

  /** While the dead-letter topic refuses a hundred exhausted rows, no younger row is
      ever sent, whatever else happens: the queue can stall for as long as that. */
  lemma {:induction false} YoungerRowsStarve(s: State, steps: seq<Step>, poison: set<int>, id: int)
    requires Blocked(s.table, poison, id) && forall i :: 0 <= i < |steps| ==> Refuses(poison, steps[i])
    ensures var s' := Run(s, steps);
            && id in s'.table && !s'.table[id].published
            && s.log <= s'.log && forall i :: |s.log| <= i < |s'.log| ==> s'.log[i].eventId != id
    decreases |steps|
  {
    hide Next, Refuses;
    if steps != [] {
      BlockedStep(s, steps[0], poison, id);
      YoungerRowsStarve(Next(s, steps[0]), steps[1..], poison, id);
    }
  }

  // ---------------------------------------------------------------------------
  // A run that gets there
  // ---------------------------------------------------------------------------

  /** Rows 0..n-1, registered in this order, the first hundred after `failures` failed sends. */
  function Queue(event: Event, n: nat, failures: nat): (t: Table)
    ensures forall i :: i in t <==> 0 <= i < n
    ensures forall i :: i in t ==> t[i] == Row(event, i, if i < POLL_BATCH then failures else 0, false)
  {
    if n == 0 then map[]
    else Queue(event, n - 1, failures)[n - 1 := Row(event, n - 1, if n - 1 < POLL_BATCH then failures else 0, false)]
  }

  function FirstHundred(): seq<int> {
    seq(POLL_BATCH, i => i)
  }

  /** A batch while the broker is out. */
  function Outage(): Step {
    Batch({}, FirstHundred(), seq(POLL_BATCH, i => Unacked(false)), true)
  }

  lemma {:induction false} RunAppend(s: State, steps: seq<Step>, more: seq<Step>)
    ensures Run(s, steps + more) == Run(Run(s, steps), more)
    decreases |steps|
  {
    if steps == [] {
      assert steps + more == more;
    } else {
      assert (steps + more)[1..] == steps[1..] + more;
      RunAppend(Next(s, steps[0]), steps[1..], more);
    }
  }

  lemma RunOne(s: State, step: Step)
    ensures Run(s, [step]) == Next(s, step)
  {
  }

  lemma {:induction false} Registers(event: Event, n: nat) returns (steps: seq<Step>)
    ensures Run(EMPTY, steps) == State(Queue(event, n, 0), [])
  {
    if n == 0 {
      steps := [];
    } else {
      var before := Registers(event, n - 1);
      var last := [Register(n - 1, event, n - 1)];
      steps := before + last;
      RunAppend(EMPTY, before, last);
      RunOne(State(Queue(event, n - 1, 0), []), last[0]);
    }
  }

  lemma {:induction false} NothingStored(t: Table, picked: seq<int>, acks: seq<Ack>)
    requires |acks| <= |picked| && forall k :: 0 <= k < |picked| ==> picked[k] in t
    requires forall k :: 0 <= k < |acks| ==> acks[k] == Unacked(false)
    ensures Sent(t, picked, acks) == []
    decreases |acks|
  {
    if acks != [] {
      NothingStored(t, picked, acks[..|acks| - 1]);
    }
  }

  lemma OutageFails(event: Event, failures: nat)
    requires failures < MAX_PUBLISH_ATTEMPTS
    ensures Next(State(Queue(event, 101, failures), []), Outage()) == State(Queue(event, 101, failures + 1), [])
  {
    var t, picked, acks := Queue(event, 101, failures), FirstHundred(), seq(POLL_BATCH, i => Unacked(false));
    forall id | 0 <= id < POLL_BATCH ensures id in picked {
      assert picked[id] == id;
    }
    assert IsBatch(t, {}, picked);
    NothingStored(t, picked, acks);
    OutageSettles(event, failures);
  }

  lemma OutageSettles(event: Event, failures: nat)
    requires failures < MAX_PUBLISH_ATTEMPTS
    ensures Settle(Queue(event, 101, failures), FirstHundred(), seq(POLL_BATCH, i => Unacked(false))) == Queue(event, 101, failures + 1)
  {
    var picked, acks := FirstHundred(), seq(POLL_BATCH, i => Unacked(false));
    var t, t' := Queue(event, 101, failures), Queue(event, 101, failures + 1);
    assert picked[..|acks|] == picked;
    forall id | id in t ensures Settle(t, picked, acks)[id] == t'[id] {
      if id < POLL_BATCH {
        assert picked[id] == id;
        assert acks[IndexOf(picked, id)] == Unacked(false);
      }
    }
  }

  lemma {:induction false} Outages(event: Event, n: nat) returns (steps: seq<Step>)
    requires n <= MAX_PUBLISH_ATTEMPTS
    ensures Run(EMPTY, steps) == State(Queue(event, 101, n), [])
  {
    hide Next, Queue, Outage;
    if n == 0 {
      steps := Registers(event, 101);
    } else {
      var before := Outages(event, n - 1);
      steps := before + [Outage()];
      RunAppend(EMPTY, before, [Outage()]);
      OutageFails(event, n - 1);
      RunOne(State(Queue(event, 101, n - 1), []), Outage());
    }
  }

  /** A hundred and one registrations and ten committed batches during an outage of the
      broker reach such a state, with row 100 behind a hundred exhausted rows. */
  lemma StarvationReached(event: Event) returns (steps: seq<Step>)
    ensures Blocked(Run(EMPTY, steps).table, Elements(FirstHundred()), 100)
  {
    steps := Outages(event, MAX_PUBLISH_ATTEMPTS);
    ElementCount(FirstHundred());
    hide Run;
  }
}
