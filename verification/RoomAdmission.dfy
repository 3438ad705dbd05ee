/** Room admission: a Redis seat counter in front of the participants table
    (backend/app/services/room_service.py, backend/app/cache/redis.py). */
module RoomAdmission {

  /** One room. `rows` maps each lower-cased nickname in room_participants to
      whether it was kicked; `joining` holds joins that were given a seat and have
      not reached their INSERT; `failed` counts joins refused by the nickname index
      that still owe a release; `counts` holds the values that some replica is
      about to write over the counter. */
  datatype Room = Room(counter: nat, rows: map<string, bool>, joining: multiset<string>, failed: nat, counts: multiset<nat>)

  datatype Step =
    | Admit(nickname: string)
    | Insert(nickname: string)
    | Release
    | Kick(nickname: string)
    | CrashJoin(nickname: string)
    | CrashRelease
    | ReadCount
    | WriteCount(count: nat)

  /** create_room commits the room before it seeds the counter with 0. */
  const CREATED := Room(0, map[], multiset{}, 0, multiset{0})

  ghost function ActiveSet(rows: map<string, bool>): set<string> {
    set n | n in rows && !rows[n]
  }

  function Active(rows: map<string, bool>): nat {
    |set n | n in rows && !rows[n]|
  }

  function InFlight(r: Room): nat {
    |r.joining| + r.failed
  }

  function Seats(r: Room): nat {
    Active(r.rows) + InFlight(r)
  }

  /** The atomic steps; one that is not enabled changes nothing. */
  function Apply(r: Room, max: nat, step: Step): Room {
    match step
    case Admit(n) =>
      if r.counter >= max then r
      else r.(counter := r.counter + 1, joining := r.joining + multiset{n})
    case Insert(n) =>
      if n !in r.joining then r
      else if n in r.rows then r.(joining := r.joining - multiset{n}, failed := r.failed + 1)
      else r.(joining := r.joining - multiset{n}, rows := r.rows[n := false])
    case Release =>
      if r.failed == 0 then r
      else r.(failed := r.failed - 1, counter := if r.counter <= 0 then 0 else r.counter - 1)
    case Kick(n) =>
      if n !in r.rows then r else r.(rows := r.rows[n := true])
    case CrashJoin(n) =>
      if n !in r.joining then r else r.(joining := r.joining - multiset{n})
    case CrashRelease =>
      if r.failed == 0 then r else r.(failed := r.failed - 1)
    case ReadCount => r.(counts := r.counts + multiset{Active(r.rows)})
    case WriteCount(c) =>
      if c !in r.counts then r else r.(counter := c, counts := r.counts - multiset{c})
  }

  function Run(r: Room, max: nat, steps: seq<Step>): Room
    decreases |steps|
  {
    if steps == [] then r else Run(Apply(r, max, steps[0]), max, steps[1..])
  }

  /** The state that the replicas share, updated in place by the handlers. */
  class Shared {
    const maxPlayers: nat
    var counter: nat
    var rows: map<string, bool>
    var joining: multiset<string>
    var failed: nat
    var counts: multiset<nat>

    function State(): Room
      reads this
    {
      Room(counter, rows, joining, failed, counts)
    }

    constructor (maxPlayers: nat)
      ensures State() == CREATED && this.maxPlayers == maxPlayers
    {
      this.maxPlayers := maxPlayers;
      counter, rows, joining, failed, counts := 0, map[], multiset{}, 0, multiset{0};
    }

    /** The admit script: the new count, or -1 when the room is full. */
    method AdmitScript() returns (newCount: int)
      modifies this`counter
      ensures newCount == -1 <==> old(counter) >= maxPlayers
      ensures counter == if newCount == -1 then old(counter) else old(counter) + 1
      ensures newCount != -1 ==> newCount == counter
    {
      if counter >= maxPlayers {
        return -1;
      }
      counter := counter + 1;
      return counter;
    }

    /** The release script: a decrement floored at 0. */
    method ReleaseScript() returns (newCount: nat)
      modifies this`counter
      ensures newCount == counter == if old(counter) == 0 then 0 else old(counter) - 1
    {
      if counter <= 0 {
        return 0;
      }
      counter := counter - 1;
      return counter;
    }

    /** join_room up to the admission: false is ROOM_FULL. */
    method BeginJoin(nickname: string) returns (admitted: bool)
      modifies this
      ensures State() == Apply(old(State()), maxPlayers, Admit(nickname))
      ensures admitted <==> old(counter) < maxPlayers
    {
      var newCount := AdmitScript();
      admitted := newCount != -1;
      if admitted {
        joining := joining + multiset{nickname};
      }
    }

    /** The INSERT of an admitted join: false is a duplicate nickname, rolled back. */
    method InsertParticipant(nickname: string) returns (inserted: bool)
      requires nickname in joining
      modifies this
      ensures State() == Apply(old(State()), maxPlayers, Insert(nickname))
      ensures inserted <==> nickname !in old(rows)
    {
      joining := joining - multiset{nickname};
      inserted := nickname !in rows;
      if inserted {
        rows := rows[nickname := false];
      } else {
        failed := failed + 1;
      }
    }

    /** The compensating release of a join that was rolled back. */
    method ReleaseSeat()
      requires failed > 0
      modifies this
      ensures State() == Apply(old(State()), maxPlayers, Release)
    {
      failed := failed - 1;
      var _ := ReleaseScript();
    }

    method KickParticipant(nickname: string)
      requires nickname in rows
      modifies this
      ensures State() == Apply(old(State()), maxPlayers, Kick(nickname))
    {
      rows := rows[nickname := true];
    }

    /** build_snapshot's rebuild from the table, before its write to Redis. */
    method CountParticipants() returns (count: nat)
      modifies this
      ensures State() == Apply(old(State()), maxPlayers, ReadCount) && count in counts
      ensures count == Active(rows)
    {
      count := |set n | n in rows && !rows[n]|;
      counts := counts + multiset{count};
    }

    method SeedCounter(count: nat)
      requires count in counts
      modifies this
      ensures State() == Apply(old(State()), maxPlayers, WriteCount(count))
    {
      counter := count;
      counts := counts - multiset{count};
    }
  }

  /** Each step in full. A room starts empty, its counter still to be written. */
  lemma StepsExactly(r: Room, max: nat, n: string, c: nat)
    ensures CREATED == Room(0, map[], multiset{}, 0, multiset{0})
    ensures Apply(r, max, Admit(n)) == if r.counter < max then r.(counter := r.counter + 1, joining := r.joining + multiset{n}) else r
    ensures Apply(r, max, Insert(n)) ==
            if n !in r.joining then r
            else if n in r.rows then r.(joining := r.joining - multiset{n}, failed := r.failed + 1)
            else r.(joining := r.joining - multiset{n}, rows := r.rows[n := false])
    ensures Apply(r, max, Release) ==
            if r.failed == 0 then r else r.(failed := r.failed - 1, counter := if r.counter == 0 then 0 else r.counter - 1)
    ensures Apply(r, max, Kick(n)) == if n in r.rows then r.(rows := r.rows[n := true]) else r
    ensures Apply(r, max, CrashJoin(n)) == if n in r.joining then r.(joining := r.joining - multiset{n}) else r
    ensures Apply(r, max, CrashRelease) == if r.failed > 0 then r.(failed := r.failed - 1) else r
    ensures Apply(r, max, ReadCount) == r.(counts := r.counts + multiset{|ActiveSet(r.rows)|})
    ensures Apply(r, max, WriteCount(c)) == if c in r.counts then r.(counter := c, counts := r.counts - multiset{c}) else r
  {
  }

  // ---------------------------------------------------------------------------
  // How each step changes the seats
  // ---------------------------------------------------------------------------

  /** The seat a step takes; crashed joins and kicked players give theirs up. */
  function SeatChange(r: Room, max: nat, step: Step): int {
    match step
    case Admit(_) => if r.counter < max then 1 else 0
    case Release => if r.failed > 0 then -1 else 0
    case _ => 0 - Phantoms(r, step)
  }

  /** 1 when the step leaves a seat counted that nobody holds any more. */
  function Phantoms(r: Room, step: Step): nat {
    match step
    case Kick(n) => if n in r.rows && !r.rows[n] then 1 else 0
    case CrashJoin(n) => if n in r.joining then 1 else 0
    case CrashRelease => if r.failed > 0 then 1 else 0
    case _ => 0
  }

  lemma ActiveAfterInsert(rows: map<string, bool>, n: string)
    requires n !in rows
    ensures Active(rows[n := false]) == Active(rows) + 1
  {
    assert ActiveSet(rows[n := false]) == ActiveSet(rows) + {n};
  }

  lemma ActiveAfterKick(rows: map<string, bool>, n: string)
    requires n in rows
    ensures Active(rows[n := true]) == Active(rows) - if rows[n] then 0 else 1
  {
    assert ActiveSet(rows[n := true]) == ActiveSet(rows) - {n};
    assert ActiveSet(rows) == if rows[n] then ActiveSet(rows) - {n} else ActiveSet(rows) - {n} + {n};
  }

  lemma SeatsAfter(r: Room, max: nat, step: Step)
    ensures Seats(Apply(r, max, step)) == Seats(r) + SeatChange(r, max, step)
  {
    match step
    case Insert(n) =>
      if n in r.joining && n !in r.rows {
        ActiveAfterInsert(r.rows, n);
      }
    case Kick(n) =>
      if n in r.rows {
        ActiveAfterKick(r.rows, n);
      }
    case _ =>
  }

  // ---------------------------------------------------------------------------
  // The room is never over capacity
  // ---------------------------------------------------------------------------

  /** Active participants plus seats in flight are within the counter, and the
      counter within the room's size. */
  ghost predicate Capacity(r: Room, max: nat) {
    Seats(r) <= r.counter <= max
  }

  /** No re-seed mid-join: the count is read with no join in flight, and no join
      starts before it is written. */
  ghost predicate Apart(r: Room, step: Step) {
    && (step.Admit? ==> r.counts == multiset{})
    && (step.ReadCount? ==> InFlight(r) == 0)
  }

  ghost predicate ApartRun(r: Room, max: nat, steps: seq<Step>)
    decreases |steps|
  {
    steps == [] || (Apart(r, steps[0]) && ApartRun(Apply(r, max, steps[0]), max, steps[1..]))
  }

  ghost predicate Held(r: Room, max: nat) {
    && Capacity(r, max)
    && (r.counts != multiset{} ==> InFlight(r) == 0)
    && (forall c :: c in r.counts ==> Active(r.rows) <= c <= max)
  }

  lemma HeldStep(r: Room, max: nat, step: Step)
    requires Held(r, max) && Apart(r, step)
    ensures Held(Apply(r, max, step), max)
  {
    hide Active;
    var r' := Apply(r, max, step);
    SeatsAfter(r, max, step);
    if step.WriteCount? && step.count in r.counts {
      assert Active(r.rows) <= step.count <= max;
    }
    if step.Kick? && step.nickname in r.rows {
      ActiveAfterKick(r.rows, step.nickname);
    }
    forall c | c in r'.counts ensures Active(r'.rows) <= c <= max {
      assert c in r.counts || c == Active(r.rows);
    }
  }

  lemma {:induction false} HeldRun(r: Room, max: nat, steps: seq<Step>)
    requires Held(r, max) && ApartRun(r, max, steps)
    ensures Held(Run(r, max, steps), max)
    decreases |steps|
  {
    if steps != [] {
      HeldStep(r, max, steps[0]);
      HeldRun(Apply(r, max, steps[0]), max, steps[1..]);
    }
  }

  lemma CreatedIsHeld(r: Room, max: nat)
    requires r.counter == 0 && r.rows == map[] && r.joining == multiset{} && r.failed == 0 && r.counts == multiset{0}
    ensures Held(r, max)
  {
  }

  /** In every interleaving of joins, rollbacks, kicks and crashes with no re-seed
      mid-join, the room is never over capacity, and no release is ever floored. */
  lemma NeverOverCapacity(max: nat, steps: seq<Step>)
    requires ApartRun(CREATED, max, steps)
    ensures var r := Run(CREATED, max, steps);
            && Active(r.rows) + InFlight(r) <= r.counter <= max
            && (r.failed > 0 ==> Apply(r, max, Release).counter == r.counter - 1)
  {
    hide Run, ApartRun, Active;
    CreatedIsHeld(CREATED, max);
    HeldRun(CREATED, max, steps);
  }

  // ---------------------------------------------------------------------------
  // Which re-seeds are safe
  // ---------------------------------------------------------------------------

  /** A re-seed writes at least the seats taken at that moment. */
  ghost predicate Covers(r: Room, step: Step) {
    step.WriteCount? && step.count in r.counts ==> Seats(r) <= step.count
  }

  ghost predicate CoveredRun(r: Room, max: nat, steps: seq<Step>)
    decreases |steps|
  {
    steps == [] || (Covers(r, steps[0]) && CoveredRun(Apply(r, max, steps[0]), max, steps[1..]))
  }

  ghost predicate Covered(r: Room, max: nat) {
    Capacity(r, max) && forall c :: c in r.counts ==> c <= max
  }

  lemma CoveredStep(r: Room, max: nat, step: Step)
    requires Covered(r, max) && Covers(r, step)
    ensures Covered(Apply(r, max, step), max)
  {
    hide Active;
    SeatsAfter(r, max, step);
    forall c | c in Apply(r, max, step).counts ensures c <= max {
      assert c in r.counts || c == Active(r.rows);
    }
  }

  /** However re-seeds and joins overlap, a room whose re-seeds each write at least the
      seats then taken is never over capacity. */
  lemma {:induction false} CoveredNeverOverCapacity(r: Room, max: nat, steps: seq<Step>)
    requires Covered(r, max) && CoveredRun(r, max, steps)
    ensures Covered(Run(r, max, steps), max) && Active(Run(r, max, steps).rows) <= max
    decreases |steps|
  {
    if steps != [] {
      CoveredStep(r, max, steps[0]);
      CoveredNeverOverCapacity(Apply(r, max, steps[0]), max, steps[1..]);
    }
  }

  ghost predicate NoReseed(steps: seq<Step>) {
    forall s :: s in steps ==> !s.WriteCount?
  }

  /** No continuation without another re-seed overfills the room. */
  ghost predicate StaysWithin(r: Room, max: nat) {
    forall steps :: NoReseed(steps) ==> Active(Run(r, max, steps).rows) <= max
  }

  /** A re-seed is safe for every continuation if and only if it writes at least the
      seats taken when it is written, however stale the count. */
  lemma ReseedSafeExactly(r: Room, max: nat, c: nat)
    requires Capacity(r, max) && c in r.counts
    ensures StaysWithin(Apply(r, max, WriteCount(c)), max) <==> Seats(r) <= c
  {
    var r1 := Apply(r, max, WriteCount(c));
    SeatsAfter(r, max, WriteCount(c));
    if Seats(r) <= c {
      forall steps | NoReseed(steps) ensures Active(Run(r1, max, steps).rows) <= max {
        WithinRun(r1, max, steps);
      }
    } else {
      var steps := Overfill(r1, max);
      assert !StaysWithin(r1, max);
    }
  }

  /** Seats within the room and within the counter stay so until the next re-seed. */
  lemma {:induction false} WithinRun(r: Room, max: nat, steps: seq<Step>)
    requires Seats(r) <= max && Seats(r) <= r.counter && NoReseed(steps)
    ensures Active(Run(r, max, steps).rows) <= max
    decreases |steps|
  {
    if steps != [] {
      assert steps[0] in steps;
      SeatsAfter(r, max, steps[0]);
      WithinRun(Apply(r, max, steps[0]), max, steps[1..]);
    }
  }

  lemma {:induction false} LengthBound(names: set<string>) returns (n: nat)
    ensures forall s :: s in names ==> |s| < n
    decreases |names|
  {
    n := 0;
    if names != {} {
      var s :| s in names;
      n := LengthBound(names - {s});
      n := if |s| < n then n else |s| + 1;
    }
  }

  lemma NewName(rows: map<string, bool>) returns (name: string)
    ensures name !in rows
  {
    var n := LengthBound(rows.Keys);
    name := seq(n, i => 'x');
    assert |name| == n;
  }

  lemma RunMore(r: Room, max: nat, step: Step, steps: seq<Step>)
    ensures Run(r, max, [step] + steps) == Run(Apply(r, max, step), max, steps)
  {
  }

  /** Whenever the counter is short of the seats taken, ordinary joins overfill the
      room: those in flight settle, and newcomers take every seat the counter shows. */
  lemma {:induction false} Overfill(r: Room, max: nat) returns (steps: seq<Step>)
    requires r.counter < Seats(r) && r.counter <= max && max > 0
    ensures NoReseed(steps) && Active(Run(r, max, steps).rows) > max
    decreases |r.joining|, r.failed, max - r.counter
  {
    hide Run, Active;
    if r.joining != multiset{} {
      var n :| n in r.joining;
      SeatsAfter(r, max, Insert(n));
      steps := Overfill(Apply(r, max, Insert(n)), max);
      RunMore(r, max, Insert(n), steps);
      steps := [Insert(n)] + steps;
    } else if r.failed > 0 && r.counter > 0 {
      SeatsAfter(r, max, Release);
      steps := Overfill(Apply(r, max, Release), max);
      RunMore(r, max, Release, steps);
      steps := [Release] + steps;
    } else if r.counter < max {
      var n := NewName(r.rows);
      var joined := r.(counter := r.counter + 1, rows := r.rows[n := false]);
      ActiveAfterInsert(r.rows, n);
      steps := Overfill(joined, max);
      var all := [Admit(n), Insert(n)] + steps;
      RunJoin(r, max, all, n);
      assert all[2..] == steps;
      steps := all;
    } else {
      steps := [];
      RunNone(r, max);
    }
  }

  /** Two joins that complete between the read and the write of a re-seed leave a
      room of two with three players. */
  lemma StaleReseedOverfills()
    ensures var steps := [WriteCount(0), ReadCount, Admit("a"), Insert("a"), Admit("b"), Insert("b"), WriteCount(0), Admit("c"), Insert("c")];
            Active(Run(CREATED, 2, steps).rows) == 3
  {
    hide Run, Active;
    var steps := [WriteCount(0), ReadCount, Admit("a"), Insert("a"), Admit("b"), Insert("b"), WriteCount(0), Admit("c"), Insert("c")];
    EmptyRoom();
    RunTwo(CREATED, 2, steps);
    var s2 := Room(0, map[], multiset{}, 0, multiset{0});
    assert Apply(Apply(CREATED, 2, WriteCount(0)), 2, ReadCount) == s2;
    RunJoin(s2, 2, steps[2..], "a");
    var s4 := Room(1, map["a" := false], multiset{}, 0, multiset{0});
    RunJoin(s4, 2, steps[4..], "b");
    var s6 := Room(2, map["a" := false, "b" := false], multiset{}, 0, multiset{0});
    RunOne(s6, 2, steps[6..]);
    var s7 := Room(0, map["a" := false, "b" := false], multiset{}, 0, multiset{});
    assert Apply(s6, 2, WriteCount(0)) == s7;
    RunJoin(s7, 2, steps[7..], "c");
    var s9 := Room(1, map["a" := false, "b" := false, "c" := false], multiset{}, 0, multiset{});
    assert steps[2..][2..] == steps[4..] && steps[4..][2..] == steps[6..] && steps[6..][1..] == steps[7..] && steps[7..][2..] == [];
    assert s7.rows["c" := false] == s9.rows;
    RunNone(s9, 2);
    ThreePlayers();
  }

  lemma EmptyRoom()
    ensures Active(map[]) == 0
  {
  }

  lemma ThreePlayers()
    ensures Active(map["a" := false, "b" := false, "c" := false]) == 3
  {
    assert ActiveSet(map["a" := false, "b" := false, "c" := false]) == {"a", "b", "c"};
  }

  /** A join with nothing else in flight, from its admission to its INSERT. */
  lemma RunJoin(r: Room, max: nat, steps: seq<Step>, n: string)
    requires |steps| >= 2 && steps[0] == Admit(n) && steps[1] == Insert(n)
    requires r.counter < max && r.joining == multiset{} && n !in r.rows
    ensures Run(r, max, steps) == Run(r.(counter := r.counter + 1, rows := r.rows[n := false]), max, steps[2..])
  {
    hide Run;
    RunTwo(r, max, steps);
    assert Apply(r, max, Admit(n)).joining - multiset{n} == multiset{};
  }

  lemma RunNone(r: Room, max: nat)
    ensures Run(r, max, []) == r
  {
  }

  lemma RunOne(r: Room, max: nat, steps: seq<Step>)
    requires steps != []
    ensures Run(r, max, steps) == Run(Apply(r, max, steps[0]), max, steps[1..])
  {
  }

  lemma RunTwo(r: Room, max: nat, steps: seq<Step>)
    requires |steps| >= 2
    ensures Run(r, max, steps) == Run(Apply(Apply(r, max, steps[0]), max, steps[1]), max, steps[2..])
  {
  }

  // ---------------------------------------------------------------------------
  // Conservation: what the counter counts
  // ---------------------------------------------------------------------------

  /** The seats left counted over a run, one for each kick and each crash. */
  function PhantomSeats(r: Room, max: nat, steps: seq<Step>): nat
    decreases |steps|
  {
    if steps == [] then 0
    else Phantoms(r, steps[0]) + PhantomSeats(Apply(r, max, steps[0]), max, steps[1..])
  }

  /** Until the next re-seed the counter is exactly the seats taken plus one for
      each kick and each crash: it never drifts otherwise. */
  lemma {:induction false} SeatsConserved(r: Room, max: nat, steps: seq<Step>)
    requires Seats(r) <= r.counter && NoReseed(steps)
    ensures var r' := Run(r, max, steps);
            r'.counter - Seats(r') == r.counter - Seats(r) + PhantomSeats(r, max, steps)
    decreases |steps|
  {
    if steps != [] {
      var step := steps[0];
      assert step in steps;
      SeatsAfter(r, max, step);
      SeatsConserved(Apply(r, max, step), max, steps[1..]);
    }
  }

  /** A join is told ROOM_FULL if and only if the seats taken and the seats lost to
      kicks and crashes since the counter was last exact fill the room. */
  lemma FullExactly(r: Room, max: nat, steps: seq<Step>, nickname: string)
    requires r.counter == Seats(r) && NoReseed(steps)
    ensures var r' := Run(r, max, steps);
            Apply(r', max, Admit(nickname)) == r' <==> Seats(r') + PhantomSeats(r, max, steps) >= max
  {
    hide Run, PhantomSeats;
    SeatsConserved(r, max, steps);
  }
}
