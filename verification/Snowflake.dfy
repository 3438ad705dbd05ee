/** The id generator (backend/app/core/ids/snowflake.py), against an arbitrary clock. */
module Snowflake {
  import opened Common

  const MAX_WORKER_ID := 1023
  const SEQUENCE_MASK := 4095
  const TWO_TO_41 := 0x200_0000_0000
  const TWO_TO_63 := 0x8000_0000_0000_0000

  // ---------------------------------------------------------------------------
  // Bit operations on unbounded integers (the right operand never negative)
  // ---------------------------------------------------------------------------

  function Pow2(k: nat): (r: nat)
    ensures r >= 1
  {
    if k == 0 then 1 else 2 * Pow2(k - 1)
  }

  function ShiftLeft(a: int, k: nat): int {
    a * Pow2(k)
  }

  /** Python's arithmetic shift rounds towards minus infinity, as `/` does here. */
  function ShiftRight(a: int, k: nat): int {
    a / Pow2(k)
  }

  function BitOr(a: int, b: nat): int
    decreases b
  {
    if b == 0 then a
    else (if a % 2 == 1 || b % 2 == 1 then 1 else 0) + 2 * BitOr(a / 2, b / 2)
  }

  function BitAnd(a: int, b: nat): int
    decreases b
  {
    if b == 0 then 0
    else (if a % 2 == 1 && b % 2 == 1 then 1 else 0) + 2 * BitAnd(a / 2, b / 2)
  }

  /** Or-ing a value below 2^k into a multiple of 2^k adds it. */
  lemma {:induction false} OrFillsLowBits(a: int, b: nat, k: nat)
    requires b < Pow2(k)
    ensures BitOr(a * Pow2(k), b) == a * Pow2(k) + b
    decreases k
  {
    if k > 0 && b > 0 {
      var half := a * Pow2(k - 1);
      assert a * Pow2(k) == 2 * half;
      OrFillsLowBits(a, b / 2, k - 1);
    }
  }

  /** And-ing with 2^k - 1 keeps the low k bits. */
  lemma {:induction false} AndKeepsLowBits(a: int, k: nat)
    ensures BitAnd(a, Pow2(k) - 1) == a % Pow2(k)
    decreases k
  {
    if k > 0 {
      var p := Pow2(k - 1);
      AndKeepsLowBits(a / 2, k - 1);
      assert (Pow2(k) - 1) / 2 == p - 1;
      HalveRemainder(a, p);
    }
  }

  lemma HalveRemainder(a: int, p: nat)
    requires p >= 1
    ensures a % (2 * p) == a % 2 + 2 * (a / 2 % p)
  {
    var q, r := a / 2 / p, a / 2 % p;
    assert a == 2 * (q * p + r) + a % 2;
    assert 2 * (q * p) == q * (2 * p);
    Divides(a, 2 * p, q, a % 2 + 2 * r);
  }

  lemma Divides(a: int, d: nat, q: int, r: nat)
    requires d >= 1 && r < d && a == q * d + r
    ensures a / d == q && a % d == r
  {
    var gap := a / d - q;
    assert a == a / d * d + a % d;
    assert gap * d == r - a % d by {
      assert gap * d == a / d * d - q * d;
    }
    assert gap >= 1 ==> gap * d >= d;
    assert gap <= -1 ==> gap * d <= 0 - d;
  }

  lemma Widths()
    ensures Pow2(10) == 1024 && Pow2(12) == 4096 && Pow2(22) == 0x40_0000
  {
    assert Pow2(4) == 16;
    assert Pow2(8) == 256;
    assert Pow2(10) == 1024;
    assert Pow2(12) == 4096;
    assert Pow2(16) == 65536;
    assert Pow2(20) == 0x10_0000;
  }

  // ---------------------------------------------------------------------------
  // Packing and decoding
  // ---------------------------------------------------------------------------

  datatype Parts = Parts(timestampMs: int, workerId: int, sequence: int)

  /** `(offset << 22) | (worker_id << 12) | sequence`. */
  function Pack(offset: int, workerId: nat, sequence: nat): int {
    BitOr(BitOr(ShiftLeft(offset, 22), workerId * 4096), sequence)
  }

  function Decode(epochMs: int, id: int): Parts {
    Parts(ShiftRight(id, 22) + epochMs, BitAnd(ShiftRight(id, 12), MAX_WORKER_ID), BitAnd(id, SEQUENCE_MASK))
  }

  /** The three fields never overlap. */
  lemma PackIsSum(offset: int, workerId: nat, sequence: nat)
    requires workerId <= MAX_WORKER_ID && sequence <= SEQUENCE_MASK
    ensures Pack(offset, workerId, sequence) == (offset * 1024 + workerId) * 4096 + sequence
  {
    hide BitOr, Pow2;
    Widths();
    OrFillsLowBits(offset, workerId * 4096, 22);
    OrFillsLowBits(offset * 1024 + workerId, sequence, 12);
  }

  /** Decoding an id gives back the time, the worker and the sequence it was made
      from, also for times before the epoch. */
  lemma DecodeInverts(epochMs: int, now: int, workerId: nat, sequence: nat)
    requires workerId <= MAX_WORKER_ID && sequence <= SEQUENCE_MASK
    ensures Decode(epochMs, Pack(now - epochMs, workerId, sequence)) == Parts(now, workerId, sequence)
  {
    hide BitAnd, Pack, Pow2;
    var offset, id := now - epochMs, Pack(now - epochMs, workerId, sequence);
    Widths();
    PackIsSum(offset, workerId, sequence);
    Divides(id, 0x40_0000, offset, workerId * 4096 + sequence);
    Divides(id, 4096, offset * 1024 + workerId, sequence);
    Divides(offset * 1024 + workerId, 1024, offset, workerId);
    AndKeepsLowBits(id, 12);
    AndKeepsLowBits(ShiftRight(id, 12), 10);
  }

  /** The id is a non-negative signed 64-bit integer exactly while the time is
      within 2^41 milliseconds of the epoch. */
  lemma FitsExactly(offset: int, workerId: nat, sequence: nat)
    requires workerId <= MAX_WORKER_ID && sequence <= SEQUENCE_MASK
    ensures 0 <= Pack(offset, workerId, sequence) < TWO_TO_63 <==> 0 <= offset < TWO_TO_41
  {
    PackIsSum(offset, workerId, sequence);
  }

  // ---------------------------------------------------------------------------
  // The generator
  // ---------------------------------------------------------------------------

  datatype Gen = Gen(lastMs: int, sequence: nat)

  const FRESH := Gen(-1, 0)

  /** `Waiting`: every reading so far is used up and none is past the last
      millisecond, so the call is still in its wait loop, holding the lock. */
  datatype Outcome = Minted(id: int) | ClockMovedBackwards(deltaMs: int) | Waiting

  datatype Called = Called(gen: Gen, outcome: Outcome, used: nat)

  /** How many readings are used up to the first one past `lastMs`; one more than
      there are when none is. */
  function ReadPast(clock: seq<int>, lastMs: int): (n: nat)
    ensures 1 <= n <= |clock| + 1
    ensures n <= |clock| ==> clock[n - 1] > lastMs
    ensures forall i :: 0 <= i < n - 1 ==> clock[i] <= lastMs
    decreases |clock|
  {
    if clock == [] || clock[0] > lastMs then 1 else 1 + ReadPast(clock[1..], lastMs)
  }

  /** One call of next_id against the clock's coming readings. */
  function Mint(workerId: nat, epochMs: int, g: Gen, clock: seq<int>): (c: Called)
    requires clock != []
    ensures 1 <= c.used <= |clock|
  {
    var now := clock[0];
    if now < g.lastMs then Called(g, ClockMovedBackwards(g.lastMs - now), 1)
    else if now > g.lastMs then Called(Gen(now, 0), Minted(Pack(now - epochMs, workerId, 0)), 1)
    else
      var sequence := BitAnd(g.sequence + 1, SEQUENCE_MASK);
      if sequence != 0 then
        Called(Gen(now, AtLeastZero(sequence)), Minted(Pack(now - epochMs, workerId, AtLeastZero(sequence))), 1)
      else
        var n := ReadPast(clock[1..], g.lastMs);
        if n == |clock| then Called(Gen(g.lastMs, 0), Waiting, |clock|)
        else Called(Gen(clock[n], 0), Minted(Pack(clock[n] - epochMs, workerId, 0)), n + 1)
  }

  class SnowflakeGenerator {
    const workerId: nat
    const epochMs: int
    var lastMs: int
    var sequence: nat

    ghost predicate Valid()
      reads this
    {
      workerId <= MAX_WORKER_ID && sequence <= SEQUENCE_MASK
    }

    function State(): Gen
      reads this
    {
      Gen(lastMs, sequence)
    }

    constructor (workerId: nat, epochMs: int)
      requires workerId <= MAX_WORKER_ID
      ensures Valid() && State() == FRESH && this.workerId == workerId && this.epochMs == epochMs
    {
      this.workerId, this.epochMs := workerId, epochMs;
      lastMs, sequence := -1, 0;
    }

    static method Create(workerId: int, epochMs: int) returns (r: Result<SnowflakeGenerator, string>)
      ensures r.Ok? <==> 0 <= workerId <= 1023
      ensures r.Ok? ==> r.value.Valid() && r.value.State() == FRESH && r.value.workerId == workerId && r.value.epochMs == epochMs
    {
      if !(0 <= workerId <= MAX_WORKER_ID) {
        return Err("worker_id must be in [0, 1023]");
      }
      var g := new SnowflakeGenerator(workerId, epochMs);
      return Ok(g);
    }

    method NextId(clock: seq<int>) returns (outcome: Outcome, used: nat)
      requires Valid() && clock != []
      modifies this
      ensures Valid()
      ensures Called(State(), outcome, used) == Mint(workerId, epochMs, old(State()), clock)
    {
      hide BitAnd, Pack;
      SequenceWraps(sequence);
      var now := clock[0];
      used := 1;
      if now < lastMs {
        return ClockMovedBackwards(lastMs - now), 1;
      }
      if now == lastMs {
        sequence := BitAnd(sequence + 1, SEQUENCE_MASK);
        if sequence == 0 {
          var found;
          found, now, used := WaitUntilNextMs(clock);
          if !found {
            return Waiting, used;
          }
        }
      } else {
        sequence := 0;
      }
      lastMs := now;
      outcome := Minted(Pack(now - epochMs, workerId, sequence));
    }

    /** Reads the clock until it is past `lastMs`. */
    method WaitUntilNextMs(clock: seq<int>) returns (found: bool, now: int, used: nat)
      requires clock != []
      ensures var n := ReadPast(clock[1..], lastMs);
              && (found <==> n < |clock|)
              && (found ==> now == clock[n] && used == n + 1)
              && (!found ==> used == |clock|)
    {
      found, now, used := false, lastMs, 1;
      while used < |clock| && !found
        invariant 1 <= used <= |clock|
        invariant !found ==> forall i :: 1 <= i < used ==> clock[i] <= lastMs
        invariant found ==> used >= 2 && now == clock[used - 1] > lastMs && forall i :: 1 <= i < used - 1 ==> clock[i] <= lastMs
        decreases |clock| - used, !found
      {
        now := clock[used];
        used := used + 1;
        found := now > lastMs;
      }
      ghost var n := ReadPast(clock[1..], lastMs);
      assert n < |clock| ==> clock[1..][n - 1] == clock[n];
      assert forall i :: 0 <= i < n - 1 ==> clock[1..][i] == clock[i + 1];
      if found {
        assert clock[1..][used - 2] == now;
      }
    }
  }

  /** The sequence counts to its mask and wraps to zero. */
  lemma SequenceWraps(sequence: nat)
    requires sequence <= SEQUENCE_MASK
    ensures BitAnd(sequence + 1, SEQUENCE_MASK) == if sequence == SEQUENCE_MASK then 0 else sequence + 1
  {
    hide BitAnd, Pow2;
    Widths();
    AndKeepsLowBits(sequence + 1, 12);
  }

  // ---------------------------------------------------------------------------
  // Whole runs
  // ---------------------------------------------------------------------------

  /** The ids one generator mints when it is called again and again, also after an
      error, until the readings run out. */
  function Ids(workerId: nat, epochMs: int, g: Gen, clock: seq<int>): seq<int>
    decreases |clock|
  {
    if clock == [] then []
    else
      var c := Mint(workerId, epochMs, g, clock);
      (if c.outcome.Minted? then [c.outcome.id] else []) + Ids(workerId, epochMs, c.gen, clock[c.used..])
  }

  function Stamp(workerId: nat, epochMs: int, g: Gen): int {
    Pack(g.lastMs - epochMs, workerId, g.sequence)
  }

  /** Every call, by the first reading: one before the last millisecond is an error; a new
      millisecond starts with sequence 0; the same one counts up, and after 4095 waits for
      the first later reading. The minted id says so. */
  lemma MintExactly(workerId: nat, epochMs: int, g: Gen, clock: seq<int>)
    requires workerId <= MAX_WORKER_ID && g.sequence <= 4095 && clock != []
    ensures var now, n := clock[0], ReadPast(clock[1..], g.lastMs);
            var at := if now > g.lastMs then Some((now, 0))
                      else if now == g.lastMs && g.sequence < 4095 then Some((now, g.sequence + 1))
                      else if now == g.lastMs && n < |clock| then Some((clock[n], 0))
                      else None;
            var c := Mint(workerId, epochMs, g, clock);
            if at.Some? then
              && c.gen == Gen(at.value.0, at.value.1) && c.outcome.Minted?
              && Decode(epochMs, c.outcome.id) == Parts(at.value.0, workerId, at.value.1)
              && c.used == if now == g.lastMs && g.sequence == 4095 then n + 1 else 1
            else if now < g.lastMs then c == Called(g, ClockMovedBackwards(g.lastMs - now), 1)
            else c.outcome == Waiting && c.used == |clock|
  {
    hide BitAnd, Pack, Decode;
    SequenceWraps(g.sequence);
    var c := Mint(workerId, epochMs, g, clock);
    if c.outcome.Minted? {
      DecodeInverts(epochMs, c.gen.lastMs, workerId, c.gen.sequence);
    }
  }

  /** A minted id is that of the new state, and larger than that of the old one. */
  lemma MintAdvances(workerId: nat, epochMs: int, g: Gen, clock: seq<int>)
    requires workerId <= MAX_WORKER_ID && g.sequence <= SEQUENCE_MASK && clock != []
    ensures var c := Mint(workerId, epochMs, g, clock);
            && c.gen.sequence <= SEQUENCE_MASK
            && (c.outcome.Minted? ==> c.outcome.id == Stamp(workerId, epochMs, c.gen) > Stamp(workerId, epochMs, g))
            && (c.outcome.ClockMovedBackwards? ==> c.gen == g && clock[0] == g.lastMs - c.outcome.deltaMs < g.lastMs)
            && (c.outcome.Waiting? ==> c.used == |clock| && forall i :: 0 <= i < |clock| ==> clock[i] <= g.lastMs)
  {
    hide Pack, BitAnd;
    var c := Mint(workerId, epochMs, g, clock);
    SequenceWraps(g.sequence);
    PackIsSum(g.lastMs - epochMs, workerId, g.sequence);
    PackIsSum(c.gen.lastMs - epochMs, workerId, c.gen.sequence);
    ghost var n := ReadPast(clock[1..], g.lastMs);
    if n < |clock| {
      assert clock[1..][n - 1] == clock[n];
    }
    if c.outcome.Waiting? {
      forall i | 0 <= i < |clock| ensures clock[i] <= g.lastMs {
        assert i > 0 ==> clock[i] == clock[1..][i - 1];
      }
    }
  }

  ghost predicate Increasing(ids: seq<int>) {
    forall i, j :: 0 <= i < j < |ids| ==> ids[i] < ids[j]
  }

  /** Whatever the clock reads, repeats and backward jumps included, one generator's
      ids strictly increase, and each names its worker. */
  lemma {:induction false} IdsStrictlyIncrease(workerId: nat, epochMs: int, g: Gen, clock: seq<int>)
    requires workerId <= MAX_WORKER_ID && g.sequence <= SEQUENCE_MASK
    ensures var ids := Ids(workerId, epochMs, g, clock);
            && Increasing(ids)
            && (forall i :: 0 <= i < |ids| ==> ids[i] > Stamp(workerId, epochMs, g))
            && (forall i :: 0 <= i < |ids| ==> Decode(epochMs, ids[i]).workerId == workerId)
    decreases |clock|
  {
    hide Pack, Decode, Mint;
    if clock != [] {
      var c := Mint(workerId, epochMs, g, clock);
      MintAdvances(workerId, epochMs, g, clock);
      var rest := clock[c.used..];
      IdsStrictlyIncrease(workerId, epochMs, c.gen, rest);
      if c.outcome.Minted? {
        DecodeInverts(epochMs, c.gen.lastMs, workerId, c.gen.sequence);
      } else if c.outcome.Waiting? {
        assert rest == [];
      }
    }
  }

  /** Generators with different worker ids never mint the same id, whatever their
      clocks and epochs. */
  lemma WorkersNeverCollide(w1: nat, e1: int, clock1: seq<int>, w2: nat, e2: int, clock2: seq<int>)
    requires w1 <= MAX_WORKER_ID && w2 <= MAX_WORKER_ID && w1 != w2
    ensures var a, b := Ids(w1, e1, FRESH, clock1), Ids(w2, e2, FRESH, clock2);
            forall i, j :: 0 <= i < |a| && 0 <= j < |b| ==> a[i] != b[j]
  {
    hide Pack, BitAnd, Ids;
    IdsStrictlyIncrease(w1, e1, FRESH, clock1);
    IdsStrictlyIncrease(w2, e2, FRESH, clock2);
  }

  /** The first reading that a new generator does not take for a backward jump. */
  function FirstUsed(clock: seq<int>): Option<int> {
    if clock == [] then None
    else if clock[0] >= -1 then Some(clock[0])
    else FirstUsed(clock[1..])
  }

  /** Restarting a replica under the same worker id: every id minted afterwards is
      past the last one minted before if and only if the clock has caught up, that
      is, the first reading the new generator uses is past the last millisecond used.
      A new generator starts in millisecond -1, where its first id has sequence 1. */
  lemma {:induction false} RestartSafeExactly(workerId: nat, epochMs: int, g: Gen, clock: seq<int>)
    requires workerId <= MAX_WORKER_ID && g.sequence <= SEQUENCE_MASK
    ensures (forall id :: id in Ids(workerId, epochMs, FRESH, clock) ==> id > Stamp(workerId, epochMs, g))
            <==>
            match FirstUsed(clock)
            case None => true
            case Some(t) => t > g.lastMs || (t == g.lastMs == -1 && g.sequence == 0)
    decreases |clock|
  {
    hide Pack, BitAnd;
    if clock != [] && clock[0] < -1 {
      RestartSafeExactly(workerId, epochMs, g, clock[1..]);
      assert Ids(workerId, epochMs, FRESH, clock) == Ids(workerId, epochMs, FRESH, clock[1..]);
    } else if clock != [] {
      FirstIdDecides(workerId, epochMs, g, clock, if clock[0] == -1 then 1 else 0);
    }
  }

  lemma FirstIdDecides(workerId: nat, epochMs: int, g: Gen, clock: seq<int>, sequence: nat)
    requires workerId <= MAX_WORKER_ID && g.sequence <= SEQUENCE_MASK
    requires clock != [] && clock[0] >= -1 && sequence == if clock[0] == -1 then 1 else 0
    ensures (forall id :: id in Ids(workerId, epochMs, FRESH, clock) ==> id > Stamp(workerId, epochMs, g))
            <==> clock[0] > g.lastMs || (clock[0] == g.lastMs && sequence > g.sequence)
  {
    hide Pack, BitAnd;
    var ids, first := Ids(workerId, epochMs, FRESH, clock), Pack(clock[0] - epochMs, workerId, sequence);
    IdsStrictlyIncrease(workerId, epochMs, FRESH, clock);
    SequenceWraps(0);
    assert Mint(workerId, epochMs, FRESH, clock).outcome == Minted(first);
    assert ids[0] == first;
    PackIsSum(g.lastMs - epochMs, workerId, g.sequence);
    PackIsSum(clock[0] - epochMs, workerId, sequence);
    forall id | id in ids ensures id >= first {
      var i :| 0 <= i < |ids| && ids[i] == id;
      assert i > 0 ==> ids[0] < ids[i];
    }
    assert first in ids;
  }
}
