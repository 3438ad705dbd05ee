/** The token-bucket limiter (backend/app/cache/rate_limit.py), over exact reals. */
module RateLimit {
  import opened Common

  /** The Redis hash of one key. Its expiry is always `ts` plus the TTL. */
  datatype Bucket = Bucket(tokens: real, ts: int)

  datatype Config = Config(capacity: nat, refillPerSec: real)

  datatype Answer = Answer(allowed: bool, remaining: int, retryAfterMs: int)

  datatype Call = Call(cost: nat, now: int)

  /** What the source relies on: the refill rate is divided by. */
  ghost predicate Sensible(c: Config) {
    c.refillPerSec > 0.0
  }

  /** The tokens that `ms` milliseconds refill. */
  function Gain(c: Config, ms: int): real {
    ms as real * c.refillPerSec / 1000.0
  }

  /** The milliseconds to wait for `missing` tokens. */
  function Wait(c: Config, missing: real): int
    requires Sensible(c)
  {
    Ceil(missing * 1000.0 / c.refillPerSec)
  }

  function Ceil(x: real): (n: int)
    ensures n as real >= x > (n - 1) as real
  {
    if x.Floor as real == x then x.Floor else x.Floor + 1
  }

  /** `ceil(capacity / refill) * 1000 + 1000`. */
  function TtlMs(c: Config): int
    requires Sensible(c)
  {
    Ceil(c.capacity as real / c.refillPerSec) * 1000 + 1000
  }

  function MinReal(a: real, b: real): real {
    if a <= b then a else b
  }

  /** Tokens after the lazy refill; a clock that went back adds nothing. */
  function Refilled(c: Config, b: Bucket, now: int): real {
    MinReal(c.capacity as real, b.tokens + Gain(c, AtLeastZero(now - b.ts)))
  }

  /** What the script reads: nothing once the key has expired. */
  function Stored(c: Config, b: Option<Bucket>, now: int): Option<Bucket>
    requires Sensible(c)
  {
    if b.Some? && now - b.value.ts >= TtlMs(c) then None else b
  }

  /** The tokens a call at `now` finds when keys never expire. */
  function Level(c: Config, b: Option<Bucket>, now: int): real {
    if b.None? then c.capacity as real else Refilled(c, b.value, now)
  }

  function Decide(c: Config, tokens: real, call: Call): (Bucket, Answer)
    requires Sensible(c)
  {
    var cost := call.cost as real;
    if tokens >= cost then
      (Bucket(tokens - cost, call.now), Answer(true, (tokens - cost).Floor, 0))
    else
      (Bucket(tokens, call.now), Answer(false, tokens.Floor, Wait(c, cost - tokens)))
  }

  /** One run of the Lua script. */
  function Acquire(c: Config, b: Option<Bucket>, call: Call): (Bucket, Answer)
    requires Sensible(c)
  {
    Decide(c, Level(c, Stored(c, b, call.now), call.now), call)
  }

  /** `n` is x rounded up. */
  ghost predicate RoundsUp(x: real, n: int) {
    n as real >= x > (n - 1) as real
  }

  /** The bucket is still there: its time to live, the seconds to fill it rounded up and
      one more, has not passed. */
  ghost predicate Alive(c: Config, b: Bucket, now: int)
    requires Sensible(c)
  {
    forall seconds :: RoundsUp(c.capacity as real / c.refillPerSec, seconds) ==> now - b.ts < seconds * 1000 + 1000
  }

  /** The tokens a call finds: those left plus the refill of the time since, at most the
      capacity, and the capacity for a key that is new or gone. */
  ghost function Found(c: Config, b: Option<Bucket>, now: int): real
    requires Sensible(c)
  {
    var capacity := c.capacity as real;
    if b.None? || !Alive(c, b.value, now) then capacity
    else
      var since := if now > b.value.ts then now - b.value.ts else 0;
      var tokens := b.value.tokens + since as real * c.refillPerSec / 1000.0;
      if tokens > capacity then capacity else tokens
  }

  lemma FoundIsLevel(c: Config, b: Option<Bucket>, now: int)
    requires Sensible(c)
    ensures Level(c, Stored(c, b, now), now) == Found(c, b, now)
  {
    if b.Some? {
      AliveExactly(c, b.value, now);
      hide TtlMs, Alive;
    }
  }

  /** One call in full: one that fits takes its cost; one that does not takes nothing and is
      told the milliseconds, rounded up, that refill what is missing. The time is kept
      either way. */
  lemma AcquireExactly(c: Config, b: Option<Bucket>, call: Call)
    requires Sensible(c)
    ensures var cost, tokens := call.cost as real, Found(c, b, call.now);
            var (b', answer) := Acquire(c, b, call);
            && b'.ts == call.now && (answer.allowed <==> cost <= tokens)
            && b'.tokens == (if answer.allowed then tokens - cost else tokens)
            && answer.remaining == b'.tokens.Floor
            && (answer.allowed ==> answer.retryAfterMs == 0)
            && (!answer.allowed ==> RoundsUp((cost - tokens) * 1000.0 / c.refillPerSec, answer.retryAfterMs))
  {
    FoundIsLevel(c, b, call.now);
    hide Level, Found, Stored;
  }

  lemma AliveExactly(c: Config, b: Bucket, now: int)
    requires Sensible(c)
    ensures Alive(c, b, now) <==> now - b.ts < TtlMs(c)
  {
    var x := c.capacity as real / c.refillPerSec;
    assert RoundsUp(x, Ceil(x));
    forall n | RoundsUp(x, n) ensures n == Ceil(x) {
      assert (n - 1) as real < x <= Ceil(x) as real && (Ceil(x) - 1) as real < x <= n as real;
    }
  }

  ghost predicate Valid(c: Config, b: Option<Bucket>) {
    b.Some? ==> 0.0 <= b.value.tokens <= c.capacity as real
  }

  /** The buckets of every key, as Redis holds them. */
  class Limiter {
    const config: Config
    var buckets: map<string, Bucket>

    constructor (config: Config)
      requires Sensible(config)
      ensures this.config == config && buckets == map[]
    {
      this.config := config;
      buckets := map[];
    }

    function Get(key: string): Option<Bucket>
      reads this
    {
      if key in buckets then Some(buckets[key]) else None
    }

    method Take(key: string, call: Call) returns (answer: Answer)
      requires Sensible(config)
      modifies this
      ensures buckets == old(buckets)[key := Acquire(config, old(Get(key)), call).0]
      ensures answer == Acquire(config, old(Get(key)), call).1
    {
      var capacity, cost := config.capacity as real, call.cost as real;
      var tokens, ts := capacity, call.now;
      if key in buckets && call.now - buckets[key].ts < TtlMs(config) {
        var delta := call.now - buckets[key].ts;
        if delta < 0 {
          delta := 0;
        }
        tokens := MinReal(capacity, buckets[key].tokens + Gain(config, delta));
      }
      var allowed, retryAfterMs := false, 0;
      if tokens >= cost {
        tokens := tokens - cost;
        allowed := true;
      } else {
        retryAfterMs := Wait(config, cost - tokens);
      }
      buckets := buckets[key := Bucket(tokens, ts)];
      answer := Answer(allowed, tokens.Floor, retryAfterMs);
    }
  }

  // ---------------------------------------------------------------------------
  // Arithmetic
  // ---------------------------------------------------------------------------

  lemma GainAdds(c: Config, a: int, b: int)
    ensures Gain(c, a + b) == Gain(c, a) + Gain(c, b)
  {
    var x, y, r := a as real, b as real, c.refillPerSec;
    assert (x + y) * r == x * r + y * r;
  }

  lemma GainMonotone(c: Config, a: int, b: int)
    requires Sensible(c) && a <= b
    ensures Gain(c, a) <= Gain(c, b)
  {
    GainAdds(c, a, b - a);
    Product((b - a) as real, c.refillPerSec);
  }

  lemma GainOfZero(c: Config)
    ensures Gain(c, 0) == 0.0
  {
  }

  lemma Product(x: real, r: real)
    requires x >= 0.0 && r > 0.0
    ensures x * r >= 0.0 && (x > 0.0 ==> x * r > 0.0)
  {
  }

  lemma Quotient(x: real, r: real)
    requires r > 0.0
    ensures x / r * r == x && (x >= 0.0 ==> x / r >= 0.0) && (x > 0.0 ==> x / r > 0.0)
  {
  }

  /** A TTL of silence refills any bucket. */
  lemma TtlRefills(c: Config, ms: int)
    requires Sensible(c) && ms >= TtlMs(c)
    ensures ms >= 0 && Gain(c, ms) >= c.capacity as real
  {
    var r, full := c.refillPerSec, c.capacity as real;
    Quotient(full, r);
    var seconds := Ceil(full / r);
    GainMonotone(c, seconds * 1000, ms);
    GainOfSeconds(c, seconds);
    Product(seconds as real - full / r, r);
  }

  lemma GainOfSeconds(c: Config, seconds: int)
    ensures Gain(c, seconds * 1000) == seconds as real * c.refillPerSec
  {
    var x, r := seconds as real, c.refillPerSec;
    assert (seconds * 1000) as real == x * 1000.0;
    assert x * 1000.0 * r == x * r * 1000.0;
  }

  lemma Between(n: real, x: real, q: real, r: real)
    requires r > 0.0 && n - 1.0 < q <= n && q * r == x
    ensures (n - 1.0) * r < x <= n * r
  {
    var up, down := n - q, q - (n - 1.0);
    Product(up, r);
    Product(down, r);
    assert up * r == n * r - x;
    assert down * r == x - (n - 1.0) * r;
  }

  lemma CeilCovers(x: real, r: real)
    requires r > 0.0
    ensures (Ceil(x / r) - 1) as real * r < x <= Ceil(x / r) as real * r
  {
    hide Ceil;
    Quotient(x, r);
    Between(Ceil(x / r) as real, x, x / r, r);
  }

  /** The wait is the least number of milliseconds that refills what is missing. */
  lemma WaitCovers(c: Config, missing: real)
    requires Sensible(c)
    ensures Gain(c, Wait(c, missing) - 1) < missing <= Gain(c, Wait(c, missing))
  {
    hide Ceil;
    CeilCovers(missing * 1000.0, c.refillPerSec);
  }

  lemma LevelBounds(c: Config, b: Option<Bucket>, now: int)
    requires Sensible(c) && Valid(c, b)
    ensures 0.0 <= Level(c, b, now) <= c.capacity as real
    ensures b.Some? ==> b.value.tokens <= Level(c, b, now)
  {
    hide Gain;
    if b.Some? {
      GainOfZero(c);
      GainMonotone(c, 0, AtLeastZero(now - b.value.ts));
    }
  }

  // ---------------------------------------------------------------------------
  // Expiry is invisible
  // ---------------------------------------------------------------------------

  /** Dropping a key after its TTL of silence changes no decision: what the script
      finds is what it would find if keys never expired. */
  lemma ExpiryIsInvisible(c: Config, b: Option<Bucket>, now: int)
    requires Sensible(c) && Valid(c, b)
    ensures Level(c, Stored(c, b, now), now) == Level(c, b, now)
  {
    hide Gain, TtlMs;
    if b.Some? && now - b.value.ts >= TtlMs(c) {
      TtlRefills(c, now - b.value.ts);
    }
  }

  lemma AcquireKeepsValid(c: Config, b: Option<Bucket>, call: Call)
    requires Sensible(c) && Valid(c, b)
    ensures Valid(c, Some(Acquire(c, b, call).0))
    ensures Acquire(c, b, call) == Decide(c, Level(c, b, call.now), call)
  {
    hide Gain, TtlMs, Wait;
    ExpiryIsInvisible(c, b, call.now);
    LevelBounds(c, b, call.now);
  }

  // ---------------------------------------------------------------------------
  // Denied calls are no-ops for the future
  // ---------------------------------------------------------------------------

  ghost predicate Nondecreasing(now: int, calls: seq<Call>)
    decreases |calls|
  {
    calls == [] || (now <= calls[0].now && Nondecreasing(calls[0].now, calls[1..]))
  }

  /** The answers to a sequence of calls on one key. */
  function Serve(c: Config, b: Option<Bucket>, calls: seq<Call>): seq<Answer>
    requires Sensible(c)
    decreases |calls|
  {
    if calls == [] then []
    else
      var (b', answer) := Acquire(c, b, calls[0]);
      [answer] + Serve(c, Some(b'), calls[1..])
  }

  /** The same with keys that are never dropped. */
  function ServeKept(c: Config, b: Option<Bucket>, calls: seq<Call>): seq<Answer>
    requires Sensible(c)
    decreases |calls|
  {
    if calls == [] then []
    else
      var (b', answer) := Decide(c, Level(c, b, calls[0].now), calls[0]);
      [answer] + ServeKept(c, Some(b'), calls[1..])
  }

  /** Over any run, dropping keys after their TTL of silence changes no answer. */
  lemma {:induction false} ExpiryNeverShows(c: Config, b: Option<Bucket>, calls: seq<Call>)
    requires Sensible(c) && Valid(c, b)
    ensures Serve(c, b, calls) == ServeKept(c, b, calls)
    decreases |calls|
  {
    hide Gain, TtlMs, Wait, Stored, Level;
    if calls != [] {
      AcquireKeepsValid(c, b, calls[0]);
      ExpiryNeverShows(c, Some(Acquire(c, b, calls[0]).0), calls[1..]);
    }
  }

  /** Two keys that will hold the same tokens from `now` on. */
  ghost predicate Alike(c: Config, a: Option<Bucket>, b: Option<Bucket>, now: int) {
    forall later :: later >= now ==> Level(c, a, later) == Level(c, b, later)
  }

  lemma {:induction false} AlikeAnswerAlike(c: Config, a: Option<Bucket>, b: Option<Bucket>, now: int, calls: seq<Call>)
    requires Sensible(c) && Valid(c, a) && Valid(c, b) && Alike(c, a, b, now) && Nondecreasing(now, calls)
    ensures Serve(c, a, calls) == Serve(c, b, calls)
    decreases |calls|
  {
    if calls != [] {
      AcquireKeepsValid(c, a, calls[0]);
      AcquireKeepsValid(c, b, calls[0]);
      assert Level(c, a, calls[0].now) == Level(c, b, calls[0].now);
    }
  }

  /** Refilling in two stages is refilling at once. */
  lemma RefillInStages(c: Config, b: Option<Bucket>, now: int, later: int)
    requires Sensible(c) && Valid(c, b) && now <= later && (b.Some? ==> b.value.ts <= now)
    ensures Level(c, Some(Bucket(Level(c, b, now), now)), later) == Level(c, b, later)
  {
    hide Gain;
    GainOfZero(c);
    GainMonotone(c, 0, later - now);
    if b.Some? {
      GainAdds(c, now - b.value.ts, later - now);
      GainMonotone(c, 0, now - b.value.ts);
    }
  }

  /** A refused call at a time not before the last one leaves every later answer
      as if it had never been made. */
  lemma DeniedIsNoOp(c: Config, b: Option<Bucket>, call: Call, calls: seq<Call>)
    requires Sensible(c) && Valid(c, b) && !Acquire(c, b, call).1.allowed
    requires (b.Some? ==> b.value.ts <= call.now) && Nondecreasing(call.now, calls)
    ensures Serve(c, Some(Acquire(c, b, call).0), calls) == Serve(c, b, calls)
  {
    hide Gain, TtlMs, Wait, Serve, Level, Stored;
    var b' := Acquire(c, b, call).0;
    AcquireKeepsValid(c, b, call);
    forall later | later >= call.now ensures Level(c, Some(b'), later) == Level(c, b, later) {
      RefillInStages(c, b, call.now, later);
    }
    AlikeAnswerAlike(c, Some(b'), b, call.now, calls);
  }

  // ---------------------------------------------------------------------------
  // retry_after_ms is exact
  // ---------------------------------------------------------------------------

  /** A refused caller who waits a millisecond less than retry_after_ms is refused
      again, and one who waits exactly that long is allowed if and only if the
      cost fits the bucket at all. */
  lemma RetryAfterIsExact(c: Config, b: Option<Bucket>, call: Call)
    requires Sensible(c) && Valid(c, b) && !Acquire(c, b, call).1.allowed
    ensures var (b', answer) := Acquire(c, b, call);
            && answer.retryAfterMs >= 1
            && (Acquire(c, Some(b'), call.(now := call.now + answer.retryAfterMs)).1.allowed <==> call.cost <= c.capacity)
            && !Acquire(c, Some(b'), call.(now := call.now + answer.retryAfterMs - 1)).1.allowed
  {
    hide Gain, TtlMs, Wait, Stored;
    var (b', answer) := Acquire(c, b, call);
    AcquireKeepsValid(c, b, call);
    var missing, wait := call.cost as real - b'.tokens, answer.retryAfterMs;
    WaitCovers(c, missing);
    GainOfZero(c);
    if wait <= 0 {
      GainMonotone(c, wait, 0);
    }
    AcquireKeepsValid(c, Some(b'), call.(now := call.now + wait));
    AcquireKeepsValid(c, Some(b'), call.(now := call.now + wait - 1));
  }

  /** `remaining` is exact: right after any call, another is allowed if and only if
      it costs no more than that. */
  lemma RemainingIsExact(c: Config, b: Option<Bucket>, call: Call, cost: nat)
    requires Sensible(c) && Valid(c, b)
    ensures var (b', answer) := Acquire(c, b, call);
            Acquire(c, Some(b'), Call(cost, call.now)).1.allowed <==> cost <= answer.remaining
  {
    hide Gain, TtlMs, Wait, Stored;
    var b' := Acquire(c, b, call).0;
    AcquireKeepsValid(c, b, call);
    AcquireKeepsValid(c, Some(b'), Call(cost, call.now));
    GainOfZero(c);
    assert cost as real <= b'.tokens <==> cost <= b'.tokens.Floor;
  }

  // ---------------------------------------------------------------------------
  // The rate is never exceeded
  // ---------------------------------------------------------------------------

  /** The cost allowed over a sequence of calls on one key. */
  function Spent(c: Config, b: Option<Bucket>, calls: seq<Call>): nat
    requires Sensible(c)
    decreases |calls|
  {
    if calls == [] then 0
    else
      var (b', answer) := Acquire(c, b, calls[0]);
      (if answer.allowed then calls[0].cost else 0) + Spent(c, Some(b'), calls[1..])
  }

  /** How far the clock moved forward in all, ignoring its moves backward. */
  function Forward(now: int, calls: seq<Call>): nat
    decreases |calls|
  {
    if calls == [] then 0 else AtLeastZero(calls[0].now - now) + Forward(calls[0].now, calls[1..])
  }

  /** Whatever the clock does, the allowed cost is bounded by what the bucket holds
      plus the refill over the clock's forward travel. */
  lemma {:induction false} SpentWithinRefill(c: Config, b: Bucket, calls: seq<Call>)
    requires Sensible(c) && Valid(c, Some(b))
    ensures Spent(c, Some(b), calls) as real <= b.tokens + Gain(c, Forward(b.ts, calls))
    decreases |calls|
  {
    hide Gain, TtlMs, Wait, Stored;
    GainOfZero(c);
    if calls != [] {
      var call := calls[0];
      var (b', answer) := Acquire(c, Some(b), call);
      AcquireKeepsValid(c, Some(b), call);
      SpentWithinRefill(c, b', calls[1..]);
      GainAdds(c, AtLeastZero(call.now - b.ts), Forward(call.now, calls[1..]));
    }
  }

  /** The clock's forward travel exceeds the elapsed time unless it never went back. */
  lemma {:induction false} ForwardIsElapsedExactly(now: int, calls: seq<Call>)
    ensures Forward(now, calls) >= Last(now, calls) - now
    ensures Forward(now, calls) == Last(now, calls) - now <==> Nondecreasing(now, calls)
    decreases |calls|
  {
    if calls != [] {
      ForwardIsElapsedExactly(calls[0].now, calls[1..]);
    }
  }

  function Last(now: int, calls: seq<Call>): int {
    if calls == [] then now else calls[|calls| - 1].now
  }

  /** With an arbitrary clock the allowed cost is at most the capacity plus the
      refill over the clock's forward travel. */
  lemma AnyClockRateIsRespected(c: Config, b: Option<Bucket>, calls: seq<Call>)
    requires Sensible(c) && Valid(c, b) && calls != []
    ensures Spent(c, b, calls) as real
            <= c.capacity as real + Gain(c, Forward(calls[0].now, calls[1..]))
  {
    hide Gain, TtlMs, Wait, Stored, Level;
    var (b', answer) := Acquire(c, b, calls[0]);
    AcquireKeepsValid(c, b, calls[0]);
    LevelBounds(c, b, calls[0].now);
    SpentWithinRefill(c, b', calls[1..]);
  }

  /** The promised bound: the cost allowed from the first call to the last is at
      most the capacity plus the refill over the time between them. */
  ghost predicate WithinRate(c: Config, b: Option<Bucket>, calls: seq<Call>) {
    Sensible(c) && Valid(c, b) && calls != [] ==>
      Spent(c, b, calls) as real <= c.capacity as real + Gain(c, Last(0, calls) - calls[0].now)
  }

  /** For any calls on one key with non-decreasing times the bound holds, whatever
      the bucket held before. */
  lemma RateIsRespected(c: Config, b: Option<Bucket>, calls: seq<Call>)
    requires calls != [] && Nondecreasing(calls[0].now, calls[1..])
    ensures WithinRate(c, b, calls)
  {
    hide Gain, Spent;
    if Sensible(c) && Valid(c, b) {
      AnyClockRateIsRespected(c, b, calls);
      ForwardIsElapsedExactly(calls[0].now, calls[1..]);
    }
  }

  // ---------------------------------------------------------------------------
  // ... exactly when the clock never goes back
  // ---------------------------------------------------------------------------

  ghost predicate SameTimes(a: seq<Call>, b: seq<Call>) {
    |a| == |b| && forall i :: 0 <= i < |a| ==> a[i].now == b[i].now
  }

  /** Calls at the given times, each taking whatever has been refilled since. */
  function Draining(now: int, calls: seq<Call>): (r: seq<Call>)
    ensures SameTimes(r, calls)
    decreases |calls|
  {
    if calls == [] then []
    else [Call(AtLeastZero(calls[0].now - now), calls[0].now)] + Draining(calls[0].now, calls[1..])
  }

  /** One token a millisecond: a bucket that is drained at each call gives out the
      whole of the clock's forward travel. */
  lemma {:induction false} DrainingSpendsForward(c: Config, now: int, calls: seq<Call>)
    requires c.refillPerSec == 1000.0 && c.capacity >= Forward(now, calls)
    ensures Spent(c, Some(Bucket(0.0, now)), Draining(now, calls)) == Forward(now, calls)
    decreases |calls|
  {
    hide TtlMs, Wait, Stored;
    if calls != [] {
      var call := Draining(now, calls)[0];
      assert Draining(now, calls)[1..] == Draining(calls[0].now, calls[1..]);
      AcquireKeepsValid(c, Some(Bucket(0.0, now)), call);
      DrainingSpendsForward(c, calls[0].now, calls[1..]);
    }
  }

  /** Because `ts_ms` is overwritten even when the clock went back, every schedule
      with a backward step lets some bucket be overspent. */
  lemma BackwardClockBeatsRate(calls: seq<Call>) returns (c: Config, worse: seq<Call>)
    requires calls != [] && !Nondecreasing(calls[0].now, calls[1..])
    ensures SameTimes(worse, calls) && !WithinRate(c, None, worse)
  {
    var now, rest := calls[0].now, calls[1..];
    var full := Forward(now, rest);
    c := Config(full, 1000.0);
    worse := [Call(full, now)] + Draining(now, rest);
    ForwardIsElapsedExactly(now, rest);
    AcquireKeepsValid(c, None, worse[0]);
    assert worse[1..] == Draining(now, rest);
    assert Acquire(c, None, worse[0]).0 == Bucket(0.0, now);
    hide Acquire, Draining, Gain;
    DrainingSpendsForward(c, now, rest);
    assert Spent(c, None, worse) == full + full;
    assert Last(0, worse) == Last(now, rest);
  }

  /** The rate bound holds for every bucket and every cost at the times of `calls`
      if and only if those times never go back. */
  lemma RateBoundExactly(calls: seq<Call>)
    requires calls != []
    ensures (forall c, b, others :: SameTimes(others, calls) ==> WithinRate(c, b, others))
            <==> Nondecreasing(calls[0].now, calls[1..])
  {
    if Nondecreasing(calls[0].now, calls[1..]) {
      forall c, b, others | SameTimes(others, calls) ensures WithinRate(c, b, others) {
        SameTimesSameOrder(calls[0].now, calls[1..], others[1..]);
        RateIsRespected(c, b, others);
      }
    } else {
      var c, worse := BackwardClockBeatsRate(calls);
    }
  }

  lemma {:induction false} SameTimesSameOrder(now: int, a: seq<Call>, b: seq<Call>)
    requires SameTimes(a, b) && Nondecreasing(now, a)
    ensures Nondecreasing(now, b)
    decreases |a|
  {
    if a != [] {
      SameTimesSameOrder(a[0].now, a[1..], b[1..]);
    }
  }
}
