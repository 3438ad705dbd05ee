/** Points for one answer (backend/app/services/scoring_service.py).

    The source computes `points * (0.5 + 0.5 * (1 - rt / deadline))` in floating
    point and rounds with Python's `round`. The model uses the exact rational
    `points * (2 * deadline - rt) / (2 * deadline)` and rounds half to even. */
module Scoring {

  datatype Mode = Fixed | SpeedBonus

  /** Python's `round` of the rational num / den. */
  function RoundHalfEven(num: int, den: int): (r: int)
    requires den > 0
  {
    var q, rem := num / den, num % den;
    if 2 * rem < den then q
    else if 2 * rem > den then q + 1
    else if q % 2 == 0 then q else q + 1
  }

  /** RoundHalfEven is the nearest integer, and a tie goes to the even one. */
  ghost predicate IsNearestEven(num: int, den: int, r: int) {
    var gap := 2 * num - 2 * r * den;
    && -den <= gap <= den
    && (gap == den || gap == -den ==> r % 2 == 0)
  }

  lemma RoundIsNearestEven(num: int, den: int, r: int)
    requires den > 0
    ensures r == RoundHalfEven(num, den) <==> IsNearestEven(num, den, r)
  {
    var q, rem := num / den, num % den;
    assert num == q * den + rem;
    assert 2 * num - 2 * r * den == 2 * (q - r) * den + 2 * rem;
    if r <= q - 1 {
      MulAtLeast(q - r, 1, den);
    } else if r >= q + 2 {
      MulAtLeast(r - q, 2, den);
      assert 2 * (q - r) * den == -(2 * ((r - q) * den));
    }
    if r == q + 1 {
      assert 2 * (q - r) * den == -2 * den;
    }
  }

  lemma MulAtLeast(a: int, b: int, den: int)
    requires a >= b && den > 0
    ensures a * den >= b * den
  {
    assert (a - b) * den >= 0;
  }

  lemma DivMonotone(a: int, b: int, den: int)
    requires den > 0 && a <= b
    ensures a / den <= b / den
  {
    var x, y := a / den, b / den;
    assert a == x * den + a % den && b == y * den + b % den;
    assert (y + 1) * den == y * den + den;
    if x > y {
      MulAtLeast(x, y + 1, den);
    }
  }

  lemma RoundMonotone(a: int, b: int, den: int)
    requires den > 0 && a <= b
    ensures RoundHalfEven(a, den) <= RoundHalfEven(b, den)
  {
    DivMonotone(a, b, den);
    if a / den == b / den {
      assert a % den == a - a / den * den && b % den == b - b / den * den;
    }
  }

  lemma RoundWhole(n: int, den: int)
    requires den > 0
    ensures RoundHalfEven(n * den, den) == n
  {
    assert 2 * (n * den) - 2 * n * den == 0;
    RoundIsNearestEven(n * den, den, n);
  }

  lemma DivModUnique(num: int, den: int, q: int, rem: int)
    requires den > 0 && num == q * den + rem && 0 <= rem < den
    ensures num / den == q && num % den == rem
  {
    var x := num / den;
    assert num == x * den + num % den;
    assert (x - q) * den == x * den - q * den && (q - x) * den == q * den - x * den;
    if x > q {
      MulAtLeast(x - q, 1, den);
    } else if x < q {
      MulAtLeast(q - x, 1, den);
    }
  }

  /** Half of `points`, written over the denominator 2 * window. */
  lemma RoundHalf(points: nat, window: int)
    requires window > 0
    ensures RoundHalfEven(points * window, 2 * window) == RoundHalfEven(points, 2)
  {
    var q, r := points / 2, points % 2;
    assert points == 2 * q + r;
    assert points * window == q * (2 * window) + r * window;
    assert r == 0 ==> r * window == 0;
    assert r == 1 ==> r * window == window;
    DivModUnique(points * window, 2 * window, q, r * window);
  }

  function Clamp(rt: int, window: int): int
    requires window > 0
  {
    if rt < 0 then 0 else if rt > window then window else rt
  }

  function Score(points: nat, responseMs: int, windowMs: int, mode: Mode, isCorrect: bool): int {
    if !isCorrect then 0
    else if mode == Fixed || windowMs <= 0 then points
    else RoundHalfEven(points * (2 * windowMs - Clamp(responseMs, windowMs)), 2 * windowMs)
  }

  /** The bounds of the scaled numerator, away from the rounding. */
  lemma NumeratorBounds(points: nat, rt: int, windowMs: int)
    requires 0 <= rt <= windowMs
    ensures points * windowMs <= points * (2 * windowMs - rt) <= points * (2 * windowMs)
  {
    assert points * (windowMs - rt) >= 0 && points * rt >= 0;
    assert points * (2 * windowMs - rt) == points * windowMs + points * (windowMs - rt);
    assert points * (2 * windowMs) == points * (2 * windowMs - rt) + points * rt;
  }

  lemma HalfAndWhole(points: nat, windowMs: int)
    requires windowMs > 0
    ensures RoundHalfEven(points * windowMs, 2 * windowMs) == RoundHalfEven(points, 2)
    ensures RoundHalfEven(points * (2 * windowMs), 2 * windowMs) == points
  {
    RoundHalf(points, windowMs);
    RoundWhole(points, 2 * windowMs);
  }

  /** Every award lies in 0..points; a correct speed-bonus award on a positive
      window is at least the half-even rounding of half the points. */
  lemma ScoreBounds(points: nat, responseMs: int, windowMs: int, mode: Mode, isCorrect: bool)
    ensures 0 <= Score(points, responseMs, windowMs, mode, isCorrect) <= points
    ensures isCorrect && mode == SpeedBonus && windowMs > 0 ==>
              RoundHalfEven(points, 2) <= Score(points, responseMs, windowMs, mode, isCorrect)
  {
    if isCorrect && mode == SpeedBonus && windowMs > 0 {
      var rt := Clamp(responseMs, windowMs);
      NumeratorBounds(points, rt, windowMs);
      HalfAndWhole(points, windowMs);
      RoundMonotone(points * windowMs, points * (2 * windowMs - rt), 2 * windowMs);
      RoundMonotone(points * (2 * windowMs - rt), points * (2 * windowMs), 2 * windowMs);
    }
  }

  /** Answering at once earns everything, answering at the deadline earns half. */
  lemma ScoreExtremes(points: nat, windowMs: int)
    requires windowMs > 0
    ensures Score(points, 0, windowMs, SpeedBonus, true) == points
    ensures Score(points, windowMs, windowMs, SpeedBonus, true) == RoundHalfEven(points, 2)
  {
    HalfAndWhole(points, windowMs);
    assert 2 * windowMs - 0 == 2 * windowMs && 2 * windowMs - windowMs == windowMs;
  }

  /** A slower answer never earns more. */
  lemma ScoreNeverRises(points: nat, fast: int, slow: int, windowMs: int, mode: Mode, isCorrect: bool)
    requires fast <= slow
    ensures Score(points, slow, windowMs, mode, isCorrect) <= Score(points, fast, windowMs, mode, isCorrect)
  {
    if isCorrect && mode == SpeedBonus && windowMs > 0 {
      var f, s := Clamp(fast, windowMs), Clamp(slow, windowMs);
      assert points * (2 * windowMs - f) - points * (2 * windowMs - s) == points * (s - f);
      RoundMonotone(points * (2 * windowMs - s), points * (2 * windowMs - f), 2 * windowMs);
    }
  }

  /** `r` is points * (1 - rt / (2 * window)), rounded half to even: the whole at once,
      half at the end of the window and after it, linear in between. */
  ghost predicate IsBonus(points: nat, rt: nat, window: int, r: int) {
    window > 0 && if rt <= window then IsNearestEven(points * (2 * window - rt), 2 * window, r)
                  else IsNearestEven(points * window, 2 * window, r)
  }

  /** What a correct answer earns at every moment of the window, exactly. */
  lemma BonusExactly(points: nat, rt: nat, window: int, r: int)
    requires window > 0
    ensures Score(points, rt, window, SpeedBonus, true) == r <==> IsBonus(points, rt, window, r)
  {
    RoundIsNearestEven(points * (2 * window - Clamp(rt, window)), 2 * window, r);
    assert 2 * window - window == window;
  }

  /** All cases at once. */
  lemma ScoreCases(points: nat, responseMs: nat, windowMs: int, mode: Mode, isCorrect: bool)
    ensures var r := Score(points, responseMs, windowMs, mode, isCorrect);
            && (!isCorrect ==> r == 0)
            && (isCorrect && (mode == Fixed || windowMs <= 0 || responseMs == 0) ==> r == points)
            && (isCorrect && mode == SpeedBonus && windowMs > 0 ==> IsBonus(points, responseMs, windowMs, r))
            && (isCorrect ==> RoundHalfEven(points, 2) <= r <= points)
  {
    ScoreBounds(points, responseMs, windowMs, mode, isCorrect);
    if windowMs > 0 {
      ScoreExtremes(points, windowMs);
      BonusExactly(points, responseMs, windowMs, Score(points, responseMs, windowMs, SpeedBonus, true));
    }
  }
}
