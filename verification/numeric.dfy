/** Rounding and clipping of velocities, over exact reals. */
module Numeric {
  /** Nearest integer, ties to even: the rule of Python's round. */
  function RoundHalfEven(y: real): int {
    var low := y.Floor;
    var rest := y - low as real;
    if rest < 0.5 then low
    else if rest > 0.5 then low + 1
    else if low % 2 == 0 then low else low + 1
  }

  /** round(x, 2). */
  function Round2(x: real): real {
    RoundHalfEven(x * 100.0) as real / 100.0
  }

  function Min(a: real, b: real): real { if b < a then b else a }

  function Max(a: real, b: real): real { if a < b then b else a }

  /** numpy.clip. */
  function Clip(v: real, lo: real, hi: real): real { Min(Max(v, lo), hi) }

  /** The bridge's clamp. */
  function Clamp(v: real, lo: real, hi: real): real { Max(lo, Min(hi, v)) }

  function Distance(a: real, b: real): (d: real)
    ensures d >= 0.0 && (d == a - b || d == b - a)
  {
    if a < b then b - a else a - b
  }

  /** RoundHalfEven is the only integer that is nearest, and even when two are. */
  lemma RoundIsNearest(y: real, n: int)
    ensures n == RoundHalfEven(y) <==>
            Distance(y, n as real) < 0.5 || (Distance(y, n as real) == 0.5 && n % 2 == 0)
  {
    var low := y.Floor;
    if low < n {
      assert n >= low + 1;
      if n > low + 1 { assert n as real >= low as real + 2.0; }
    } else if n < low {
      assert n as real <= low as real - 1.0;
    }
  }

  /** Round2 gives n hundredths exactly when n is the nearest number of hundredths, even on a tie. */
  lemma Round2IsHundredths(x: real, n: int)
    ensures Round2(x) == n as real / 100.0 <==>
            Distance(x, n as real / 100.0) < 0.005 || (Distance(x, n as real / 100.0) == 0.005 && n % 2 == 0)
  {
    RoundIsNearest(x * 100.0, n);
    assert Distance(x * 100.0, n as real) == 100.0 * Distance(x, n as real / 100.0);
  }

  lemma RoundIsOdd(y: real)
    ensures RoundHalfEven(-y) == -RoundHalfEven(y)
  {
    var n := RoundHalfEven(y);
    RoundIsNearest(y, n);
    RoundIsNearest(-y, -n);
  }

  lemma RoundIsMonotone(y: real, z: real)
    requires y <= z
    ensures RoundHalfEven(y) <= RoundHalfEven(z)
  {
    var n, m := RoundHalfEven(y), RoundHalfEven(z);
    RoundIsNearest(y, n);
    RoundIsNearest(z, m);
    if m < n {
      assert false;
    }
  }

  lemma RoundFixesIntegers(n: int)
    ensures RoundHalfEven(n as real) == n
  {
    RoundIsNearest(n as real, n);
  }

  lemma RoundKeepsRange(y: real, k: int)
    requires -k as real <= y <= k as real
    ensures -k <= RoundHalfEven(y) <= k
    ensures Distance(y, RoundHalfEven(y) as real) <= 0.5
  {
    RoundFixesIntegers(k);
    RoundFixesIntegers(-k);
    RoundIsMonotone(-k as real, y);
    RoundIsMonotone(y, k as real);
    RoundIsNearest(y, RoundHalfEven(y));
  }

  /** Rounding never leaves a symmetric range whose bound is a whole number of hundredths. */
  lemma Round2KeepsRange(x: real, k: int)
    requires -(k as real / 100.0) <= x <= k as real / 100.0
    ensures -(k as real / 100.0) <= Round2(x) <= k as real / 100.0
    ensures Distance(x, Round2(x)) <= 0.005
  {
    var n := RoundHalfEven(x * 100.0);
    assert -k as real == -(k as real);
    RoundKeepsRange(x * 100.0, k);
    assert -(k as real) <= n as real <= k as real;
  }

  /** Clamping is the projection on [lo, hi]: inside, and no point inside is nearer. */
  lemma ClampProjects(v: real, lo: real, hi: real, w: real)
    requires lo <= w <= hi
    ensures lo <= Clamp(v, lo, hi) <= hi
    ensures Distance(v, Clamp(v, lo, hi)) <= Distance(v, w)
    ensures Clip(v, lo, hi) == Clamp(v, lo, hi)
  {}

  /** u is the point of [-bound, bound] nearest to v. */
  ghost predicate NearestIn(u: real, v: real, bound: real) {
    -bound <= u <= bound && forall w :: -bound <= w <= bound ==> Distance(v, u) <= Distance(v, w)
  }

  /** Both clips give the nearest speed within a limit. */
  lemma ClipIsNearest(v: real, bound: real)
    requires bound >= 0.0
    ensures NearestIn(Clamp(v, -bound, bound), v, bound)
    ensures NearestIn(Clip(v, -bound, bound), v, bound)
  {
    forall w | -bound <= w <= bound
      ensures Distance(v, Clamp(v, -bound, bound)) <= Distance(v, w)
    {
      ClampProjects(v, -bound, bound, w);
    }
    ClampProjects(v, -bound, bound, 0.0);
  }

  /** What the bridge sends for one axis when the brain asked for v. */
  function Received(v: real, bound: real): real {
    Clamp(-Clip(Round2(v), -bound, bound), -bound, bound)
  }

  /** Both clips are the identity on a bounded command: the robot gets the negated command
      rounded to hundredths, at most half a hundredth off. */
  lemma TransportIsExact(v: real, k: int)
    requires -(k as real / 100.0) <= v <= k as real / 100.0
    ensures Received(v, k as real / 100.0) == -Round2(v) == Round2(-v)
    ensures Distance(-v, Received(v, k as real / 100.0)) <= 0.005
  {
    Round2KeepsRange(v, k);
    RoundIsOdd(v * 100.0);
    assert (-v) * 100.0 == -(v * 100.0);
  }
}
