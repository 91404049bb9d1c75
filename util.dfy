/**
 * Util: the deterministic corner identity (spiral index), the seeded replay
 * of a random stream, and the smoothing lerp.
 */
module Util {
  import opened Wrappers
  import opened Rng
  import opened InnerProductSpace

  /* ---------------------------------------------------------------------- */
  /* Replaying a seeded stream                                              */
  /* ---------------------------------------------------------------------- */

  /** The value getRandomFloatAtIndex returns: the index-th draw after seeding, -1 for a negative index. */
  function FloatAtIndex(s: Stream, index: int, seed: int, bound: real): (r: real)
    requires Bounded(s) && bound > 0.0
    ensures index >= 0 ==> 0.0 <= r < bound
    ensures index < 0 ==> r == -1.0
  {
    if index < 0 then -1.0 else s.nextFloat(seed, index, bound)
  }

  /** The value getRandomIntAtIndex returns: the index-th draw after seeding, -1 for a negative index. */
  function IntAtIndex(s: Stream, index: int, seed: int, bound: int): (r: int)
    requires Bounded(s) && bound > 0
    ensures index >= 0 ==> 0 <= r < bound
    ensures index < 0 ==> r == -1
  {
    if index < 0 then -1 else s.nextInt(seed, index, bound)
  }

  /**
   * getRandomFloatAtIndex: reseed, then draw index+1 times and return the
   * last draw. The generator is left seeded and advanced, not restored.
   */
  method GetRandomFloatAtIndex(index: int, random: Random, seed: int, bound: real) returns (r: Result<real>)
    requires random.Valid()
    modifies random
    ensures random.seed == seed
    ensures index < 0 ==> r == Ok(-1.0) && random.drawn == 0
    ensures index >= 0 && bound <= 0.0 ==> r == Err(IllegalArgument) && random.drawn == 0
    ensures index >= 0 && bound > 0.0 ==>
              r == Ok(FloatAtIndex(random.stream, index, seed, bound)) && random.drawn == index + 1
  {
    random.SetSeed(seed);
    var i := 0;
    while i <= index
      invariant 0 <= i && (index >= 0 ==> i <= index) && (index < 0 ==> i == 0)
      invariant bound <= 0.0 ==> i == 0
      invariant random.seed == seed && random.drawn == i
    {
      var f := random.NextFloat(bound);
      if f.Err? {
        return Err(f.error);
      }
      if i == index {
        return f;
      }
      i := i + 1;
    }
    return Ok(-1.0);
  }

  /**
   * getRandomIntAtIndex: reseed, then draw index+1 times and return the
   * last draw. The generator is left seeded and advanced, not restored.
   */
  method GetRandomIntAtIndex(index: int, random: Random, seed: int, bound: int) returns (r: Result<int>)
    requires random.Valid()
    modifies random
    ensures random.seed == seed
    ensures index < 0 ==> r == Ok(-1) && random.drawn == 0
    ensures index >= 0 && bound <= 0 ==> r == Err(IllegalArgument) && random.drawn == 0
    ensures index >= 0 && bound > 0 ==>
              r == Ok(IntAtIndex(random.stream, index, seed, bound)) && random.drawn == index + 1
  {
    random.SetSeed(seed);
    var i := 0;
    while i <= index
      invariant 0 <= i && (index >= 0 ==> i <= index) && (index < 0 ==> i == 0)
      invariant bound <= 0 ==> i == 0
      invariant random.seed == seed && random.drawn == i
    {
      var f := random.NextInt(bound);
      if f.Err? {
        return Err(f.error);
      }
      if i == index {
        return f;
      }
      i := i + 1;
    }
    return Ok(-1);
  }

  /**
   * Two generators over the same stream, in any prior state, give the same
   * value for the same (index, seed, bound): the replay forgets the past.
   */
  method ReplayIgnoresHistory(r1: Random, r2: Random, index: int, seed: int, bound: int)
    returns (a: Result<int>, b: Result<int>)
    requires r1.Valid() && r2.Valid() && r1.stream == r2.stream && r1 != r2
    modifies r1, r2
    ensures a == b
    ensures index >= 0 && bound > 0 ==> a.Ok? && 0 <= a.value < bound
  {
    a := GetRandomIntAtIndex(index, r1, seed, bound);
    b := GetRandomIntAtIndex(index, r2, seed, bound);
  }

  /* ---------------------------------------------------------------------- */
  /* Spiral index of a lattice point                                        */
  /* ---------------------------------------------------------------------- */

  /** pointToSpiral, over unbounded integers. */
  function PointToSpiral(x: int, y: int): int {
    if y * y >= x * x then
      var p := 4 * y * y - y - x;
      if y < x then p - 2 * (y - x) else p
    else
      var p := 4 * x * x - y - x;
      if y < x then p + 2 * (y - x) else p
  }

  function Abs(a: int): nat {
    if a < 0 then -a else a
  }

  /** The square ring (Chebyshev distance from the origin) a point lies on. */
  function Ring(x: int, y: int): nat {
    if Abs(x) < Abs(y) then Abs(y) else Abs(x)
  }

  /**
   * Where on its ring a point lies, relative to 4m^2 (m the ring): the top
   * side y = m, then the side x = -m, the side y = -m, the side x = m.
   */
  function SideOffset(x: int, y: int): int {
    var m: int := Ring(x, y);
    if y == m then -m - x
    else if x == -m then m - y
    else if y == -m then 3 * m + x
    else y - 3 * m
  }

  lemma SquareMonotone(u: int, v: int)
    requires 0 <= v <= u
    ensures v * v <= u * u
    ensures v < u ==> v * v < u * u
  {
    var d := u - v;
    assert u * u == v * v + 2 * (v * d) + d * d;
    assert v * d >= 0;
    assert d > 0 ==> d * d > 0;
  }

  lemma SquaresCompare(a: int, b: int)
    ensures a * a >= b * b <==> Abs(a) >= Abs(b)
  {
    var u: int, v: int := Abs(a), Abs(b);
    assert a * a == u * u && b * b == v * v;
    if u >= v {
      SquareMonotone(u, v);
    } else {
      SquareMonotone(v, u);
    }
  }

  lemma SpiralDecomposition(x: int, y: int)
    ensures PointToSpiral(x, y) == 4 * (Ring(x, y) * Ring(x, y)) + SideOffset(x, y)
  {
    var m: int := Ring(x, y);
    SquaresCompare(y, x);
    assert 4 * y * y == 4 * (y * y) && 4 * x * x == 4 * (x * x);
    if Abs(x) < Abs(y) {
      assert y * y == m * m by {
        SquareOfAbs(y);
      }
    } else {
      assert x * x == m * m by {
        SquareOfAbs(x);
      }
    }
  }

  lemma SquareOfAbs(a: int)
    ensures a * a == Abs(a) * Abs(a)
  {
    if a < 0 {
      assert a * a == (-a) * (-a);
    }
  }

  lemma SideOffsetRange(x: int, y: int)
    ensures var m := Ring(x, y); -4 * m <= SideOffset(x, y) <= 4 * m
    ensures Ring(x, y) > 0 ==> -4 * Ring(x, y) < SideOffset(x, y)
    ensures Ring(x, y) == 0 ==> SideOffset(x, y) == 0
  {
    var m: int := Ring(x, y);
    assert -m <= x <= m && -m <= y <= m;
    if y == m {
    } else if x == -m {
      assert y < m;
    } else if y == -m {
      assert x > -m;
    } else {
      assert x == m && -m < y < m;
    }
  }

  /** On one ring the offset determines the point. */
  lemma SideOffsetInjective(x1: int, y1: int, x2: int, y2: int)
    requires Ring(x1, y1) == Ring(x2, y2)
    requires SideOffset(x1, y1) == SideOffset(x2, y2)
    ensures x1 == x2 && y1 == y2
  {
  }

  lemma RingsApart(a: nat, b: nat)
    requires a < b
    ensures 4 * (a * a) + 4 * a < 4 * (b * b) - 4 * b + 1
  {
    assert b * b - b == b * (b - 1);
    assert b - 1 >= a;
    assert b * (b - 1) >= (a + 1) * a by {
      assert b * (b - 1) >= b * a;
      assert b * a >= (a + 1) * a;
    }
  }

  /** Points on an inner ring get smaller indices than points on an outer ring. */
  lemma SpiralOrdersRings(x1: int, y1: int, x2: int, y2: int)
    requires Ring(x1, y1) < Ring(x2, y2)
    ensures PointToSpiral(x1, y1) < PointToSpiral(x2, y2)
  {
    SpiralDecomposition(x1, y1);
    SpiralDecomposition(x2, y2);
    SideOffsetRange(x1, y1);
    SideOffsetRange(x2, y2);
    RingsApart(Ring(x1, y1), Ring(x2, y2));
    var a, b := Ring(x1, y1), Ring(x2, y2);
    assert PointToSpiral(x1, y1) <= 4 * (a * a) + 4 * a;
    assert PointToSpiral(x2, y2) > 4 * (b * b) - 4 * b;
  }

  /** pointToSpiral gives distinct lattice points distinct indices. */
  lemma {:induction false} SpiralInjective(x1: int, y1: int, x2: int, y2: int)
    requires PointToSpiral(x1, y1) == PointToSpiral(x2, y2)
    ensures x1 == x2 && y1 == y2
  {
    if Ring(x1, y1) < Ring(x2, y2) {
      SpiralOrdersRings(x1, y1, x2, y2);
    } else if Ring(x2, y2) < Ring(x1, y1) {
      SpiralOrdersRings(x2, y2, x1, y1);
    } else {
      SpiralDecomposition(x1, y1);
      SpiralDecomposition(x2, y2);
      SideOffsetInjective(x1, y1, x2, y2);
    }
  }

  /** Every point of ring m gets an index in (2m-1)^2 .. (2m+1)^2 - 1; the origin gets 0. */
  lemma SpiralRingBounds(x: int, y: int)
    ensures var m := Ring(x, y);
            (2 * m - 1) * (2 * m - 1) <= PointToSpiral(x, y) + (if m == 0 then 1 else 0)
            && PointToSpiral(x, y) < (2 * m + 1) * (2 * m + 1)
  {
    SpiralDecomposition(x, y);
    SideOffsetRange(x, y);
    RingArithmetic(Ring(x, y), SideOffset(x, y), PointToSpiral(x, y));
  }

  /** The point of ring m > 0 at offset `off` along it: the inverse of SideOffset on that ring. */
  function RingPoint(m: nat, off: int): (p: (int, int))
    requires m > 0 && -4 * m < off <= 4 * m
    ensures Ring(p.0, p.1) == m && SideOffset(p.0, p.1) == off
  {
    var n: int := m;
    if -2 * n <= off <= 0 then (-n - off, n)
    else if 0 < off <= 2 * n then (-n, n - off)
    else if 2 * n < off then (off - 3 * n, -n)
    else (n, off + 3 * n)
  }

  /** Ring m takes every index in (2m-1)^2 .. (2m+1)^2 - 1, and the origin takes 0: the spiral misses no index. */
  lemma SpiralRingCovers(m: nat, k: int)
    requires (2 * m - 1) * (2 * m - 1) <= k + (if m == 0 then 1 else 0) && k < (2 * m + 1) * (2 * m + 1)
    ensures exists x, y :: Ring(x, y) == m && PointToSpiral(x, y) == k
  {
    if m == 0 {
      assert k == 0;
      assert Ring(0, 0) == 0 && PointToSpiral(0, 0) == 0;
    } else {
      var sq := m * m;
      assert (2 * m - 1) * (2 * m - 1) == 4 * sq - 4 * m + 1;
      assert (2 * m + 1) * (2 * m + 1) == 4 * sq + 4 * m + 1;
      var p := RingPoint(m, k - 4 * sq);
      SpiralDecomposition(p.0, p.1);
      assert Ring(p.0, p.1) == m && PointToSpiral(p.0, p.1) == k;
    }
  }

  lemma RingArithmetic(m: nat, off: int, p: int)
    requires p == 4 * (m * m) + off
    requires -4 * m <= off <= 4 * m && (m > 0 ==> -4 * m < off) && (m == 0 ==> off == 0)
    ensures (2 * m - 1) * (2 * m - 1) <= p + (if m == 0 then 1 else 0)
    ensures p < (2 * m + 1) * (2 * m + 1)
    ensures m > 0 ==> p > 0
    ensures m == 0 ==> p == 0
  {
    var sq := m * m;
    assert m > 0 ==> sq >= m by {
      if m > 0 {
        SquareMonotone(m, 1);
        assert m * m >= m * 1;
      }
    }
    assert (2 * m - 1) * (2 * m - 1) == 4 * sq - 4 * m + 1;
    assert (2 * m + 1) * (2 * m + 1) == 4 * sq + 4 * m + 1;
  }

  /** Indices are never negative, and the origin alone has index 0. */
  lemma SpiralNonNegative(x: int, y: int)
    ensures PointToSpiral(x, y) >= 0
    ensures PointToSpiral(x, y) == 0 <==> x == 0 && y == 0
  {
    SpiralDecomposition(x, y);
    SideOffsetRange(x, y);
    RingArithmetic(Ring(x, y), SideOffset(x, y), PointToSpiral(x, y));
  }

  lemma SquareFits(a: int)
    requires -23000 <= a <= 23000
    ensures 0 <= a * a <= 529000000
  {
    SquareMonotone(23000, Abs(a));
    assert a * a == Abs(a) * Abs(a);
  }

  /** Within |x|, |y| <= 23000 the squares and the index fit a Java int, so no overflow happens there. */
  lemma SpiralFitsInt(x: int, y: int)
    requires -23000 <= x <= 23000 && -23000 <= y <= 23000
    ensures 0 <= x * x <= 529000000 && 0 <= y * y <= 529000000
    ensures 0 <= PointToSpiral(x, y) < 0x8000_0000
  {
    SquareFits(x);
    SquareFits(y);
    SpiralDecomposition(x, y);
    SideOffsetRange(x, y);
    var m: int := Ring(x, y);
    var off := SideOffset(x, y);
    RingArithmetic(m, off, PointToSpiral(x, y));
    SquareFits(m);
    var sq := m * m;
    assert PointToSpiral(x, y) == 4 * sq + off;
    assert off <= 4 * m <= 92000;
  }

  /* ---------------------------------------------------------------------- */
  /* Smoothing lerp                                                         */
  /* ---------------------------------------------------------------------- */

  /** The quintic smoothstep weight 6t^5 - 15t^4 + 10t^3 (over reals). */
  function Smooth(t: real): real {
    6.0 * t * t * t * t * t - 15.0 * t * t * t * t + 10.0 * t * t * t
  }

  lemma SmoothEnds()
    ensures Smooth(0.0) == 0.0 && Smooth(1.0) == 1.0
  {
  }

  /** The weight is symmetric about 1/2 and stays in [0, 1] on [0, 1]. */
  lemma SmoothInUnit(t: real)
    requires 0.0 <= t <= 1.0
    ensures Smooth(t) + Smooth(1.0 - t) == 1.0
    ensures 0.0 <= Smooth(t) <= 1.0
  {
    SmoothNonNegative(t);
    SmoothNonNegative(1.0 - t);
  }

  lemma SmoothNonNegative(t: real)
    requires t >= 0.0
    ensures Smooth(t) >= 0.0
  {
    var q := 6.0 * t * t - 15.0 * t + 10.0;
    var d := t - 1.25;
    assert q == 6.0 * (d * d) + 0.625;
    assert d * d >= 0.0;
    var c := t * t * t;
    assert c >= 0.0 by {
      assert t * t >= 0.0;
    }
    assert Smooth(t) == c * q;
  }

  /** lerps(val1, val2, aProp): val1.lerp(val2, a) with a the smoothed proportion. */
  function Lerps<E>(sp: Space<E>, val1: E, val2: E, aProp: real): E {
    sp.lerp(val1, val2, Smooth(aProp))
  }

  /** For reals, the smoothed lerp reproduces its end values exactly. */
  lemma LerpsEnds(a: real, b: real)
    ensures Lerps(RealSpace(), a, b, 0.0) == a
    ensures Lerps(RealSpace(), a, b, 1.0) == b
  {
    SmoothEnds();
  }
}
