/**
 * What both engine revisions share about the grid of chunks: the pixel size
 * of each octave level, the shape of the octave table, and the spiral index
 * of each chunk corner, from which the corner's random draws are replayed.
 */
module ChunkGrid {
  import G = OctaveGeometry
  import Util
  import Tiling

  /** 2 * (float) Math.PI, the bound of the angle draw. */
  const TWO_PI: real := 6.2831855

  /* ---------------------------------------------------------------------- */
  /* Octave sizes                                                           */
  /* ---------------------------------------------------------------------- */

  /** The pixel size of octave `level`: the base size divided by l, level times (integer division). */
  function LevelSize(base: nat, l: nat, level: nat): nat
    requires l >= 1
  {
    if level == 0 then base else LevelSize(base, l, level - 1) / l
  }

  function Pow(l: nat, k: nat): (r: nat)
    requires l >= 1
    ensures r >= 1
  {
    if k == 0 then 1 else Tiling.MultiplyMonotone(1, Pow(l, k - 1), l); Pow(l, k - 1) * l
  }

  /** Integer division is unique: a = k * b + m with 0 <= m < b gives a / b = k. */
  lemma DivUnique(a: int, b: int, k: int, m: int)
    requires b > 0 && 0 <= m < b && a == k * b + m
    ensures a / b == k
  {
    Tiling.BlockDecompose(k, m, b);
  }

  /** Dividing by b and then by c is dividing by b * c. */
  lemma DivDiv(a: nat, b: nat, c: nat)
    requires b > 0 && c > 0
    ensures a / b / c == a / (b * c)
  {
    var q := a / (b * c);
    var r := a % (b * c);
    var s := r / b;
    var t := r % b;
    assert a == q * (b * c) + r;
    assert r == s * b + t;
    assert s < c by {
      if s >= c {
        Tiling.MultiplyMonotone(c, s, b);
      }
    }
    assert a == (q * c + s) * b + t by {
      assert q * (b * c) == (q * c) * b;
      assert (q * c) * b + s * b == (q * c + s) * b;
    }
    DivUnique(a, b, q * c + s, t);
    DivUnique(q * c + s, c, q, s);
  }

  lemma Associate(k: int, p: int, l: int)
    ensures k * (p * l) == (k * l) * p
  {
  }

  /** Dividing l times in a row is dividing by l to the level. */
  lemma {:induction false} LevelSizeIsQuotient(base: nat, l: nat, level: nat)
    requires l >= 1
    ensures LevelSize(base, l, level) == base / Pow(l, level)
  {
    if level > 0 {
      LevelSizeIsQuotient(base, l, level - 1);
      DivDiv(base, Pow(l, level - 1), l);
      assert Pow(l, level - 1) * l == Pow(l, level);
    }
  }

  /** With lacunarity 1 every octave has the chunk's own pixel size. */
  lemma {:induction false} UnitLacunarity(base: nat, level: nat)
    ensures LevelSize(base, 1, level) == base
  {
    if level > 0 {
      UnitLacunarity(base, level - 1);
    }
  }

  /**
   * When the base size is divisible by l to the level, no division on the
   * way down has a remainder: each level is exactly l times the next.
   */
  lemma {:induction false} DivisibleSizesTile(base: nat, l: nat, level: nat)
    requires l >= 1 && level >= 1 && base % Pow(l, level) == 0
    ensures LevelSize(base, l, level) * l == LevelSize(base, l, level - 1)
    ensures base % Pow(l, level - 1) == 0
  {
    LevelSizeIsQuotient(base, l, level);
    LevelSizeIsQuotient(base, l, level - 1);
    var p := Pow(l, level - 1);
    var pl := Pow(l, level);
    var k := base / pl;
    assert pl == p * l;
    assert base == k * pl by {
      assert base == k * pl + base % pl;
    }
    assert k * pl == (k * l) * p by {
      Associate(k, p, l);
    }
    Tiling.BlockDecompose(k * l, 0, p);
    DivUnique(base / p, l, k, 0);
  }

  /* ---------------------------------------------------------------------- */
  /* Corner identity                                                        */
  /* ---------------------------------------------------------------------- */

  /** genInfluenceVectorIndecies: the spiral index of each corner of chunk (x, y), by mask. */
  function CornerIndices(x: int, y: int): (r: seq<int>)
    ensures |r| == G.MASKS && forall m | 0 <= m < G.MASKS :: r[m] >= 0
  {
    Util.SpiralNonNegative(x, y);
    Util.SpiralNonNegative(x + 1, y);
    Util.SpiralNonNegative(x, y + 1);
    Util.SpiralNonNegative(x + 1, y + 1);
    [Util.PointToSpiral(x, y), Util.PointToSpiral(x + 1, y), Util.PointToSpiral(x, y + 1), Util.PointToSpiral(x + 1, y + 1)]
  }

  /** Neighbouring chunks share the indices, hence the influence draws, of their common corners. */
  lemma SharedCorners(x: int, y: int)
    ensures CornerIndices(x, y)[G.TR] == CornerIndices(x + 1, y)[G.TL]
    ensures CornerIndices(x, y)[G.BR] == CornerIndices(x + 1, y)[G.BL]
    ensures CornerIndices(x, y)[G.BL] == CornerIndices(x, y + 1)[G.TL]
    ensures CornerIndices(x, y)[G.BR] == CornerIndices(x, y + 1)[G.TR]
  {
  }

  /** A chunk's four corners have four different indices, and no other chunk has the same four. */
  lemma CornerIndicesIdentify(x1: int, y1: int, x2: int, y2: int)
    ensures forall m, k | 0 <= m < k < G.MASKS :: CornerIndices(x1, y1)[m] != CornerIndices(x1, y1)[k]
    ensures CornerIndices(x1, y1)[G.TL] == CornerIndices(x2, y2)[G.TL] ==> x1 == x2 && y1 == y2
  {
    forall m, k | 0 <= m < k < G.MASKS
      ensures CornerIndices(x1, y1)[m] != CornerIndices(x1, y1)[k]
    {
      var px := [x1, x1 + 1, x1, x1 + 1];
      var py := [y1, y1, y1 + 1, y1 + 1];
      if CornerIndices(x1, y1)[m] == CornerIndices(x1, y1)[k] {
        Util.SpiralInjective(px[m], py[m], px[k], py[k]);
      }
    }
    if CornerIndices(x1, y1)[G.TL] == CornerIndices(x2, y2)[G.TL] {
      Util.SpiralInjective(x1, y1, x2, y2);
    }
  }

  /** Level k of the table is octave k, of size LevelSize(base, l, k). */
  ghost predicate Levels(table: seq<G.PerlinOctave>, base: nat, l: nat)
    requires l >= 1
    reads set o | o in table :: o.pixelDistanceVectors
  {
    forall k | 0 <= k < |table| ::
      table[k].Valid() && table[k].n == k && table[k].psize == LevelSize(base, l, k)
  }

  /** A table of levels stays one when the next level is appended. */
  lemma LevelsAppend(table: seq<G.PerlinOctave>, oct: G.PerlinOctave, base: nat, l: nat)
    requires l >= 1 && Levels(table, base, l)
    requires oct.Valid() && oct.n == |table| && oct.psize == LevelSize(base, l, |table|)
    ensures Levels(table + [oct], base, l)
  {
    var t := table + [oct];
    forall k | 0 <= k < |t|
      ensures t[k].Valid() && t[k].n == k && t[k].psize == LevelSize(base, l, k)
    {
      if k < |table| {
        assert t[k] == table[k];
      }
    }
  }

  /** The loop of setOctaves(octaves, lacunarity), in both revisions: octave i of size LevelSize(base, l, i), for i below o. */
  method BuildTable(base: nat, l: nat, o: nat) returns (table: seq<G.PerlinOctave>)
    requires l >= 1
    ensures |table| == o && Levels(table, base, l)
    ensures forall k | 0 <= k < o :: fresh(table[k])
  {
    table := [];
    var size := base;
    for i := 0 to o
      invariant |table| == i && size == LevelSize(base, l, i)
      invariant Levels(table, base, l)
      invariant forall k | 0 <= k < i :: fresh(table[k])
    {
      var oct := new G.PerlinOctave(i, size);
      LevelsAppend(table, oct, base, l);
      table := table + [oct];
      size := size / l;
    }
  }

  /** The growing branch of setOctaves(octaves), in both revisions: each new level divides the last level's size by l. */
  method ExtendTable(table: seq<G.PerlinOctave>, base: nat, l: nat, o: nat) returns (t: seq<G.PerlinOctave>)
    requires l >= 1 && 1 <= |table| < o && Levels(table, base, l)
    ensures |t| == o && t[..|table|] == table && Levels(t, base, l)
    ensures forall k | |table| <= k < o :: fresh(t[k])
  {
    t := table;
    var size := table[|table| - 1].psize;
    for i := |table| to o
      invariant |t| == i && t[..|table|] == table
      invariant size == LevelSize(base, l, i - 1)
      invariant Levels(t, base, l)
      invariant forall k | |table| <= k < i :: fresh(t[k])
    {
      size := size / l;
      var oct := new G.PerlinOctave(i, size);
      LevelsAppend(t, oct, base, l);
      assert (t + [oct])[..|table|] == t[..|table|];
      t := t + [oct];
    }
  }

  /** genInfluenceVectorIndecies: in both revisions, the spiral indices of the chunk's four corners. */
  method GenInfluenceVectorIndices(x: int, y: int) returns (index: array<int>)
    ensures fresh(index) && index[..] == CornerIndices(x, y)
  {
    index := new int[G.MASKS];
    index[G.TL] := Util.PointToSpiral(x, y);
    index[G.TR] := Util.PointToSpiral(x + 1, y);
    index[G.BL] := Util.PointToSpiral(x, y + 1);
    index[G.BR] := Util.PointToSpiral(x + 1, y + 1);
  }
}
