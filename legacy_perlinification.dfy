/**
 * Perlinification of the float engine: dot each pixel's corner distance
 * with the corner's influence vector, one mask per corner, then lerp the
 * masks together horizontally and vertically with the smoothed weight.
 */
module LegacyPerlinification {
  import opened Vector2D
  import opened InnerProductSpace
  import G = OctaveGeometry
  import Util

  /** lerp(val1, val2, aProp): val1 + s * (val2 - val1), s the smoothed proportion. */
  function Lerp(val1: real, val2: real, aProp: real): real {
    val1 + Util.Smooth(aProp) * (val2 - val1)
  }

  /** The smoothed lerp gives val1 at proportion 0 and val2 at proportion 1. */
  lemma LerpEnds(val1: real, val2: real)
    ensures Lerp(val1, val2, 0.0) == val1
    ensures Lerp(val1, val2, 1.0) == val2
  {
    Util.SmoothEnds();
  }

  /** The float lerp agrees with the generic smoothed lerp over the real line. */
  lemma LerpIsGenericLerps(val1: real, val2: real, aProp: real)
    ensures Lerp(val1, val2, aProp) == Util.Lerps(RealSpace(), val1, val2, aProp)
  {
  }

  /** Mask `m` at pixel (x, y): the pixel's distance to the corner dotted with the corner's influence vector. */
  function MaskCell(invecs: seq<Point>, psize: nat, m: nat, x: nat, y: nat): real
    requires m < G.MASKS <= |invecs| && psize > 0
  {
    PDot(G.DistanceVector(m, x, y, psize), invecs[m])
  }

  /** One cell of a lerpMs result: k is x for a horizontal lerp and y for a vertical one. */
  function LerpCell(v1: real, v2: real, x: nat, y: nat, size: nat, lr: bool): real
    requires size > 0
  {
    Lerp(v1, v2, G.Frac(if lr then x else y, size))
  }

  /** Pixel (x, y) of perlinAChunk: top and bottom masks lerped across, then the two rows lerped down. */
  function ChunkCell(invecs: seq<Point>, psize: nat, x: nat, y: nat): real
    requires G.MASKS <= |invecs| && psize > 0
  {
    var top := LerpCell(MaskCell(invecs, psize, G.TL, x, y), MaskCell(invecs, psize, G.TR, x, y), x, y, psize, true);
    var bottom := LerpCell(MaskCell(invecs, psize, G.BL, x, y), MaskCell(invecs, psize, G.BR, x, y), x, y, psize, true);
    LerpCell(top, bottom, x, y, psize, false)
  }

  /** Column 0 of a horizontal lerp, and row 0 of a vertical lerp, copy the first mask. */
  lemma LerpCellFirstLine(v1: real, v2: real, x: nat, y: nat, size: nat)
    requires size > 0
    ensures LerpCell(v1, v2, 0, y, size, true) == v1
    ensures LerpCell(v1, v2, x, 0, size, false) == v1
  {
    LerpEnds(v1, v2);
  }

  /** The noise vanishes at the chunk's top-left corner pixel, whatever the influence vectors. */
  lemma ChunkCellZeroAtOrigin(invecs: seq<Point>, psize: nat)
    requires G.MASKS <= |invecs| && psize > 0
    ensures ChunkCell(invecs, psize, 0, 0) == 0.0
  {
    var tl := MaskCell(invecs, psize, G.TL, 0, 0);
    assert tl == 0.0;
    var top := LerpCell(tl, MaskCell(invecs, psize, G.TR, 0, 0), 0, 0, psize, true);
    LerpCellFirstLine(tl, MaskCell(invecs, psize, G.TR, 0, 0), 0, 0, psize);
    LerpCellFirstLine(top, LerpCell(MaskCell(invecs, psize, G.BL, 0, 0), MaskCell(invecs, psize, G.BR, 0, 0), 0, 0, psize, true), 0, 0, psize);
  }

  /** The influence vectors' current values. */
  function Values(invecs: array<Vector2f>): (r: seq<Point>)
    reads invecs, invecs[..]
    ensures |r| == invecs.Length && forall i | 0 <= i < invecs.Length :: r[i] == invecs[i].Value()
  {
    seq(invecs.Length, i reads invecs, invecs[..] requires 0 <= i < invecs.Length => invecs[i].Value())
  }

  /** The four per-corner float masks of one chunk; m[mask] is the same grid as the named field. */
  class Masks {
    const size: nat
    const TL: array2<real>
    const TR: array2<real>
    const BL: array2<real>
    const BR: array2<real>
    const m: array<array2<real>>

    ghost predicate Valid()
      reads m
    {
      && m.Length == G.MASKS
      && m[G.TL] == TL && m[G.TR] == TR && m[G.BL] == BL && m[G.BR] == BR
      && TL != TR && TL != BL && TL != BR && TR != BL && TR != BR && BL != BR
      && TL.Length0 == TL.Length1 == size && TR.Length0 == TR.Length1 == size
      && BL.Length0 == BL.Length1 == size && BR.Length0 == BR.Length1 == size
    }

    constructor (size: nat)
      ensures Valid() && this.size == size
      ensures fresh(m) && fresh(TL) && fresh(TR) && fresh(BL) && fresh(BR)
    {
      this.size := size;
      var tl := new real[size, size];
      var bl := new real[size, size];
      var tr := new real[size, size];
      var br := new real[size, size];
      TL, BL, TR, BR := tl, bl, tr, br;
      m := new array2<real>[G.MASKS](_ => tl);
      new;
      m[G.TL] := TL;
      m[G.BL] := BL;
      m[G.TR] := TR;
      m[G.BR] := BR;
    }
  }

  /** perlinAMask: writes every pixel of mask `mask`, and no other mask. */
  method PerlinAMask(mask: nat, masks: Masks, oct: G.PerlinOctave, invecs: array<Vector2f>)
    requires mask < G.MASKS <= invecs.Length
    requires masks.Valid() && oct.Valid() && masks.size == oct.psize
    modifies masks.m[mask]
    ensures forall x, y | 0 <= x < oct.psize && 0 <= y < oct.psize ::
              masks.m[mask][x, y] == MaskCell(Values(invecs), oct.psize, mask, x, y)
  {
    var grid := masks.m[mask];
    for x := 0 to oct.psize
      invariant forall x', y | 0 <= x' < x && 0 <= y < oct.psize ::
                  grid[x', y] == MaskCell(Values(invecs), oct.psize, mask, x', y)
    {
      for y := 0 to oct.psize
        invariant forall x', y' | 0 <= x' < x && 0 <= y' < oct.psize ::
                    grid[x', y'] == MaskCell(Values(invecs), oct.psize, mask, x', y')
        invariant forall y' | 0 <= y' < y :: grid[x, y'] == MaskCell(Values(invecs), oct.psize, mask, x, y')
      {
        var pixelMaskVector := oct.pixelDistanceVectors[mask, x, y];
        grid[x, y] := PDot(pixelMaskVector, invecs[mask].Value());
      }
    }
  }

  /** lerpMs: a fresh size x size grid lerping m1 towards m2, across (lr) or down (!lr). */
  method LerpMs(m1: array2<real>, m2: array2<real>, size: nat, lr: bool) returns (mask: array2<real>)
    requires size <= m1.Length0 && size <= m1.Length1 && size <= m2.Length0 && size <= m2.Length1
    ensures fresh(mask) && mask.Length0 == size && mask.Length1 == size
    ensures forall x, y | 0 <= x < size && 0 <= y < size ::
              mask[x, y] == LerpCell(m1[x, y], m2[x, y], x, y, size, lr)
  {
    // 1f/0 is infinite in the source; it is never used, as no pixel exists then.
    var psize := if size == 0 then 0.0 else 1.0 / size as real;
    mask := new real[size, size];
    for x := 0 to size
      invariant forall x', y | 0 <= x' < x && 0 <= y < size ::
                  mask[x', y] == LerpCell(m1[x', y], m2[x', y], x', y, size, lr)
    {
      for y := 0 to size
        invariant forall x', y' | 0 <= x' < x && 0 <= y' < size ::
                    mask[x', y'] == LerpCell(m1[x', y'], m2[x', y'], x', y', size, lr)
        invariant forall y' | 0 <= y' < y :: mask[x, y'] == LerpCell(m1[x, y'], m2[x, y'], x, y', size, lr)
      {
        var aProp := (if lr then x else y) as real * psize;
        assert aProp == G.Frac(if lr then x else y, size);
        mask[x, y] := Lerp(m1[x, y], m2[x, y], aProp);
      }
    }
  }

  /** perlinAChunk: the four masks, the two horizontal lerps and the vertical lerp. */
  method PerlinAChunk(invecs: array<Vector2f>, oct: G.PerlinOctave) returns (mask: array2<real>)
    requires G.MASKS <= invecs.Length && oct.Valid()
    ensures fresh(mask) && mask.Length0 == oct.psize && mask.Length1 == oct.psize
    ensures forall x, y | 0 <= x < oct.psize && 0 <= y < oct.psize ::
              mask[x, y] == ChunkCell(Values(invecs), oct.psize, x, y)
  {
    var chunkMask := new Masks(oct.psize);
    for i := 0 to G.MASKS
      invariant chunkMask.Valid()
      invariant forall k, x, y | 0 <= k < i && 0 <= x < oct.psize && 0 <= y < oct.psize ::
                  chunkMask.m[k][x, y] == MaskCell(Values(invecs), oct.psize, k, x, y)
    {
      PerlinAMask(i, chunkMask, oct, invecs);
    }
    var mT := LerpMs(chunkMask.TL, chunkMask.TR, oct.psize, true);
    var mB := LerpMs(chunkMask.BL, chunkMask.BR, oct.psize, true);
    mask := LerpMs(mT, mB, oct.psize, false);
  }
}
