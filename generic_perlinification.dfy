/**
 * Perlinification of the generic engine: the same mask-and-lerp pipeline as
 * the float engine, over the values of any inner-product space, and the
 * interface a caller implements to choose influence vectors.
 */
module GenericPerlinification {
  import opened Wrappers
  import opened Vector2D
  import opened InnerProductSpace
  import opened PairVector
  import opened OctaveChunkData
  import G = OctaveGeometry
  import Util
  import LegacyPerlinification

  /**
   * PerlinInfluenceGenerator<E>: the influence for a corner of a main-level
   * chunk, main(seed, spiralIndex, cx, cy, mask), and for a corner of a
   * sub-octave chunk, oct(seed, spiralIndex, mask, octData). None stands
   * for null, meaning "use the engine's default".
   */
  datatype Generator<E> = Generator(
    main: (int, int, int, int, int) -> Option<E>,
    oct: (int, int, int, ChunkData) -> Option<E>)

  /** The interface's default perlinOctInfluenceVector: null, whatever the corner. */
  function DefaultOct<E>(): (int, int, int, ChunkData) -> Option<E> {
    (seed: int, spiralIndex: int, mask: int, octData: ChunkData) => None
  }

  /** Mask `m` at pixel (x, y): the corner's influence pair dotted with the pixel's distance to the corner. */
  function MaskCell<E>(sp: Space<E>, invecs: seq<Vector2v<E>>, psize: nat, m: nat, x: nat, y: nat): E
    requires m < G.MASKS <= |invecs| && psize > 0
  {
    Dot(sp, invecs[m], G.DistanceVector(m, x, y, psize))
  }

  /** One cell of a lerpMs result: k is x for a horizontal lerp and y for a vertical one. */
  function LerpCell<E>(sp: Space<E>, v1: E, v2: E, x: nat, y: nat, size: nat, lr: bool): E
    requires size > 0
  {
    Util.Lerps(sp, v1, v2, G.Frac(if lr then x else y, size))
  }

  /** Pixel (x, y) of perlinAChunk: top and bottom masks lerped across, then the two rows lerped down. */
  function ChunkCell<E>(sp: Space<E>, invecs: seq<Vector2v<E>>, psize: nat, x: nat, y: nat): E
    requires G.MASKS <= |invecs| && psize > 0
  {
    var top := LerpCell(sp, MaskCell(sp, invecs, psize, G.TL, x, y), MaskCell(sp, invecs, psize, G.TR, x, y), x, y, psize, true);
    var bottom := LerpCell(sp, MaskCell(sp, invecs, psize, G.BL, x, y), MaskCell(sp, invecs, psize, G.BR, x, y), x, y, psize, true);
    LerpCell(sp, top, bottom, x, y, psize, false)
  }

  /** Column 0 of a horizontal lerp, and row 0 of a vertical lerp, copy the first mask. */
  lemma LerpCellFirstLine<E(!new)>(sp: Space<E>, v1: E, v2: E, x: nat, y: nat, size: nat)
    requires LerpLaws(sp) && size > 0
    ensures LerpCell(sp, v1, v2, 0, y, size, true) == v1
    ensures LerpCell(sp, v1, v2, x, 0, size, false) == v1
  {
    Util.SmoothEnds();
  }

  /** At the chunk's top-left pixel only the top-left influence counts. */
  lemma {:induction false} ChunkCellAtOrigin<E(!new)>(sp: Space<E>, invecs: seq<Vector2v<E>>, psize: nat)
    requires LerpLaws(sp) && G.MASKS <= |invecs| && psize > 0
    ensures ChunkCell(sp, invecs, psize, 0, 0) == Dot(sp, invecs[G.TL], Point(0.0, 0.0))
  {
    var tl := MaskCell(sp, invecs, psize, G.TL, 0, 0);
    var top := LerpCell(sp, tl, MaskCell(sp, invecs, psize, G.TR, 0, 0), 0, 0, psize, true);
    var bottom := LerpCell(sp, MaskCell(sp, invecs, psize, G.BL, 0, 0), MaskCell(sp, invecs, psize, G.BR, 0, 0), 0, 0, psize, true);
    LerpCellFirstLine(sp, tl, MaskCell(sp, invecs, psize, G.TR, 0, 0), 0, 0, psize);
    LerpCellFirstLine(sp, top, bottom, 0, 0, psize);
    assert G.DistanceVector(G.TL, 0, 0, psize) == Point(0.0, 0.0);
  }

  /**
   * Over the real line the generic pipeline computes what the float engine's
   * pipeline computes when each influence pair (a, b) is read as the 2D vector (a, b).
   */
  lemma {:induction false} AgreesWithFloatPipeline(invecs: seq<Vector2v<real>>, points: seq<Point>, psize: nat, x: nat, y: nat)
    requires G.MASKS <= |invecs| == |points| && psize > 0
    requires forall i | 0 <= i < |invecs| :: points[i] == Point(invecs[i].a, invecs[i].b)
    ensures ChunkCell(RealSpace(), invecs, psize, x, y) == LegacyPerlinification.ChunkCell(points, psize, x, y)
  {
    forall m | 0 <= m < G.MASKS
      ensures MaskCell(RealSpace(), invecs, psize, m, x, y) == LegacyPerlinification.MaskCell(points, psize, m, x, y)
    {
      DotOverReals(invecs[m], G.DistanceVector(m, x, y, psize));
    }
    forall v1: real, v2: real, lr: bool
      ensures LerpCell(RealSpace(), v1, v2, x, y, psize, lr) == LegacyPerlinification.LerpCell(v1, v2, x, y, psize, lr)
    {
      LegacyPerlinification.LerpIsGenericLerps(v1, v2, G.Frac(if lr then x else y, psize));
    }
  }

  /** The four per-corner masks of one chunk; m[mask] is the same grid as the named field. */
  class Masks<E(0)> {
    const size: nat
    const TL: array2<E>
    const TR: array2<E>
    const BL: array2<E>
    const BR: array2<E>
    const m: array<array2<E>>

    ghost predicate Valid()
      reads m
    {
      && m.Length == G.MASKS
      && m[G.TL] == TL && m[G.TR] == TR && m[G.BL] == BL && m[G.BR] == BR
      && TL != TR && TL != BL && TL != BR && TR != BL && TR != BR && BL != BR
      && TL.Length0 == TL.Length1 == size && TR.Length0 == TR.Length1 == size
      && BL.Length0 == BL.Length1 == size && BR.Length0 == BR.Length1 == size
    }

    constructor (size: nat)
      ensures Valid() && this.size == size
      ensures fresh(m) && fresh(TL) && fresh(TR) && fresh(BL) && fresh(BR)
    {
      this.size := size;
      var tl := new E[size, size];
      var bl := new E[size, size];
      var tr := new E[size, size];
      var br := new E[size, size];
      TL, BL, TR, BR := tl, bl, tr, br;
      m := new array2<E>[G.MASKS](_ => tl);
      new;
      m[G.TL] := TL;
      m[G.BL] := BL;
      m[G.TR] := TR;
      m[G.BR] := BR;
    }
  }

  /** perlinAMask: writes every pixel of mask `mask`, and no other mask. */
  method PerlinAMask<E(0)>(sp: Space<E>, mask: nat, masks: Masks<E>, oct: G.PerlinOctave, invecs: array<Vector2v<E>>)
    requires mask < G.MASKS <= invecs.Length
    requires masks.Valid() && oct.Valid() && masks.size == oct.psize
    modifies masks.m[mask]
    ensures forall x, y | 0 <= x < oct.psize && 0 <= y < oct.psize ::
              masks.m[mask][x, y] == MaskCell(sp, invecs[..], oct.psize, mask, x, y)
  {
    var grid := masks.m[mask];
    for x := 0 to oct.psize
      invariant forall x', y | 0 <= x' < x && 0 <= y < oct.psize ::
                  grid[x', y] == MaskCell(sp, invecs[..], oct.psize, mask, x', y)
    {
      for y := 0 to oct.psize
        invariant forall x', y' | 0 <= x' < x && 0 <= y' < oct.psize ::
                    grid[x', y'] == MaskCell(sp, invecs[..], oct.psize, mask, x', y')
        invariant forall y' | 0 <= y' < y :: grid[x, y'] == MaskCell(sp, invecs[..], oct.psize, mask, x, y')
      {
        var pixelMaskVector := oct.pixelDistanceVectors[mask, x, y];
        grid[x, y] := Dot(sp, invecs[mask], pixelMaskVector);
      }
    }
  }

  /** lerpMs: a fresh size x size grid lerping m1 towards m2, across (lr) or down (!lr). */
  method LerpMs<E(0)>(sp: Space<E>, m1: array2<E>, m2: array2<E>, size: nat, lr: bool) returns (mask: array2<E>)
    requires size <= m1.Length0 && size <= m1.Length1 && size <= m2.Length0 && size <= m2.Length1
    ensures fresh(mask) && mask.Length0 == size && mask.Length1 == size
    ensures forall x, y | 0 <= x < size && 0 <= y < size ::
              mask[x, y] == LerpCell(sp, m1[x, y], m2[x, y], x, y, size, lr)
  {
    // 1f/0 is infinite in the source; it is never used, as no pixel exists then.
    var psize := if size == 0 then 0.0 else 1.0 / size as real;
    mask := new E[size, size];
    for x := 0 to size
      invariant forall x', y | 0 <= x' < x && 0 <= y < size ::
                  mask[x', y] == LerpCell(sp, m1[x', y], m2[x', y], x', y, size, lr)
    {
      for y := 0 to size
        invariant forall x', y' | 0 <= x' < x && 0 <= y' < size ::
                    mask[x', y'] == LerpCell(sp, m1[x', y'], m2[x', y'], x', y', size, lr)
        invariant forall y' | 0 <= y' < y :: mask[x, y'] == LerpCell(sp, m1[x, y'], m2[x, y'], x, y', size, lr)
      {
        var aProp := (if lr then x else y) as real * psize;
        assert aProp == G.Frac(if lr then x else y, size);
        mask[x, y] := Util.Lerps(sp, m1[x, y], m2[x, y], aProp);
      }
    }
  }

  /** perlinAChunk: the four masks, the two horizontal lerps and the vertical lerp. */
  method PerlinAChunk<E(0)>(sp: Space<E>, invecs: array<Vector2v<E>>, oct: G.PerlinOctave) returns (mask: array2<E>)
    requires G.MASKS <= invecs.Length && oct.Valid()
    ensures fresh(mask) && mask.Length0 == oct.psize && mask.Length1 == oct.psize
    ensures forall x, y | 0 <= x < oct.psize && 0 <= y < oct.psize ::
              mask[x, y] == ChunkCell(sp, invecs[..], oct.psize, x, y)
  {
    var chunkMask := new Masks<E>(oct.psize);
    for i := 0 to G.MASKS
      invariant chunkMask.Valid()
      invariant forall k, x, y | 0 <= k < i && 0 <= x < oct.psize && 0 <= y < oct.psize ::
                  chunkMask.m[k][x, y] == MaskCell(sp, invecs[..], oct.psize, k, x, y)
    {
      PerlinAMask(sp, i, chunkMask, oct, invecs);
    }
    var mT := LerpMs(sp, chunkMask.TL, chunkMask.TR, oct.psize, true);
    var mB := LerpMs(sp, chunkMask.BL, chunkMask.BR, oct.psize, true);
    mask := LerpMs(sp, mT, mB, oct.psize, false);
  }
}
