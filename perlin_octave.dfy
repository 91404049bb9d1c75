/**
 * The corner masks shared by both engines, and PerlinOctave: one octave's
 * number, pixel size, and the distance from every pixel to each chunk corner.
 */
module OctaveGeometry {
  import opened Vector2D

  /** The number of corner masks and the index of each corner. */
  const MASKS: nat := 4
  const TL: nat := 0
  const TR: nat := 1
  const BL: nat := 2
  const BR: nat := 3

  /** The corner of the unit chunk that a mask stands for. */
  function Corner(mask: nat): Point
    requires mask < MASKS
  {
    if mask == TL then Point(0.0, 0.0)
    else if mask == TR then Point(1.0, 0.0)
    else if mask == BL then Point(0.0, 1.0)
    else Point(1.0, 1.0)
  }

  /** Pixel (x, y) of a psize-wide octave, in chunk units. */
  function PixelPosition(x: nat, y: nat, psize: nat): Point
    requires psize > 0
  {
    Point(x as real / psize as real, y as real / psize as real)
  }

  /** The vector from pixel (x, y) to the corner of `mask`. */
  function DistanceVector(mask: nat, x: nat, y: nat, psize: nat): Point
    requires mask < MASKS && psize > 0
  {
    PSub(Corner(mask), PixelPosition(x, y, psize))
  }

  /** The corners' distance vectors differ by the unit steps right and down. */
  lemma DistanceDifferences(x: nat, y: nat, psize: nat)
    requires psize > 0
    ensures PSub(DistanceVector(TR, x, y, psize), DistanceVector(TL, x, y, psize)) == Point(1.0, 0.0)
    ensures PSub(DistanceVector(BL, x, y, psize), DistanceVector(TL, x, y, psize)) == Point(0.0, 1.0)
    ensures PSub(DistanceVector(BR, x, y, psize), DistanceVector(TL, x, y, psize)) == Point(1.0, 1.0)
  {
  }

  /** A pixel coordinate k < size lies in [0, 1) in chunk units. */
  lemma FractionInUnit(k: nat, size: nat)
    requires k < size
    ensures 0.0 <= k as real / size as real < 1.0
  {
    var q := k as real / size as real;
    assert q * size as real == k as real;
  }

  /** Inside the chunk, TL's components lie in (-1, 0] and BR's in (0, 1]. */
  lemma CornerRanges(x: nat, y: nat, psize: nat)
    requires x < psize && y < psize
    ensures var tl := DistanceVector(TL, x, y, psize);
      -1.0 < tl.x <= 0.0 && -1.0 < tl.y <= 0.0
    ensures var br := DistanceVector(BR, x, y, psize);
      0.0 < br.x <= 1.0 && 0.0 < br.y <= 1.0
  {
    FractionInUnit(x, psize);
    FractionInUnit(y, psize);
  }

  /** Vector2f.sub(new Vector2f(cx, cy), pixel), as a value. */
  method Corner2f(pixel: Vector2f, cx: real, cy: real) returns (d: Point)
    ensures d == PSub(Point(cx, cy), pixel.Value())
  {
    var corner := new Vector2f(cx, cy);
    var v := Vector2f.Difference(corner, pixel);
    d := v.Value();
  }

  /** The linear proportion of pixel k across a size-wide chunk, k * (1 / size), as both lerpMs compute it. */
  function Frac(k: nat, size: nat): real
    requires size > 0
  {
    k as real * (1.0 / size as real)
  }

  /** Every pixel of the chunk has its proportion in [0, 1), and the first has 0. */
  lemma FracInUnit(k: nat, size: nat)
    requires k < size
    ensures 0.0 <= Frac(k, size) < 1.0
    ensures k == 0 ==> Frac(k, size) == 0.0
  {
    FractionInUnit(k, size);
    assert Frac(k, size) == k as real / size as real;
  }

  /** The record PerlinOctave(n, psize, pixelDistanceVectors). */
  class PerlinOctave {
    const n: int
    const psize: nat
    /** Indexed [mask][x][y]: the distance vectors as values. */
    const pixelDistanceVectors: array3<Point>

    ghost predicate Valid()
      reads pixelDistanceVectors
    {
      && pixelDistanceVectors.Length0 == MASKS
      && pixelDistanceVectors.Length1 == psize
      && pixelDistanceVectors.Length2 == psize
      && forall m, x, y | 0 <= m < MASKS && 0 <= x < psize && 0 <= y < psize ::
           pixelDistanceVectors[m, x, y] == DistanceVector(m, x, y, psize)
    }

    /** PerlinOctave(n, psize): allocates the MASKS x psize x psize table and fills it. */
    constructor (n: int, psize: nat)
      ensures Valid() && fresh(pixelDistanceVectors)
      ensures this.n == n && this.psize == psize
    {
      this.n := n;
      this.psize := psize;
      pixelDistanceVectors := new Point[MASKS, psize, psize];
      new;
      CalcDistanceVectors();
    }

    /** calcDistanceVectors: for every pixel, the distance to each of the four corners. */
    method CalcDistanceVectors()
      requires pixelDistanceVectors.Length0 == MASKS
      requires pixelDistanceVectors.Length1 == psize && pixelDistanceVectors.Length2 == psize
      modifies pixelDistanceVectors
      ensures Valid()
    {
      for x := 0 to psize
        invariant forall m, x', y | 0 <= m < MASKS && 0 <= x' < x && 0 <= y < psize ::
                    pixelDistanceVectors[m, x', y] == DistanceVector(m, x', y, psize)
      {
        for y := 0 to psize
          invariant forall m, x', y' | 0 <= m < MASKS && 0 <= x' < x && 0 <= y' < psize ::
                      pixelDistanceVectors[m, x', y'] == DistanceVector(m, x', y', psize)
          invariant forall m, y' | 0 <= m < MASKS && 0 <= y' < y ::
                      pixelDistanceVectors[m, x, y'] == DistanceVector(m, x, y', psize)
        {
          SetPixel(x, y);
        }
      }
    }

    /** One iteration of calcDistanceVectors: the four entries of pixel (x, y). */
    method SetPixel(x: nat, y: nat)
      requires pixelDistanceVectors.Length0 == MASKS
      requires x < pixelDistanceVectors.Length1 == psize && y < pixelDistanceVectors.Length2 == psize
      modifies pixelDistanceVectors
      ensures forall m | 0 <= m < MASKS :: pixelDistanceVectors[m, x, y] == DistanceVector(m, x, y, psize)
      ensures forall m, x', y' | 0 <= m < MASKS && 0 <= x' < psize && 0 <= y' < psize && (x', y') != (x, y) ::
                pixelDistanceVectors[m, x', y'] == old(pixelDistanceVectors[m, x', y'])
    {
      var pixel := new Vector2f(x as real / psize as real, y as real / psize as real);
      var tl := Corner2f(pixel, 0.0, 0.0);
      var tr := Corner2f(pixel, 1.0, 0.0);
      var bl := Corner2f(pixel, 0.0, 1.0);
      var br := Corner2f(pixel, 1.0, 1.0);
      pixelDistanceVectors[TL, x, y] := tl;
      pixelDistanceVectors[TR, x, y] := tr;
      pixelDistanceVectors[BL, x, y] := bl;
      pixelDistanceVectors[BR, x, y] := br;
    }
  }
}
