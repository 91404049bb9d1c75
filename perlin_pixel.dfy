/**
 * PerlinPixel: a pixel of a tile and its four vectors from the pixel's
 * centre to the tile corners, in pixel units. The array `vecs` holds the
 * same four objects as the named fields.
 */
module Pixel {
  import opened Vector2D
  import G = OctaveGeometry

  /** The centre of pixel (x, y). */
  function Centre(x: int, y: int): Point {
    Point(x as real + 0.5, y as real + 0.5)
  }

  /** The vector from the centre of pixel (x, y) to the corner of `mask` of a tileSize-wide tile. */
  function CornerVector(mask: nat, x: int, y: int, tileSize: int): Point
    requires mask < G.MASKS
  {
    PSub(PScale(G.Corner(mask), tileSize as real), Centre(x, y))
  }

  /** The corner vectors differ by the tile's width to the right and downwards. */
  lemma CornerDifferences(x: int, y: int, tileSize: int)
    ensures PSub(CornerVector(G.TR, x, y, tileSize), CornerVector(G.TL, x, y, tileSize)) == Point(tileSize as real, 0.0)
    ensures PSub(CornerVector(G.BL, x, y, tileSize), CornerVector(G.TL, x, y, tileSize)) == Point(0.0, tileSize as real)
  {
  }

  /** For a pixel inside the tile, TL points strictly up-left and BR strictly down-right. */
  lemma CornerSigns(x: int, y: int, tileSize: int)
    requires 0 <= x < tileSize && 0 <= y < tileSize
    ensures CornerVector(G.TL, x, y, tileSize).x < 0.0 && CornerVector(G.TL, x, y, tileSize).y < 0.0
    ensures CornerVector(G.BR, x, y, tileSize).x > 0.0 && CornerVector(G.BR, x, y, tileSize).y > 0.0
  {
  }

  /** Vector2f.sub(new Vector2f(cx, cy), t): a fresh vector from t to the corner. */
  method FromCorner(t: Vector2f, cx: real, cy: real) returns (v: Vector2f)
    ensures fresh(v) && v.Value() == PSub(Point(cx, cy), t.Value())
  {
    var c := new Vector2f(cx, cy);
    v := Vector2f.Difference(c, t);
  }

  class PerlinPixel {
    const x: int
    const y: int
    const TL: Vector2f
    const TR: Vector2f
    const BL: Vector2f
    const BR: Vector2f
    const vecs: array<Vector2f?>

    ghost predicate Valid()
      reads vecs
    {
      && vecs.Length == G.MASKS
      && vecs[G.TL] == TL && vecs[G.TR] == TR && vecs[G.BL] == BL && vecs[G.BR] == BR
    }

    constructor (x: int, y: int, tileSize: int)
      ensures Valid() && fresh(vecs)
      ensures this.x == x && this.y == y
      ensures TL.Value() == CornerVector(G.TL, x, y, tileSize)
      ensures TR.Value() == CornerVector(G.TR, x, y, tileSize)
      ensures BL.Value() == CornerVector(G.BL, x, y, tileSize)
      ensures BR.Value() == CornerVector(G.BR, x, y, tileSize)
    {
      this.x := x;
      this.y := y;
      var mx := x as real + 0.5;
      var my := y as real + 0.5;
      var t := new Vector2f(mx, my);
      var tl := FromCorner(t, 0.0, 0.0);
      var tr := FromCorner(t, tileSize as real, 0.0);
      var bl := FromCorner(t, 0.0, tileSize as real);
      var br := FromCorner(t, tileSize as real, tileSize as real);
      TL, TR, BL, BR := tl, tr, bl, br;
      vecs := new Vector2f?[G.MASKS];
      new;
      vecs[G.TL] := TL;
      vecs[G.TR] := TR;
      vecs[G.BL] := BL;
      vecs[G.BR] := BR;
    }
  }
}
