/** PerlinChunk: a chunk's location, width and (once set) its influence vectors. */
module Chunk {
  import opened Vector2D
  import G = OctaveGeometry

  class PerlinChunk {
    const x: int
    const y: int
    const pixelSize: int
    /** The influence vectors, one per mask; null until set. */
    var invecs: array?<Vector2f?>

    constructor (x: int, y: int, pixelSize: int)
      ensures this.x == x && this.y == y && this.pixelSize == pixelSize
      ensures invecs == null
    {
      this.x := x;
      this.y := y;
      this.pixelSize := pixelSize;
      invecs := null;
    }

    /** setInfluencevectors: replaces the influence vectors (the array itself, not a copy). */
    method SetInfluenceVectors(invecs: array?<Vector2f?>)
      modifies this`invecs
      ensures this.invecs == invecs
    {
      this.invecs := invecs;
    }

    /** genInfluenceVectorsArray: the four vectors placed at their mask indices. */
    static method GenInfluenceVectorsArray(tl: Vector2f, tr: Vector2f, bl: Vector2f, br: Vector2f)
      returns (vecs: array<Vector2f?>)
      ensures fresh(vecs) && vecs.Length == G.MASKS
      ensures vecs[G.TL] == tl && vecs[G.TR] == tr && vecs[G.BL] == bl && vecs[G.BR] == br
    {
      vecs := new Vector2f?[G.MASKS];
      vecs[G.TL] := tl;
      vecs[G.TR] := tr;
      vecs[G.BL] := bl;
      vecs[G.BR] := br;
    }
  }
}
