/**
 * Vector2v<E> of the generic engine: a pair of influence components of one
 * vector space, paired with a 2D distance vector by a "dot product".
 * The constructor no longer checks the two components against each other.
 */
module PairVector {
  import opened InnerProductSpace
  import opened Vector2D

  datatype Vector2v<E> = Vector2v(a: E, b: E)
  {
    /** The instance dot(b) is the static dot(this, b). */
    function DotWith(sp: Space<E>, v: Point): E {
      Dot(sp, this, v)
    }
  }

  /** dot(p, v) = p.a.scale(v.x).iadd(p.b.scale(v.y)). */
  function Dot<E>(sp: Space<E>, p: Vector2v<E>, v: Point): E {
    sp.iadd(sp.scale(p.a, v.x), sp.scale(p.b, v.y))
  }

  /** In a real vector space, the pair dotted with e1 and e2 gives back its two components. */
  lemma DotStandard<E(!new)>(sp: Space<E>, p: Vector2v<E>)
    requires Laws(sp)
    ensures Dot(sp, p, Point(1.0, 0.0)) == p.a
    ensures p.DotWith(sp, Point(0.0, 1.0)) == p.b
  {
  }

  /** Over reals the pair dot is the ordinary 2D dot product of (a, b) and v. */
  lemma DotOverReals(p: Vector2v<real>, v: Point)
    ensures Dot(RealSpace(), p, v) == PDot(Point(p.a, p.b), v)
  {
  }
}

/**
 * Vector2v of the float engine: two Vectornf components whose dimensions the
 * constructor checks, paired with a Vector2f by a "dot product". The public
 * fields a and b can be reassigned afterwards, so the dot rechecks through add.
 */
module CheckedPairVector {
  import opened Wrappers
  import opened VectorN
  import opened Vector2D

  class Vector2v {
    const size: nat
    var a: Vectornf
    var b: Vectornf

    constructor Make(a: Vectornf, b: Vectornf)
      requires a.size == b.size
      ensures size == a.size && this.a == a && this.b == b
    {
      size := a.size;
      this.a := a;
      this.b := b;
    }

    /** new Vector2v(a, b): IllegalArgumentException when the dimensions differ. */
    static method New(a: Vectornf, b: Vectornf) returns (r: Result<Vector2v>)
      ensures a.size != b.size <==> r == Err(IllegalArgument)
      ensures r.Ok? ==> fresh(r.value) && r.value.size == a.size && r.value.a == a && r.value.b == b
    {
      var o := Vectornf.AssertCompatible(a, b);
      if o.Fail? {
        return Err(o.error);
      }
      var p := new Vector2v.Make(a, b);
      return Ok(p);
    }

    /**
     * dot(v): a fresh vector a * v.x + b * v.y; IllegalArgumentException from
     * the add when a and b have come to differ in dimension.
     */
    method Dot(v: Vector2f) returns (r: Result<Vectornf>)
      requires a.Valid() && b.Valid()
      ensures a.size != b.size <==> r == Err(IllegalArgument)
      ensures r.Ok? ==> fresh(r.value) && fresh(r.value.vec) && r.value.Valid() && r.value.size == a.size
      ensures r.Ok? ==> r.value.vec[..] == Plus(Times(a.vec[..], v.x), Times(b.vec[..], v.y))
    {
      var sa := a.Scale(v.x);
      var sb := b.Scale(v.y);
      r := sa.Add(sb);
    }
  }

  /** Component i of the dot is a[i] * v.x + b[i] * v.y: a 2D dot product per component. */
  lemma DotComponents(a: seq<real>, b: seq<real>, v: Point, i: nat)
    requires |a| == |b| && i < |a|
    ensures Plus(Times(a, v.x), Times(b, v.y))[i] == PDot(Point(a[i], b[i]), v)
  {
  }
}
