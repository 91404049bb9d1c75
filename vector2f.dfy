/**
 * Vector2f: a 2D float vector. It extends Vectornf, built with the two
 * components it was created with, and adds its own public fields x and y.
 * Its instance operations update x and y only: the inherited component
 * array keeps the values given at construction.
 */
module Vector2D {
  import opened Wrappers
  import opened VectorN

  /** The value of a 2D vector. */
  datatype Point = Point(x: real, y: real)

  function PAdd(a: Point, b: Point): Point {
    Point(a.x + b.x, a.y + b.y)
  }

  function PSub(a: Point, b: Point): Point {
    Point(a.x - b.x, a.y - b.y)
  }

  function PScale(a: Point, f: real): Point {
    Point(a.x * f, a.y * f)
  }

  function PDot(a: Point, b: Point): real {
    a.x * b.x + a.y * b.y
  }

  /** The 2D dot product is the n-dimensional one on the two-component sequences. */
  lemma PDotIsDotSeq(a: Point, b: Point)
    ensures PDot(a, b) == DotSeq([a.x, a.y], [b.x, b.y])
  {
    assert [a.x, a.y][..1] == [a.x] && [b.x, b.y][..1] == [b.x];
    assert [a.x][..0] == [] && [b.x][..0] == [];
    assert DotSeq([a.x], [b.x]) == a.x * b.x;
  }

  /** Dotting with e1 and e2 reads off the x and y components. */
  lemma PDotUnits(a: Point)
    ensures PDot(a, Point(1.0, 0.0)) == a.x && PDot(a, Point(0.0, 1.0)) == a.y
  {
  }

  /** Subtraction undoes addition. */
  lemma PSubUndoesAdd(a: Point, b: Point)
    ensures PSub(PAdd(a, b), b) == a
  {
  }

  /** Dot distributes over the subtraction of its first argument. */
  lemma PDotSub(a: Point, b: Point, c: Point)
    ensures PDot(PSub(a, b), c) == PDot(a, c) - PDot(b, c)
  {
  }

  class Vector2f {
    var x: real
    var y: real
    /** The inherited Vectornf part: dimension 2, over its own array. */
    const sup: Vectornf

    ghost predicate Valid() {
      sup.Valid() && sup.size == 2
    }

    function Value(): Point
      reads this
    {
      Point(x, y)
    }

    /** Vector2f(x, y): both the fields and the inherited components are x and y. */
    constructor (x: real, y: real)
      ensures Valid() && fresh(sup) && fresh(sup.vec)
      ensures Value() == Point(x, y) && sup.vec[..] == [x, y]
    {
      this.x := x;
      this.y := y;
      var a := new real[2];
      a[0], a[1] := x, y;
      sup := new Vectornf(a);
    }

    /** Vector2f(c): both components c. */
    constructor Fill(c: real)
      ensures Valid() && fresh(sup) && fresh(sup.vec)
      ensures Value() == Point(c, c) && sup.vec[..] == [c, c]
    {
      x := c;
      y := c;
      var a := new real[2];
      a[0], a[1] := c, c;
      sup := new Vectornf(a);
    }

    static method Zero() returns (v: Vector2f)
      ensures fresh(v) && fresh(v.sup) && fresh(v.sup.vec) && v.Valid()
      ensures v.Value() == Point(0.0, 0.0) && v.sup.vec[..] == [0.0, 0.0]
    {
      v := new Vector2f.Fill(0.0);
    }

    static method E1() returns (v: Vector2f)
      ensures fresh(v) && fresh(v.sup) && fresh(v.sup.vec) && v.Valid()
      ensures v.Value() == Point(1.0, 0.0) && v.sup.vec[..] == [1.0, 0.0]
    {
      v := new Vector2f(1.0, 0.0);
    }

    static method E2() returns (v: Vector2f)
      ensures fresh(v) && fresh(v.sup) && fresh(v.sup.vec) && v.Valid()
      ensures v.Value() == Point(0.0, 1.0) && v.sup.vec[..] == [0.0, 1.0]
    {
      v := new Vector2f(0.0, 1.0);
    }

    /** Static add(a, b): a fresh vector of the field sums; a and b do not change. */
    static method Sum(a: Vector2f, b: Vector2f) returns (r: Vector2f)
      ensures fresh(r) && fresh(r.sup) && fresh(r.sup.vec) && r.Valid() && r.sup.vec[..] == [r.x, r.y]
      ensures r.Value() == PAdd(a.Value(), b.Value())
    {
      r := new Vector2f(a.x + b.x, a.y + b.y);
    }

    /** Static sub(a, b): a fresh vector of the field differences. */
    static method Difference(a: Vector2f, b: Vector2f) returns (r: Vector2f)
      ensures fresh(r) && fresh(r.sup) && fresh(r.sup.vec) && r.Valid() && r.sup.vec[..] == [r.x, r.y]
      ensures r.Value() == PSub(a.Value(), b.Value())
    {
      r := new Vector2f(a.x - b.x, a.y - b.y);
    }

    /** Static scale(a, b): a fresh vector of the fields times b. */
    static method Scaled(a: Vector2f, b: real) returns (r: Vector2f)
      ensures fresh(r) && fresh(r.sup) && fresh(r.sup.vec) && r.Valid() && r.sup.vec[..] == [r.x, r.y]
      ensures r.Value() == PScale(a.Value(), b)
    {
      r := new Vector2f(a.x * b, a.y * b);
    }

    /** Static dot(a, b), on the fields. */
    static function DotOf(a: Vector2f, b: Vector2f): (r: real)
      reads a, b
      ensures r == PDot(a.Value(), b.Value())
    {
      a.x * b.x + a.y * b.y
    }

    /**
     * add(b): IllegalArgumentException unless b has dimension 2; otherwise
     * adds b's first two components to the fields and returns this vector.
     */
    method Add(b: Vectornf) returns (r: Result<Vector2f>)
      requires Valid() && b.Valid()
      modifies this`x, this`y
      ensures b.size != 2 ==> r == Err(IllegalArgument) && Value() == old(Value())
      ensures b.size == 2 ==> r == Ok(this) && Value() == PAdd(old(Value()), Point(b.vec[0], b.vec[1]))
    {
      var o := Vectornf.AssertCompatible(sup, b);
      if o.Fail? {
        return Err(o.error);
      }
      var b0 := b.Get(0);
      var b1 := b.Get(1);
      x, y := x + b0, y + b1;
      return Ok(this);
    }

    /** sub(b): as add, subtracting. */
    method Sub(b: Vectornf) returns (r: Result<Vector2f>)
      requires Valid() && b.Valid()
      modifies this`x, this`y
      ensures b.size != 2 ==> r == Err(IllegalArgument) && Value() == old(Value())
      ensures b.size == 2 ==> r == Ok(this) && Value() == PSub(old(Value()), Point(b.vec[0], b.vec[1]))
    {
      var o := Vectornf.AssertCompatible(sup, b);
      if o.Fail? {
        return Err(o.error);
      }
      var b0 := b.Get(0);
      var b1 := b.Get(1);
      x, y := x - b0, y - b1;
      return Ok(this);
    }

    /** scale(b): multiplies the fields by b in place and returns this vector. */
    method Scale(b: real) returns (r: Vector2f)
      modifies this`x, this`y
      ensures r == this && Value() == PScale(old(Value()), b)
    {
      x, y := x * b, y * b;
      return this;
    }

    /** dot(b): IllegalArgumentException unless b has dimension 2; fields against b's components. */
    method Dot(b: Vectornf) returns (r: Result<real>)
      requires Valid() && b.Valid()
      ensures b.size != 2 <==> r == Err(IllegalArgument)
      ensures r.Ok? ==> r.value == PDot(Value(), Point(b.vec[0], b.vec[1]))
    {
      var o := Vectornf.AssertCompatible(sup, b);
      if o.Fail? {
        return Err(o.error);
      }
      var b0 := b.Get(0);
      var b1 := b.Get(1);
      return Ok(x * b0 + y * b1);
    }

    /** fromPolar(r, theta): r times the direction (cos theta, sin theta), given here by `direction`. */
    static method FromPolar(r: real, theta: real, direction: real -> Point) returns (v: Vector2f)
      ensures fresh(v) && fresh(v.sup) && fresh(v.sup.vec) && v.Valid() && v.sup.vec[..] == [v.x, v.y]
      ensures v.Value() == PScale(direction(theta), r)
    {
      v := new Vector2f(r * direction(theta).x, r * direction(theta).y);
    }
  }

  /**
   * After an in-place scale the fields and the inherited components disagree:
   * the fields of (1, 2) scaled by 2 read (2, 4), `get` still reads (1, 2),
   * and another vector's add sees the old components.
   */
  method ScaleLeavesComponents() returns (field: real, component: real, added: real)
    ensures field == 2.0 && component == 1.0 && added == 1.0
  {
    var v := new Vector2f(1.0, 2.0);
    var _ := v.Scale(2.0);
    field := v.x;
    component := v.sup.Get(0);
    var w := Vector2f.Zero();
    var s := w.Add(v.sup);
    added := w.x;
  }
}
