/**
 * Vectornf: an n-dimensional float vector over a boxed component array.
 * `add`, `sub`, `scale`, `dot` and `lerp` build fresh results; `iadd`,
 * `isub` and `iscale` update the receiver's array and return the receiver.
 */
module VectorN {
  import opened Wrappers

  /* Component-wise specifications over the component sequences. */

  function Plus(a: seq<real>, b: seq<real>): seq<real>
    requires |a| == |b|
  {
    seq(|a|, i requires 0 <= i < |a| => a[i] + b[i])
  }

  function Minus(a: seq<real>, b: seq<real>): seq<real>
    requires |a| == |b|
  {
    seq(|a|, i requires 0 <= i < |a| => a[i] - b[i])
  }

  function Times(a: seq<real>, f: real): seq<real> {
    seq(|a|, i requires 0 <= i < |a| => a[i] * f)
  }

  /** The inner product, summed from the first component up. */
  function DotSeq(a: seq<real>, b: seq<real>): real
    requires |a| == |b|
  {
    if |a| == 0 then 0.0 else DotSeq(a[..|a| - 1], b[..|b| - 1]) + a[|a| - 1] * b[|b| - 1]
  }

  /** `lerp`: component i is f * b[i] + (1 - f) * a[i], for the first |a| components of b. */
  function LerpSeq(a: seq<real>, b: seq<real>, f: real): seq<real>
    requires |a| <= |b|
  {
    seq(|a|, i requires 0 <= i < |a| => f * b[i] + (1.0 - f) * a[i])
  }

  /** The i-th standard vector of dimension n. */
  function Unit(n: nat, i: nat): seq<real> {
    seq(n, k => if k == i then 1.0 else 0.0)
  }

  /** Subtraction is adding the vector scaled by -1, as the interface's default `sub` computes it. */
  lemma MinusIsPlusNegated(a: seq<real>, b: seq<real>)
    requires |a| == |b|
    ensures Minus(a, b) == Plus(a, Times(b, -1.0))
  {
  }

  /** Adding then subtracting the same vector gives the original back. */
  lemma PlusMinusInverse(a: seq<real>, b: seq<real>)
    requires |a| == |b|
    ensures Minus(Plus(a, b), b) == a
  {
    assert forall i | 0 <= i < |a| :: Minus(Plus(a, b), b)[i] == a[i];
  }

  lemma {:induction false} DotSymmetric(a: seq<real>, b: seq<real>)
    requires |a| == |b|
    ensures DotSeq(a, b) == DotSeq(b, a)
  {
    if |a| > 0 {
      DotSymmetric(a[..|a| - 1], b[..|b| - 1]);
    }
  }

  /** Dotting the i-th standard vector with v picks v's i-th component. */
  lemma DotUnit(n: nat, i: nat, v: seq<real>)
    requires i < n == |v|
    ensures DotSeq(Unit(n, i), v) == v[i]
  {
    DotUnitPrefix(n, i, v, n);
    assert Unit(n, i)[..n] == Unit(n, i) && v[..n] == v;
  }

  lemma {:induction false} DotUnitPrefix(n: nat, i: nat, v: seq<real>, k: nat)
    requires i < n == |v| && k <= n
    ensures DotSeq(Unit(n, i)[..k], v[..k]) == if i < k then v[i] else 0.0
  {
    if k > 0 {
      DotUnitPrefix(n, i, v, k - 1);
      assert Unit(n, i)[..k][..k - 1] == Unit(n, i)[..k - 1];
      assert v[..k][..k - 1] == v[..k - 1];
    }
  }

  /** Over reals, lerp gives the receiver at f = 0 and the other vector at f = 1. */
  lemma LerpSeqEnds(a: seq<real>, b: seq<real>)
    requires |a| == |b|
    ensures LerpSeq(a, b, 0.0) == a
    ensures LerpSeq(a, b, 1.0) == b
  {
    assert forall i | 0 <= i < |a| :: LerpSeq(a, b, 1.0)[i] == b[i];
  }

  class Vectornf {
    /** The dimension. */
    const size: nat
    /** The components (boxed Floats in the source, never null here). */
    const vec: array<real>

    ghost predicate Valid() {
      vec.Length == size
    }

    /** Vectornf(ArrayList<Float>): copies the list into a new array. */
    constructor FromList(list: seq<real>)
      ensures Valid() && fresh(vec)
      ensures size == |list| && vec[..] == list
    {
      size := |list|;
      vec := new real[|list|](i requires 0 <= i < |list| => list[i]);
    }

    /** Vectornf(Float... vec): keeps the caller's array itself, without copying. */
    constructor (vec: array<real>)
      ensures Valid()
      ensures size == vec.Length && this.vec == vec
    {
      size := vec.Length;
      this.vec := vec;
    }

    /** Const(size, f): a new vector of the given dimension, every component f. */
    static method Const(size: nat, f: real) returns (v: Vectornf)
      ensures fresh(v) && fresh(v.vec) && v.Valid()
      ensures v.size == size && v.vec[..] == seq(size, _ => f)
    {
      var fs := new real[size](_ => f);
      v := new Vectornf(fs);
    }

    method Get(i: nat) returns (r: real)
      requires Valid() && i < size
      ensures r == vec[i]
    {
      r := vec[i];
    }

    method Set(i: nat, a: real)
      requires Valid() && i < size
      modifies vec
      ensures vec[..] == old(vec[..])[i := a]
    {
      vec[i] := a;
    }

    /** assertCompatable: IllegalArgumentException when the dimensions differ. */
    static method AssertCompatible(a: Vectornf, b: Vectornf) returns (o: Outcome)
      ensures a.size == b.size <==> o == Done
      ensures a.size != b.size <==> o == Fail(IllegalArgument)
    {
      if a.size != b.size {
        return Fail(IllegalArgument);
      }
      return Done;
    }

    /** add: a fresh vector holding the component-wise sum; neither operand changes. */
    method Add(b: Vectornf) returns (r: Result<Vectornf>)
      requires Valid() && b.Valid()
      ensures size != b.size <==> r == Err(IllegalArgument)
      ensures r.Ok? ==> fresh(r.value) && fresh(r.value.vec) && r.value.Valid()
      ensures r.Ok? ==> r.value.vec[..] == Plus(vec[..], b.vec[..])
    {
      var o := AssertCompatible(this, b);
      if o.Fail? {
        return Err(o.error);
      }
      var c := new real[b.size];
      for i := 0 to b.size
        invariant forall k | 0 <= k < i :: c[k] == vec[k] + b.vec[k]
      {
        c[i] := vec[i] + b.vec[i];
      }
      var v := new Vectornf(c);
      return Ok(v);
    }

    /**
     * iadd: adds b into this vector's own array and returns this vector.
     * b's array changes only when it is this vector's array.
     */
    method IAdd(b: Vectornf) returns (r: Result<Vectornf>)
      requires Valid() && b.Valid()
      modifies vec
      ensures size != b.size ==> r == Err(IllegalArgument) && vec[..] == old(vec[..])
      ensures size == b.size ==> r == Ok(this) && vec[..] == Plus(old(vec[..]), old(b.vec[..]))
      ensures b.vec != vec ==> b.vec[..] == old(b.vec[..])
    {
      var o := AssertCompatible(this, b);
      if o.Fail? {
        return Err(o.error);
      }
      for i := 0 to size
        invariant forall k | 0 <= k < i :: vec[k] == old(vec[k]) + old(b.vec[k])
        invariant forall k | i <= k < size :: vec[k] == old(vec[k])
        invariant b.vec != vec ==> b.vec[..] == old(b.vec[..])
      {
        vec[i] := vec[i] + b.vec[i];
      }
      return Ok(this);
    }

    /** sub: a fresh vector holding the component-wise difference; neither operand changes. */
    method Sub(b: Vectornf) returns (r: Result<Vectornf>)
      requires Valid() && b.Valid()
      ensures size != b.size <==> r == Err(IllegalArgument)
      ensures r.Ok? ==> fresh(r.value) && fresh(r.value.vec) && r.value.Valid()
      ensures r.Ok? ==> r.value.vec[..] == Minus(vec[..], b.vec[..])
    {
      var o := AssertCompatible(this, b);
      if o.Fail? {
        return Err(o.error);
      }
      var c := new real[b.size];
      for i := 0 to b.size
        invariant forall k | 0 <= k < i :: c[k] == vec[k] - b.vec[k]
      {
        c[i] := vec[i] - b.vec[i];
      }
      var v := new Vectornf(c);
      return Ok(v);
    }

    /** isub: subtracts b from this vector's own array and returns this vector. */
    method ISub(b: Vectornf) returns (r: Result<Vectornf>)
      requires Valid() && b.Valid()
      modifies vec
      ensures size != b.size ==> r == Err(IllegalArgument) && vec[..] == old(vec[..])
      ensures size == b.size ==> r == Ok(this) && vec[..] == Minus(old(vec[..]), old(b.vec[..]))
      ensures b.vec != vec ==> b.vec[..] == old(b.vec[..])
    {
      var o := AssertCompatible(this, b);
      if o.Fail? {
        return Err(o.error);
      }
      for i := 0 to size
        invariant forall k | 0 <= k < i :: vec[k] == old(vec[k]) - old(b.vec[k])
        invariant forall k | i <= k < size :: vec[k] == old(vec[k])
        invariant b.vec != vec ==> b.vec[..] == old(b.vec[..])
      {
        vec[i] := vec[i] - b.vec[i];
      }
      return Ok(this);
    }

    /** scale: a fresh vector of the same dimension, each component times b; no size check. */
    method Scale(b: real) returns (r: Vectornf)
      requires Valid()
      ensures fresh(r) && fresh(r.vec) && r.Valid()
      ensures r.size == size && r.vec[..] == Times(vec[..], b)
    {
      var c := new real[size];
      for i := 0 to size
        invariant forall k | 0 <= k < i :: c[k] == vec[k] * b
      {
        c[i] := vec[i] * b;
      }
      assert forall k | 0 <= k < size :: c[k] == Times(vec[..], b)[k];
      r := new Vectornf(c);
    }

    /** iscale: multiplies this vector's own components by b and returns this vector. */
    method IScale(b: real) returns (r: Vectornf)
      requires Valid()
      modifies vec
      ensures r == this && vec[..] == Times(old(vec[..]), b)
    {
      for i := 0 to size
        invariant forall k | 0 <= k < i :: vec[k] == old(vec[k]) * b
        invariant forall k | i <= k < size :: vec[k] == old(vec[k])
      {
        vec[i] := vec[i] * b;
      }
      assert forall k | 0 <= k < size :: vec[k] == Times(old(vec[..]), b)[k];
      return this;
    }

    /** dot: the inner product; IllegalArgumentException when the dimensions differ. */
    method Dot(b: Vectornf) returns (r: Result<real>)
      requires Valid() && b.Valid()
      ensures size != b.size <==> r == Err(IllegalArgument)
      ensures r.Ok? ==> r.value == DotSeq(vec[..], b.vec[..])
    {
      var o := AssertCompatible(this, b);
      if o.Fail? {
        return Err(o.error);
      }
      var f := 0.0;
      for i := 0 to b.size
        invariant f == DotSeq(vec[..i], b.vec[..i])
      {
        assert vec[..i + 1][..i] == vec[..i] && b.vec[..i + 1][..i] == b.vec[..i];
        f := f + vec[i] * b.vec[i];
      }
      assert vec[..size] == vec[..] && b.vec[..size] == b.vec[..];
      return Ok(f);
    }

    /**
     * lerp: a fresh vector of this vector's dimension whose component i is
     * f * b[i] + (1 - f) * this[i]. There is no size check: a shorter b runs
     * off its array, a longer b is cut to this dimension.
     */
    method Lerp(b: Vectornf, f: real) returns (r: Result<Vectornf>)
      requires Valid() && b.Valid()
      ensures b.size < size <==> r == Err(IndexOutOfBounds)
      ensures r.Ok? ==> fresh(r.value) && fresh(r.value.vec) && r.value.Valid() && r.value.size == size
      ensures r.Ok? ==> r.value.vec[..] == LerpSeq(vec[..], b.vec[..], f)
    {
      var newVector := new real[size];
      for i := 0 to size
        invariant i <= b.size
        invariant forall k | 0 <= k < i :: newVector[k] == f * b.vec[k] + (1.0 - f) * vec[k]
      {
        if i >= b.size {
          return Err(IndexOutOfBounds);
        }
        newVector[i] := f * b.vec[i] + (1.0 - f) * vec[i];
      }
      assert forall k | 0 <= k < size :: newVector[k] == LerpSeq(vec[..], b.vec[..], f)[k];
      var v := new Vectornf(newVector);
      return Ok(v);
    }

    /**
     * genStandardVectors(size): `size` fresh vectors of dimension `size`;
     * the i-th is the i-th standard vector, each over its own array.
     */
    static method GenStandardVectors(size: nat) returns (s: array<Vectornf?>)
      ensures fresh(s) && s.Length == size
      ensures forall i | 0 <= i < size :: s[i] != null && fresh(s[i]) && fresh(s[i].vec) && s[i].Valid()
      ensures forall i | 0 <= i < size :: s[i].size == size && s[i].vec[..] == Unit(size, i)
      ensures forall i, j | 0 <= i < j < size :: s[i].vec != s[j].vec
    {
      s := new Vectornf?[size];
      for i := 0 to size
        invariant forall k | 0 <= k < i :: s[k] != null && fresh(s[k]) && fresh(s[k].vec) && s[k].Valid()
        invariant forall k | 0 <= k < i :: s[k].size == size && s[k].vec[..] == Unit(size, k)
        invariant forall k, j | 0 <= k < j < i :: s[k].vec != s[j].vec
      {
        var c := Const(size, 0.0);
        c.Set(i, 1.0);
        s[i] := c;
      }
    }
  }

  /** iadd of a vector onto itself doubles it: the array is read before each write. */
  method SelfIAddDoubles(v: Vectornf) returns (r: Result<Vectornf>)
    requires v.Valid()
    modifies v.vec
    ensures r == Ok(v) && v.vec[..] == Times(old(v.vec[..]), 2.0)
  {
    r := v.IAdd(v);
    assert forall k | 0 <= k < v.size :: v.vec[k] == old(v.vec[k]) * 2.0;
  }
}
