/**
 * InnerProductFloatVectorSpace<T>: the operations every value type of the
 * generic noise engine supplies, and the interface's three default methods.
 */
module InnerProductSpace {

  /**
   * The operations of one implementation, as values.
   * `add` and `scale` return new vectors; `iadd` and `iscale` update their
   * receiver in place and return it, so here they give the receiver's new value.
   */
  datatype Space<!E> = Space(
    add: (E, E) -> E,
    iadd: (E, E) -> E,
    scale: (E, real) -> E,
    iscale: (E, real) -> E,
    dot: (E, E) -> real,
    lerp: (E, E, real) -> E)

  /** Default `sub(b)`: this.add(b.scale(-1)). */
  function Sub<E>(sp: Space<E>, this_: E, b: E): E {
    sp.add(this_, sp.scale(b, -1.0))
  }

  /** Default `isub(b)`: this.iadd(b.scale(-1)); the receiver's value afterwards. */
  function ISub<E>(sp: Space<E>, this_: E, b: E): E {
    sp.iadd(this_, sp.scale(b, -1.0))
  }

  /**
   * Default `lerp(b, f)`: b.scale(f).iadd(this.scale(1 - f)). Both scaled
   * vectors are fresh, so the in-place add only changes a temporary.
   */
  function DefaultLerp<E>(sp: Space<E>, this_: E, b: E, f: real): E {
    sp.iadd(sp.scale(b, f), sp.scale(this_, 1.0 - f))
  }

  /** Laws every real vector space obeys, as far as the lemmas below use them. */
  ghost predicate Laws<E(!new)>(sp: Space<E>) {
    && (forall a: E, b: E :: sp.iadd(a, b) == sp.add(a, b))
    && (forall a: E :: sp.scale(a, 1.0) == a)
    && (forall a: E, b: E :: sp.add(a, sp.scale(b, 0.0)) == a)
    && (forall a: E, b: E :: sp.add(sp.scale(b, 0.0), a) == a)
    && (forall a: E, b: E :: sp.add(a, b) == sp.add(b, a))
  }

  /** A lerp that reproduces its end points, as a lerp between two vectors should. */
  ghost predicate LerpLaws<E(!new)>(sp: Space<E>) {
    forall a: E, b: E :: sp.lerp(a, b, 0.0) == a && sp.lerp(a, b, 1.0) == b
  }

  /** The one-dimensional space of reals, with lerp as Vectornf overrides it. */
  function RealSpace(): Space<real> {
    Space((a: real, b: real) => a + b, (a: real, b: real) => a + b,
          (a: real, f: real) => a * f, (a: real, f: real) => a * f,
          (a: real, b: real) => a * b,
          (a: real, b: real, f: real) => f * b + (1.0 - f) * a)
  }

  lemma RealSpaceLaws()
    ensures Laws(RealSpace())
  {
  }

  /** Over a real vector space the default lerp gives `this` at f = 0 and `b` at f = 1. */
  lemma DefaultLerpEnds<E(!new)>(sp: Space<E>, a: E, b: E)
    requires Laws(sp)
    ensures DefaultLerp(sp, a, b, 0.0) == a
    ensures DefaultLerp(sp, a, b, 1.0) == b
  {
    assert 1.0 - 0.0 == 1.0 && 1.0 - 1.0 == 0.0;
  }

  /** A space that keeps the default lerp inherits the end-point property from the laws. */
  lemma DefaultLerpHasLerpLaws<E(!new)>(sp: Space<E>)
    requires Laws(sp)
    requires forall a: E, b: E, f: real :: sp.lerp(a, b, f) == DefaultLerp(sp, a, b, f)
    ensures LerpLaws(sp)
  {
    forall a: E, b: E
      ensures sp.lerp(a, b, 0.0) == a && sp.lerp(a, b, 1.0) == b
    {
      DefaultLerpEnds(sp, a, b);
    }
  }

  lemma RealSpaceLerpLaws()
    ensures LerpLaws(RealSpace())
  {
  }

  /** Over reals the default lerp and Vectornf's override agree for every f. */
  lemma DefaultLerpIsAffine(a: real, b: real, f: real)
    ensures DefaultLerp(RealSpace(), a, b, f) == RealSpace().lerp(a, b, f) == a + f * (b - a)
  {
  }

  /** Over reals the default sub is subtraction, and isub leaves the receiver holding the same. */
  lemma DefaultSubIsMinus(a: real, b: real)
    ensures Sub(RealSpace(), a, b) == ISub(RealSpace(), a, b) == a - b
  {
  }
}
