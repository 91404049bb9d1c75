/**
 * java.util.Random, seen from outside: a seeded generator whose draws are an
 * abstract stream. Only the bound contract of nextInt/nextFloat is assumed.
 */
module Rng {
  import opened Wrappers

  /**
   * The draws of a freshly seeded generator.
   * nextInt(seed, k, bound) is the k-th (0-based) result of nextInt(bound)
   * after setSeed(seed); nextFloat likewise for nextFloat(bound).
   */
  datatype Stream = Stream(nextInt: (int, nat, int) -> int, nextFloat: (int, nat, real) -> real)

  /** The bound contract of java.util.Random: every draw lies in [0, bound). */
  ghost predicate Bounded(s: Stream) {
    && (forall seed: int, k: nat, bound: int | bound > 0 :: 0 <= s.nextInt(seed, k, bound) < bound)
    && (forall seed: int, k: nat, bound: real | bound > 0.0 :: 0.0 <= s.nextFloat(seed, k, bound) < bound)
  }

  /** A generator object: the seed it was last given and how many draws it has made since. */
  class Random {
    const stream: Stream
    var seed: int
    var drawn: nat

    ghost predicate Valid() {
      Bounded(stream)
    }

    /** `new Random()`: the initial seed comes from the clock, so it is a parameter here. */
    constructor (stream: Stream, clockSeed: int)
      requires Bounded(stream)
      ensures Valid() && this.stream == stream
      ensures seed == clockSeed && drawn == 0
    {
      this.stream := stream;
      seed := clockSeed;
      drawn := 0;
    }

    method SetSeed(s: int)
      modifies this
      ensures seed == s && drawn == 0
    {
      seed := s;
      drawn := 0;
    }

    /** nextInt(bound): the next draw in [0, bound); IllegalArgumentException when bound <= 0. */
    method NextInt(bound: int) returns (r: Result<int>)
      requires Valid()
      modifies this
      ensures seed == old(seed)
      ensures bound <= 0 ==> r == Err(IllegalArgument) && drawn == old(drawn)
      ensures bound > 0 ==> r == Ok(stream.nextInt(seed, old(drawn), bound)) && drawn == old(drawn) + 1
      ensures r.Ok? ==> 0 <= r.value < bound
    {
      if bound <= 0 {
        return Err(IllegalArgument);
      }
      r := Ok(stream.nextInt(seed, drawn, bound));
      drawn := drawn + 1;
    }

    /** nextFloat(bound): the next draw in [0, bound); IllegalArgumentException when bound <= 0. */
    method NextFloat(bound: real) returns (r: Result<real>)
      requires Valid()
      modifies this
      ensures seed == old(seed)
      ensures bound <= 0.0 ==> r == Err(IllegalArgument) && drawn == old(drawn)
      ensures bound > 0.0 ==> r == Ok(stream.nextFloat(seed, old(drawn), bound)) && drawn == old(drawn) + 1
      ensures r.Ok? ==> 0.0 <= r.value < bound
    {
      if bound <= 0.0 {
        return Err(IllegalArgument);
      }
      r := Ok(stream.nextFloat(seed, drawn, bound));
      drawn := drawn + 1;
    }
  }
}
