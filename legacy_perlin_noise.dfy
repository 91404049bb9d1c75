/**
 * PerlinNoise of the older engine: values are Vectornf component vectors,
 * the chunk coordinates travel as plain integers, the influence possibility
 * can be overridden by index (-1 asking for the default draw), and perlin
 * reports the smallest and the largest component it produced.
 */
module LegacyPerlinNoise {
  import opened Wrappers
  import opened Rng
  import opened Vector2D
  import opened VectorN
  import opened PairVector
  import G = OctaveGeometry
  import Util
  import Tiling
  import opened ChunkGrid

  /** The index-override interfaces: (seed, mask, spiralIndex, cx, cy) to a possibility index, -1 for the default. */
  type IndexOverride = (int, int, int, int, int) -> int

  /**
   * Perlinification.perlinAChunk as this engine calls it, on a chunk's four
   * influence pairs and a pixel size: pixel (x, y) of the chunk.
   */
  type ChunkFunction = (seq<Vector2v<seq<real>>>, nat, nat, nat) -> seq<real>

  /* ---------------------------------------------------------------------- */
  /* Running extremes                                                       */
  /* ---------------------------------------------------------------------- */

  /** A float as max/min track it: the infinities they start from, or a value. */
  datatype Extreme = NegativeInfinity | PositiveInfinity | Finite(v: real)

  /** Math.max(e, a). */
  function Max(e: Extreme, a: real): Extreme {
    match e
    case NegativeInfinity => Finite(a)
    case PositiveInfinity => PositiveInfinity
    case Finite(v) => Finite(if v >= a then v else a)
  }

  /** Math.min(e, a). */
  function Min(e: Extreme, a: real): Extreme {
    match e
    case NegativeInfinity => NegativeInfinity
    case PositiveInfinity => Finite(a)
    case Finite(v) => Finite(if v <= a then v else a)
  }

  predicate AtLeast(e: Extreme, a: real) {
    e.PositiveInfinity? || (e.Finite? && e.v >= a)
  }

  predicate AtMost(e: Extreme, a: real) {
    e.NegativeInfinity? || (e.Finite? && e.v <= a)
  }

  /** max after folding Math.max over s, first component first. */
  function MaxOf(e: Extreme, s: seq<real>): Extreme {
    if |s| == 0 then e else Max(MaxOf(e, s[..|s| - 1]), s[|s| - 1])
  }

  /** min after folding Math.min over s, first component first. */
  function MinOf(e: Extreme, s: seq<real>): Extreme {
    if |s| == 0 then e else Min(MinOf(e, s[..|s| - 1]), s[|s| - 1])
  }

  /** The running max is at least every component, and stays finite once it is. */
  lemma {:induction false} MaxOfBounds(e: Extreme, s: seq<real>)
    ensures forall i | 0 <= i < |s| :: AtLeast(MaxOf(e, s), s[i])
    ensures e != PositiveInfinity && |s| > 0 ==> MaxOf(e, s).Finite?
    ensures e == NegativeInfinity && |s| == 0 ==> MaxOf(e, s) == NegativeInfinity
  {
    if |s| > 0 {
      MaxOfBounds(e, s[..|s| - 1]);
      forall i | 0 <= i < |s|
        ensures AtLeast(MaxOf(e, s), s[i])
      {
        if i < |s| - 1 {
          assert s[..|s| - 1][i] == s[i];
        }
      }
    }
  }

  /** The running min is at most every component, and stays finite once it is. */
  lemma {:induction false} MinOfBounds(e: Extreme, s: seq<real>)
    ensures forall i | 0 <= i < |s| :: AtMost(MinOf(e, s), s[i])
    ensures e != NegativeInfinity && |s| > 0 ==> MinOf(e, s).Finite?
    ensures e == PositiveInfinity && |s| == 0 ==> MinOf(e, s) == PositiveInfinity
  {
    if |s| > 0 {
      MinOfBounds(e, s[..|s| - 1]);
      forall i | 0 <= i < |s|
        ensures AtMost(MinOf(e, s), s[i])
      {
        if i < |s| - 1 {
          assert s[..|s| - 1][i] == s[i];
        }
      }
    }
  }

  /** The running max is where it started or one of the components. */
  lemma {:induction false} MaxOfAttained(e: Extreme, s: seq<real>)
    ensures MaxOf(e, s) == e || exists i | 0 <= i < |s| :: MaxOf(e, s) == Finite(s[i])
  {
    if |s| > 0 {
      var s' := s[..|s| - 1];
      MaxOfAttained(e, s');
      if MaxOf(e, s) != Finite(s[|s| - 1]) && MaxOf(e, s) != e {
        var i :| 0 <= i < |s'| && MaxOf(e, s') == Finite(s'[i]);
        assert MaxOf(e, s) == Finite(s[i]);
      }
    }
  }

  /** The running min is where it started or one of the components. */
  lemma {:induction false} MinOfAttained(e: Extreme, s: seq<real>)
    ensures MinOf(e, s) == e || exists i | 0 <= i < |s| :: MinOf(e, s) == Finite(s[i])
  {
    if |s| > 0 {
      var s' := s[..|s| - 1];
      MinOfAttained(e, s');
      if MinOf(e, s) != Finite(s[|s| - 1]) && MinOf(e, s) != e {
        var i :| 0 <= i < |s'| && MinOf(e, s') == Finite(s'[i]);
        assert MinOf(e, s) == Finite(s[i]);
      }
    }
  }

  /** Folding over s and then t is folding over s + t. */
  lemma {:induction false} ExtremesAppend(e: Extreme, f: Extreme, s: seq<real>, t: seq<real>)
    ensures MaxOf(e, s + t) == MaxOf(MaxOf(e, s), t)
    ensures MinOf(f, s + t) == MinOf(MinOf(f, s), t)
  {
    if |t| == 0 {
      assert s + t == s;
    } else {
      assert (s + t)[..|s + t| - 1] == s + t[..|t| - 1];
      ExtremesAppend(e, f, s, t[..|t| - 1]);
    }
  }

  /** The components of the cells, cell after cell. */
  function Flatten(cells: seq<seq<real>>): seq<real> {
    if |cells| == 0 then [] else Flatten(cells[..|cells| - 1]) + cells[|cells| - 1]
  }

  /** Every component of every cell is in the flattening. */
  lemma {:induction false} FlattenHas(cells: seq<seq<real>>)
    ensures forall k, i | 0 <= k < |cells| && 0 <= i < |cells[k]| :: cells[k][i] in Flatten(cells)
  {
    if |cells| > 0 {
      var front := cells[..|cells| - 1];
      FlattenHas(front);
      forall k, i | 0 <= k < |cells| && 0 <= i < |cells[k]|
        ensures cells[k][i] in Flatten(cells)
      {
        if k < |cells| - 1 {
          assert cells[k] == front[k];
          assert front[k][i] in Flatten(front);
        } else {
          assert Flatten(cells)[|Flatten(front)| + i] == cells[k][i];
        }
      }
    }
  }

  /** Every component of the flattening comes from some cell: the cell and the component it is. */
  lemma {:induction false} FlattenSource(cells: seq<seq<real>>, j: nat) returns (k: nat, i: nat)
    requires j < |Flatten(cells)|
    ensures k < |cells| && i < |cells[k]| && cells[k][i] == Flatten(cells)[j]
  {
    var front := cells[..|cells| - 1];
    if j < |Flatten(front)| {
      k, i := FlattenSource(front, j);
      assert cells[k] == front[k];
    } else {
      k, i := |cells| - 1, j - |Flatten(front)|;
    }
  }

  /** The running extremes of the cells so far, tracked through one more cell. */
  lemma TrackCell(done: seq<seq<real>>, p: seq<real>)
    ensures MaxOf(MaxOf(NegativeInfinity, Flatten(done)), p) == MaxOf(NegativeInfinity, Flatten(done + [p]))
    ensures MinOf(MinOf(PositiveInfinity, Flatten(done)), p) == MinOf(PositiveInfinity, Flatten(done + [p]))
  {
    assert (done + [p])[..|done|] == done;
    ExtremesAppend(NegativeInfinity, PositiveInfinity, Flatten(done), p);
  }

  /* ---------------------------------------------------------------------- */
  /* What one chunk computes                                                */
  /* ---------------------------------------------------------------------- */

  /**
   * Everything a generation reads from the engine: the angle direction
   * (cos, sin), the stream of its generator, its possibilities, its index
   * overrides (None: the engine itself), the chunk pipeline it calls, and its
   * octave configuration with each level's pixel size.
   */
  datatype Env = Env(
    direction: real -> Point, stream: Stream, possibilities: seq<seq<real>>,
    mainIndex: Option<IndexOverride>, octIndex: Option<IndexOverride>, chunk: ChunkFunction,
    octaves: nat, lacunarity: nat, persistence: real, sizes: seq<nat>)

  /** All possibilities have the dimension of the first. */
  predicate OneDimension(possibilities: seq<seq<real>>)
    requires |possibilities| >= 1
  {
    forall k | 0 <= k < |possibilities| :: |possibilities[k]| == |possibilities[0]|
  }

  predicate PairsOfDimension(pairs: seq<Vector2v<seq<real>>>, n: nat) {
    forall k | 0 <= k < |pairs| :: |pairs[k].a| == n && |pairs[k].b| == n
  }

  /** The chunk pipeline turns influence pairs of dimension n into pixels of dimension n. */
  ghost predicate KeepsDimension(chunk: ChunkFunction, n: nat) {
    forall pairs: seq<Vector2v<seq<real>>>, ps: nat, x: nat, y: nat | PairsOfDimension(pairs, n) ::
      |chunk(pairs, ps, x, y)| == n
  }

  /**
   * An override names a possibility or asks for the default with -1. It is
   * only consulted when there is more than one possibility.
   */
  ghost predicate IndexInRange(o: Option<IndexOverride>, count: nat) {
    o.Some? && count > 1 ==> forall seed, mask, spiralIndex, cx, cy :: -1 <= o.value(seed, mask, spiralIndex, cx, cy) < count
  }

  /** The pipeline keeps the dimension of the possibilities, when there is one. */
  ghost predicate PipelineFits(chunk: ChunkFunction, possibilities: seq<seq<real>>) {
    |possibilities| >= 1 ==> KeepsDimension(chunk, |possibilities[0]|)
  }

  ghost predicate WellFormed(env: Env) {
    && Bounded(env.stream)
    && |env.possibilities| >= 1
    && OneDimension(env.possibilities)
    && KeepsDimension(env.chunk, |env.possibilities[0]|)
    && IndexInRange(env.mainIndex, |env.possibilities|)
    && IndexInRange(env.octIndex, |env.possibilities|)
    && |env.sizes| == env.octaves
    && env.lacunarity >= 1
  }

  /** The dimension of every value the engine produces. */
  function Dim(env: Env): nat
    requires |env.possibilities| >= 1
  {
    |env.possibilities[0]|
  }

  /** The documented assertion: each level's size is exactly the lacunarity times the next one's. */
  predicate Tiles(env: Env) {
    forall n | 1 <= n < |env.sizes| :: Fits(env, n)
  }

  /** Level n - 1 is exactly lacunarity blocks of level n wide. */
  predicate Fits(env: Env, n: nat)
    requires 1 <= n < |env.sizes|
  {
    env.sizes[n] * env.lacunarity == env.sizes[n - 1]
  }

  /**
   * The possibility index for corner `mask` of chunk (cx, cy): 0 with a
   * single possibility, else the override (the oct one below the main
   * level), where -1 or no override means the spiralIndex-th random int.
   */
  function PossibilityIndex(env: Env, seed: int, mask: int, spiralIndex: int, cx: int, cy: int, isOct: bool): int
    requires WellFormed(env)
  {
    if |env.possibilities| <= 1 then 0
    else
      var default := Util.IntAtIndex(env.stream, spiralIndex, seed, |env.possibilities|);
      var o := if isOct then env.octIndex else env.mainIndex;
      if o.None? then default
      else
        var chosen := o.value(seed, mask, spiralIndex, cx, cy);
        if chosen == -1 then default else chosen
  }

  /** Every real corner (a non-negative spiral index) gets an existing possibility. */
  lemma PossibilityIndexInRange(env: Env, seed: int, mask: int, spiralIndex: int, cx: int, cy: int, isOct: bool)
    requires WellFormed(env) && spiralIndex >= 0
    ensures 0 <= PossibilityIndex(env, seed, mask, spiralIndex, cx, cy, isOct) < |env.possibilities|
  {
    if |env.possibilities| > 1 {
      var o := if isOct then env.octIndex else env.mainIndex;
      if o.Some? {
        assert -1 <= o.value(seed, mask, spiralIndex, cx, cy) < |env.possibilities|;
      }
    }
  }

  /** An override answering -1 everywhere chooses exactly what no override chooses. */
  lemma DeclinedOverrideIsDefault(env: Env, seed: int, mask: int, spiralIndex: int, cx: int, cy: int, isOct: bool)
    requires WellFormed(env)
    requires var o := if isOct then env.octIndex else env.mainIndex;
      o.Some? && o.value(seed, mask, spiralIndex, cx, cy) == -1
    ensures PossibilityIndex(env, seed, mask, spiralIndex, cx, cy, isOct)
         == PossibilityIndex(env.(mainIndex := None, octIndex := None), seed, mask, spiralIndex, cx, cy, isOct)
  {
  }

  /** The influence pair of corner `mask`: the chosen possibility scaled by the cosine and the sine of the drawn angle. */
  function InfluencePair(env: Env, seed: int, cx: int, cy: int, isOct: bool, mask: nat): (r: Vector2v<seq<real>>)
    requires WellFormed(env) && mask < G.MASKS
    ensures |r.a| == Dim(env) && |r.b| == Dim(env)
  {
    var spiralIndex := CornerIndices(cx, cy)[mask];
    var f := Util.FloatAtIndex(env.stream, spiralIndex, seed, TWO_PI);
    var p := PScale(env.direction(f), 1.0);
    PossibilityIndexInRange(env, seed, mask, spiralIndex, cx, cy, isOct);
    var influence := env.possibilities[PossibilityIndex(env, seed, mask, spiralIndex, cx, cy, isOct)];
    Vector2v(Times(influence, p.x), Times(influence, p.y))
  }

  function InfluencePairs(env: Env, seed: int, cx: int, cy: int, isOct: bool): (r: seq<Vector2v<seq<real>>>)
    requires WellFormed(env)
    ensures |r| == G.MASKS && PairsOfDimension(r, Dim(env))
  {
    seq(G.MASKS, m requires 0 <= m < G.MASKS => InfluencePair(env, seed, cx, cy, isOct, m))
  }

  /** Coordinate i of the l children along one axis of a chunk at coordinate c. */
  function ChildCoordinate(c: int, i: int, l: int): int {
    c * l + i
  }

  /**
   * Pixel (x, y) of chunk (cx, cy) on octave `level`: the chunk's own noise
   * plus, while octaves remain below it, the persistence times its
   * sub-octave's pixel. The main level draws its possibilities through the
   * main override, the others through the oct one.
   */
  function LevelCell(env: Env, seed: int, cx: int, cy: int, level: nat, x: nat, y: nat): (r: seq<real>)
    requires WellFormed(env) && Tiles(env)
    requires level < env.octaves && x < env.sizes[level] && y < env.sizes[level]
    ensures |r| == Dim(env)
    decreases env.octaves - level, 1
  {
    var pix := env.chunk(InfluencePairs(env, seed, cx, cy, level > 0), env.sizes[level], x, y);
    if level + 1 < env.octaves then Plus(pix, Times(SubCell(env, seed + 1, cx, cy, level + 1, x, y), env.persistence))
    else pix
  }

  /** Cell (X, Y) of perlinOctave(seed, cx, cy, octn): pixel (X % ps, Y % ps) of child (X / ps, Y / ps). */
  function SubCell(env: Env, seed: int, cx: int, cy: int, octn: nat, X: nat, Y: nat): (r: seq<real>)
    requires WellFormed(env) && Tiles(env)
    requires 1 <= octn < env.octaves && X < env.sizes[octn - 1] && Y < env.sizes[octn - 1]
    ensures |r| == Dim(env)
    decreases env.octaves - octn, 2
  {
    var ps := env.sizes[octn];
    var l := env.lacunarity;
    assert Fits(env, octn);
    Tiling.BlockCover(X, ps, l);
    Tiling.BlockCover(Y, ps, l);
    LevelCell(env, seed, ChildCoordinate(cx, X / ps, l), ChildCoordinate(cy, Y / ps, l), octn, X % ps, Y % ps)
  }

  /** With a single octave a chunk is its own noise: no sub-octave is drawn. */
  lemma SingleOctave(env: Env, seed: int, cx: int, cy: int, x: nat, y: nat)
    requires WellFormed(env) && Tiles(env) && env.octaves == 1
    requires x < env.sizes[0] && y < env.sizes[0]
    ensures LevelCell(env, seed, cx, cy, 0, x, y) == env.chunk(InfluencePairs(env, seed, cx, cy, false), env.sizes[0], x, y)
  {
  }

  /** The cell whose block is (i, j) and offset (x, y) is pixel (x, y) of child (i, j), drawn with the same seed. */
  lemma ChildPixel(env: Env, seed: int, cx: int, cy: int, octn: nat, X: nat, Y: nat, i: nat, j: nat, x: nat, y: nat)
    requires WellFormed(env) && Tiles(env)
    requires 1 <= octn < env.octaves && X < env.sizes[octn - 1] && Y < env.sizes[octn - 1]
    requires var ps := env.sizes[octn]; ps > 0 && X / ps == i && X % ps == x && Y / ps == j && Y % ps == y
    ensures x < env.sizes[octn] && y < env.sizes[octn]
    ensures SubCell(env, seed, cx, cy, octn, X, Y)
         == LevelCell(env, seed, ChildCoordinate(cx, i, env.lacunarity), ChildCoordinate(cy, j, env.lacunarity), octn, x, y)
  {
    assert Fits(env, octn);
    Tiling.BlockCover(X, env.sizes[octn], env.lacunarity);
    Tiling.BlockCover(Y, env.sizes[octn], env.lacunarity);
  }

  /* ---------------------------------------------------------------------- */
  /* The main chunk, cell after cell                                        */
  /* ---------------------------------------------------------------------- */

  /** `done` holds the first |done| cells of chunk (cx, cy) on the main level, row by row. */
  ghost predicate RowMajor(env: Env, seed: int, cx: int, cy: int, done: seq<seq<real>>)
    requires WellFormed(env) && Tiles(env) && 0 < env.octaves
  {
    var ps := env.sizes[0];
    forall k | 0 <= k < |done| ::
      ps > 0 && Tiling.Block(k, ps) < ps && done[k] == LevelCell(env, seed, cx, cy, 0, Tiling.Block(k, ps), Tiling.Offset(k, ps))
  }

  /** Cell (x, y) is the next one in row-major order once x * ps + y cells are done. */
  lemma RowMajorAppend(env: Env, seed: int, cx: int, cy: int, done: seq<seq<real>>, x: nat, y: nat)
    requires WellFormed(env) && Tiles(env) && 0 < env.octaves
    requires x < env.sizes[0] && y < env.sizes[0] && |done| == x * env.sizes[0] + y
    requires RowMajor(env, seed, cx, cy, done)
    ensures RowMajor(env, seed, cx, cy, done + [LevelCell(env, seed, cx, cy, 0, x, y)])
  {
    var ps := env.sizes[0];
    Tiling.BlockDecompose(x, y, ps);
    var done' := done + [LevelCell(env, seed, cx, cy, 0, x, y)];
    forall k | 0 <= k < |done'|
      ensures ps > 0 && Tiling.Block(k, ps) < ps && done'[k] == LevelCell(env, seed, cx, cy, 0, Tiling.Block(k, ps), Tiling.Offset(k, ps))
    {
      if k < |done| {
        assert done'[k] == done[k];
      }
    }
  }

  /**
   * What perlin reports for chunk (cx, cy): max is at least and min at most
   * every component of every main-level pixel; each is one of them when
   * finite, and finite as soon as there is a component; max is never
   * +infinity and min never -infinity.
   */
  ghost predicate Extremes(env: Env, seed: int, cx: int, cy: int, max: Extreme, min: Extreme)
    requires WellFormed(env) && Tiles(env) && 0 < env.octaves
  {
    var ps := env.sizes[0];
    && (forall x, y, i | 0 <= x < ps && 0 <= y < ps && 0 <= i < Dim(env) ::
          AtLeast(max, LevelCell(env, seed, cx, cy, 0, x, y)[i]) && AtMost(min, LevelCell(env, seed, cx, cy, 0, x, y)[i]))
    && max != PositiveInfinity && min != NegativeInfinity
    && (ps > 0 && Dim(env) > 0 ==> max.Finite? && min.Finite?)
    && (max.Finite? ==> exists x, y, i | 0 <= x < ps && 0 <= y < ps && 0 <= i < Dim(env) :: LevelCell(env, seed, cx, cy, 0, x, y)[i] == max.v)
    && (min.Finite? ==> exists x, y, i | 0 <= x < ps && 0 <= y < ps && 0 <= i < Dim(env) :: LevelCell(env, seed, cx, cy, 0, x, y)[i] == min.v)
  }

  /** Once all ps * ps cells are done, the max and min folded over their components are the chunk's extremes. */
  lemma {:induction false} MainExtremes(env: Env, seed: int, cx: int, cy: int, done: seq<seq<real>>)
    requires WellFormed(env) && Tiles(env) && 0 < env.octaves
    requires RowMajor(env, seed, cx, cy, done) && |done| == env.sizes[0] * env.sizes[0]
    ensures Extremes(env, seed, cx, cy, MaxOf(NegativeInfinity, Flatten(done)), MinOf(PositiveInfinity, Flatten(done)))
  {
    var ps := env.sizes[0];
    var flat := Flatten(done);
    var max, min := MaxOf(NegativeInfinity, flat), MinOf(PositiveInfinity, flat);
    MaxOfBounds(NegativeInfinity, flat);
    MinOfBounds(PositiveInfinity, flat);
    FlattenHas(done);
    forall x, y, i | 0 <= x < ps && 0 <= y < ps && 0 <= i < Dim(env)
      ensures AtLeast(max, LevelCell(env, seed, cx, cy, 0, x, y)[i]) && AtMost(min, LevelCell(env, seed, cx, cy, 0, x, y)[i])
    {
      var k := x * ps + y;
      Tiling.BlockCell(x, y, ps, ps);
      assert done[k] == LevelCell(env, seed, cx, cy, 0, x, y);
      assert done[k][i] in flat;
    }
    if ps > 0 && Dim(env) > 0 {
      assert done[0][0] in flat;
    }
    MaxOfAttained(NegativeInfinity, flat);
    if max.Finite? {
      var j :| 0 <= j < |flat| && max == Finite(flat[j]);
      var k, i := FlattenSource(done, j);
      assert done[k] == LevelCell(env, seed, cx, cy, 0, Tiling.Block(k, ps), Tiling.Offset(k, ps));
    }
    MinOfAttained(PositiveInfinity, flat);
    if min.Finite? {
      var j :| 0 <= j < |flat| && min == Finite(flat[j]);
      var k, i := FlattenSource(done, j);
      assert done[k] == LevelCell(env, seed, cx, cy, 0, Tiling.Block(k, ps), Tiling.Offset(k, ps));
    }
  }

  /* ---------------------------------------------------------------------- */
  /* The engine                                                             */
  /* ---------------------------------------------------------------------- */

  /** PerlinReturn: the pixel values and the largest and smallest component among them. */
  datatype PerlinReturn = PerlinReturn(values: array2<seq<real>>, max: Extreme, min: Extreme)

  class PerlinNoise {
    const random: Random
    const direction: real -> Point
    const possibilities: seq<seq<real>>
    const psize: nat
    const runPossibilities: bool
    /** None stands for the engine itself, the default index. */
    const mainPosIndex: Option<IndexOverride>
    const octPosIndex: Option<IndexOverride>
    const chunk: ChunkFunction
    var octaves: nat
    var lacunarity: nat
    var persistence: real
    var octaveDataSets: seq<G.PerlinOctave>

    ghost function Footprint(): set<object>
      reads this
    {
      set o | o in octaveDataSets :: o.pixelDistanceVectors
    }

    /**
     * The octave table holds one octave per level, each sized by LevelSize,
     * or is still the empty table the constructor leaves (with one octave).
     */
    ghost predicate Valid()
      reads this, Footprint()
    {
      && random.Valid()
      && runPossibilities == (|possibilities| > 1)
      && PipelineFits(chunk, possibilities)
      && IndexInRange(mainPosIndex, |possibilities|)
      && IndexInRange(octPosIndex, |possibilities|)
      && lacunarity >= 1
      && (|octaveDataSets| == octaves || (octaveDataSets == [] && octaves == 1))
      && Levels(octaveDataSets, psize, lacunarity)
    }

    /**
     * There is a possibility for index 0 to name, and all possibilities have
     * one dimension, so that no add or scale meets vectors of two sizes.
     */
    predicate Drawable() {
      |possibilities| >= 1 && OneDimension(possibilities)
    }

    /** What a generation depends on. */
    function Config(): (env: Env)
      requires lacunarity >= 1
      reads this
    {
      var base, l := psize, lacunarity;
      Env(direction, random.stream, possibilities, mainPosIndex, octPosIndex, chunk,
          octaves, l, persistence, seq(octaves, n requires 0 <= n => LevelSize(base, l, n)))
    }

    /**
     * PerlinNoise(psize, possibilities, m, o): one octave of lacunarity 1 and
     * persistence 0.5 in the fields, but setOctaves(1, 1) finds both already
     * equal to 1 and returns, so the octave table stays empty. The Random's
     * clock seed is a parameter.
     */
    constructor (direction: real -> Point, stream: Stream, clockSeed: int, psize: nat, possibilities: seq<seq<real>>,
                 m: Option<IndexOverride>, o: Option<IndexOverride>, chunk: ChunkFunction)
      requires Bounded(stream) && PipelineFits(chunk, possibilities)
      requires IndexInRange(m, |possibilities|) && IndexInRange(o, |possibilities|)
      ensures Valid() && fresh(random)
      ensures this.direction == direction && random.stream == stream && random.seed == clockSeed && this.psize == psize
      ensures this.possibilities == possibilities && mainPosIndex == m && octPosIndex == o && this.chunk == chunk
      ensures octaves == 1 && lacunarity == 1 && persistence == 0.5
      ensures octaveDataSets == []
    {
      this.direction := direction;
      this.psize := psize;
      random := new Random(stream, clockSeed);
      this.possibilities := possibilities;
      runPossibilities := |possibilities| > 1;
      mainPosIndex := m;
      octPosIndex := o;
      this.chunk := chunk;
      octaves := 1;
      lacunarity := 1;
      persistence := 0.5;
      octaveDataSets := [];
      new;
      var _ := SetOctaves(1, 1, 0);
    }

    /**
     * setOctaves(octaves, lacunarity): nothing to do when both are current;
     * when only the octave count changes, or the count asked for is 1, it
     * calls itself again with the same arguments on the same state, one
     * stack frame per call, until the stack (`stack` frames left) overflows;
     * otherwise it rebuilds the table.
     */
    method SetOctaves(o: nat, l: nat, stack: nat) returns (r: Outcome)
      requires Valid() && l >= 1
      modifies this
      decreases stack
      ensures Valid() && persistence == old(persistence)
      ensures r == Fail(StackOverflow) <==> (o != old(octaves) || l != old(lacunarity)) && (l == old(lacunarity) || o == 1)
      ensures r.Fail? || (o == old(octaves) && l == old(lacunarity)) ==>
                octaves == old(octaves) && lacunarity == old(lacunarity) && octaveDataSets == old(octaveDataSets)
      ensures r.Done? ==> octaves == o && lacunarity == l
      ensures r.Done? && (o != old(octaves) || l != old(lacunarity)) ==> |octaveDataSets| == o
    {
      if o == octaves && l == lacunarity {
        return Done;
      } else if l == lacunarity || o == 1 {
        if stack == 0 {
          return Fail(StackOverflow);
        }
        r := SetOctaves(o, l, stack - 1);
        return;
      }
      Rebuild(o, l);
      r := Done;
    }

    /** The rebuilding branch of setOctaves(octaves, lacunarity). */
    method Rebuild(o: nat, l: nat)
      requires Valid() && l >= 1
      modifies this
      ensures Valid() && octaves == o && lacunarity == l && |octaveDataSets| == o && persistence == old(persistence)
      ensures forall k | 0 <= k < o :: fresh(octaveDataSets[k])
    {
      octaveDataSets := BuildTable(psize, l, o);
      octaves := o;
      lacunarity := l;
    }

    /**
     * setOctaves(octaves): keeps the first levels when shrinking and appends
     * new levels below the last one when growing; growing the empty table
     * fails on its missing last level.
     */
    method SetOctaveCount(o: nat) returns (r: Outcome)
      requires Valid()
      modifies this
      ensures Valid() && lacunarity == old(lacunarity) && persistence == old(persistence)
      ensures r == Fail(IndexOutOfBounds) <==> old(octaveDataSets) == [] && o > old(octaves)
      ensures r.Fail? ==> octaves == old(octaves) && octaveDataSets == old(octaveDataSets)
      ensures r.Done? ==> octaves == o
      ensures r.Done? && o == old(octaves) ==> octaveDataSets == old(octaveDataSets)
      ensures r.Done? && o < old(octaves) ==> octaveDataSets == old(octaveDataSets)[..o]
      ensures r.Done? && o > old(octaves) ==> |octaveDataSets| == o && octaveDataSets[..old(octaves)] == old(octaveDataSets)
      ensures forall k | |old(octaveDataSets)| <= k < |octaveDataSets| :: fresh(octaveDataSets[k])
    {
      if o == octaves {
        return Done;
      } else if o < octaves {
        octaveDataSets := octaveDataSets[..o];
      } else {
        if |octaveDataSets| == 0 {
          return Fail(IndexOutOfBounds);
        }
        octaveDataSets := ExtendTable(octaveDataSets, psize, lacunarity, o);
      }
      octaves := o;
      r := Done;
    }

    /**
     * setLacunarity: setOctaves(octaves, l). Nothing changes for the current
     * lacunarity; a new one rebuilds the table, except on a one-octave engine,
     * where setOctaves(1, l) calls itself until the stack overflows.
     */
    method SetLacunarity(l: nat, stack: nat) returns (r: Outcome)
      requires Valid() && l >= 1
      modifies this
      ensures Valid() && octaves == old(octaves) && persistence == old(persistence)
      ensures r == Fail(StackOverflow) <==> l != old(lacunarity) && old(octaves) == 1
      ensures r.Fail? || l == old(lacunarity) ==> lacunarity == old(lacunarity) && octaveDataSets == old(octaveDataSets)
      ensures r.Done? ==> lacunarity == l
      ensures r.Done? && l != old(lacunarity) ==> |octaveDataSets| == octaves
    {
      r := SetOctaves(octaves, l, stack);
    }

    /** setLacunarity as the later revision has it: always the rebuilding branch. */
    method SetLacunarityRebuilding(l: nat)
      requires Valid() && l >= 1
      modifies this
      ensures Valid() && octaves == old(octaves) && lacunarity == l && persistence == old(persistence)
      ensures |octaveDataSets| == octaves
    {
      Rebuild(octaves, l);
    }

    /** setPersistence. */
    method SetPersistence(p: real)
      requires Valid()
      modifies this
      ensures Valid() && persistence == p
      ensures octaves == old(octaves) && lacunarity == old(lacunarity) && octaveDataSets == old(octaveDataSets)
    {
      persistence := p;
    }

    /**
     * setOctaves(octaves, lacunarity, persistence): setOctaves(o, l), then the
     * persistence, which is not reached when the first call overflows.
     */
    method SetOctavesAndPersistence(o: nat, l: nat, p: real, stack: nat) returns (r: Outcome)
      requires Valid() && l >= 1
      modifies this
      ensures Valid()
      ensures r == Fail(StackOverflow) <==> (o != old(octaves) || l != old(lacunarity)) && (l == old(lacunarity) || o == 1)
      ensures r.Fail? ==> persistence == old(persistence)
      ensures r.Fail? || (o == old(octaves) && l == old(lacunarity)) ==>
                octaves == old(octaves) && lacunarity == old(lacunarity) && octaveDataSets == old(octaveDataSets)
      ensures r.Done? ==> octaves == o && lacunarity == l && persistence == p
      ensures r.Done? && (o != old(octaves) || l != old(lacunarity)) ==> |octaveDataSets| == o
    {
      r := SetOctaves(o, l, stack);
      if r.Done? {
        SetPersistence(p);
      }
    }

    /** setOctaves(octaves, lacunarity, persistence) as the later revision has it: rebuild, then the persistence. */
    method SetOctavesAndPersistenceRebuilding(o: nat, l: nat, p: real)
      requires Valid() && l >= 1
      modifies this
      ensures Valid() && octaves == o && lacunarity == l && persistence == p && |octaveDataSets| == o
    {
      Rebuild(o, l);
      SetPersistence(p);
    }

    /**
     * The constructor as the later revision has it: its setOctaves(1, 1)
     * always rebuilds, so the engine starts with its first octave.
     */
    constructor WithTable(direction: real -> Point, stream: Stream, clockSeed: int, psize: nat, possibilities: seq<seq<real>>,
                          m: Option<IndexOverride>, o: Option<IndexOverride>, chunk: ChunkFunction)
      requires Bounded(stream) && PipelineFits(chunk, possibilities)
      requires IndexInRange(m, |possibilities|) && IndexInRange(o, |possibilities|)
      ensures Valid() && fresh(random)
      ensures this.direction == direction && random.stream == stream && random.seed == clockSeed && this.psize == psize
      ensures this.possibilities == possibilities && mainPosIndex == m && octPosIndex == o && this.chunk == chunk
      ensures octaves == 1 && lacunarity == 1 && persistence == 0.5
      ensures |octaveDataSets| == 1 && octaveDataSets[0].psize == psize
    {
      this.direction := direction;
      this.psize := psize;
      random := new Random(stream, clockSeed);
      this.possibilities := possibilities;
      runPossibilities := |possibilities| > 1;
      mainPosIndex := m;
      octPosIndex := o;
      this.chunk := chunk;
      octaves := 1;
      lacunarity := 1;
      persistence := 0.5;
      octaveDataSets := [];
      new;
      Rebuild(1, 1);
    }

    /**
     * perlinGenMainInfluenceVectorPosibilityIndex and
     * perlinGenOctInfluenceVectorPosibilityIndex, which the engine implements
     * alike: the spiralIndex-th random int below the number of possibilities.
     * Without possibilities the bound is 0, which nextInt refuses.
     */
    method DefaultPossibilityIndex(seed: int, mask: int, spiralIndex: int, cx: int, cy: int) returns (r: Result<int>)
      requires Valid()
      modifies random
      ensures |possibilities| >= 1 ==> r == Ok(Util.IntAtIndex(random.stream, spiralIndex, seed, |possibilities|))
      ensures |possibilities| >= 1 && spiralIndex >= 0 ==> 0 <= r.value < |possibilities|
      ensures |possibilities| == 0 ==> r == if spiralIndex < 0 then Ok(-1) else Err(IllegalArgument)
    {
      r := Util.GetRandomIntAtIndex(spiralIndex, random, seed, |possibilities|);
    }

    /** The possibility genInfluenceVectors picks with several possibilities: the override's, or the default for -1. */
    method ChoosePossibility(seed: int, mask: int, spiralIndex: int, cx: int, cy: int, isOct: bool) returns (choice: int)
      requires Valid() && Drawable() && runPossibilities
      modifies random
      ensures choice == PossibilityIndex(Config(), seed, mask, spiralIndex, cx, cy, isOct)
    {
      var o := if isOct then octPosIndex else mainPosIndex;
      if o.Some? {
        choice := o.value(seed, mask, spiralIndex, cx, cy);
      } else {
        var d := DefaultPossibilityIndex(seed, mask, spiralIndex, cx, cy);
        choice := d.value;
      }
      if choice == -1 {
        var d := DefaultPossibilityIndex(seed, mask, spiralIndex, cx, cy);
        choice := d.value;
      }
    }

    /**
     * genInfluenceVectors: per corner, an angle drawn at its spiral index
     * below 2 pi and a possibility, scaled by the angle's cosine and sine.
     */
    method GenInfluenceVectors(seed: int, cx: int, cy: int, isOct: bool) returns (vecs: array<Vector2v<seq<real>>>)
      requires Valid() && Drawable()
      modifies random
      ensures fresh(vecs) && vecs[..] == InfluencePairs(Config(), seed, cx, cy, isOct)
    {
      var index := GenInfluenceVectorIndices(cx, cy);
      vecs := new Vector2v<seq<real>>[G.MASKS];
      for i := 0 to G.MASKS
        invariant index[..] == CornerIndices(cx, cy)
        invariant forall k | 0 <= k < i :: vecs[k] == InfluencePair(Config(), seed, cx, cy, isOct, k)
      {
        vecs[i] := CornerVector(seed, cx, cy, isOct, index[i], i);
      }
    }

    /** One iteration of genInfluenceVectors: the angle and the chosen possibility of corner `mask`, combined. */
    method CornerVector(seed: int, cx: int, cy: int, isOct: bool, spiralIndex: int, mask: nat) returns (v: Vector2v<seq<real>>)
      requires Valid() && Drawable() && mask < G.MASKS && spiralIndex == CornerIndices(cx, cy)[mask]
      modifies random
      ensures v == InfluencePair(Config(), seed, cx, cy, isOct, mask)
    {
      var angle := Util.GetRandomFloatAtIndex(spiralIndex, random, seed, TWO_PI);
      var choice := 0;
      if runPossibilities {
        choice := ChoosePossibility(seed, mask, spiralIndex, cx, cy, isOct);
      }
      PossibilityIndexInRange(Config(), seed, mask, spiralIndex, cx, cy, isOct);
      var p := Vector2f.FromPolar(1.0, angle.value, direction);
      v := Vector2v(Times(possibilities[choice], p.x), Times(possibilities[choice], p.y));
    }

    /** The perlinAChunk call: the chunk pipeline's pixel for every cell of the octave's grid. */
    static method ChunkPixels(chunk: ChunkFunction, invecs: array<Vector2v<seq<real>>>, oct: G.PerlinOctave)
      returns (pixs: array2<seq<real>>)
      ensures fresh(pixs) && pixs.Length0 == oct.psize && pixs.Length1 == oct.psize
      ensures forall x, y | 0 <= x < oct.psize && 0 <= y < oct.psize :: pixs[x, y] == chunk(invecs[..], oct.psize, x, y)
    {
      var ps := oct.psize;
      pixs := new seq<real>[ps, ps];
      for x := 0 to ps
        invariant forall X, Y | 0 <= X < x && 0 <= Y < ps :: pixs[X, Y] == chunk(invecs[..], ps, X, Y)
      {
        for y := 0 to ps
          invariant forall X, Y | 0 <= X < ps && 0 <= Y < ps && (X < x || (X == x && Y < y)) ::
                      pixs[X, Y] == chunk(invecs[..], ps, X, Y)
        {
          pixs[x, y] := chunk(invecs[..], ps, x, y);
        }
      }
    }

    /** Sub-octave octn of a chunk can be generated into `values`, the size of level octn - 1. */
    ghost predicate Ready(octn: nat, values: array2<seq<real>>)
      reads this, Footprint()
    {
      && Valid() && Drawable() && Tiles(Config())
      && 1 <= octn < octaves
      && values.Length0 == Config().sizes[octn - 1] && values.Length1 == Config().sizes[octn - 1]
    }

    /**
     * perlinOctave(seed, cx, cy, octn): the lacunarity x lacunarity children
     * of chunk (cx, cy) on octave octn, each drawn and recursed on, laid out
     * block by block.
     */
    method PerlinOctave(seed: int, cx: int, cy: int, octn: nat) returns (values: array2<seq<real>>)
      requires Valid() && Drawable() && Tiles(Config()) && 1 <= octn < octaves
      modifies random
      decreases octaves - octn, 1, 1, 0
      ensures fresh(values)
      ensures values.Length0 == Config().sizes[octn - 1] && values.Length1 == Config().sizes[octn - 1]
      ensures forall X, Y | 0 <= X < values.Length0 && 0 <= Y < values.Length1 ::
                values[X, Y] == SubCell(Config(), seed, cx, cy, octn, X, Y)
    {
      var ps := octaveDataSets[octn].psize;
      ghost var env := Config();
      assert ps == env.sizes[octn];
      assert Fits(env, octn);
      values := new seq<real>[ps * lacunarity, ps * lacunarity];
      OctaveRows(seed, cx, cy, octn, values);
    }

    /** The loop of perlinOctave over the rows of children. */
    method OctaveRows(seed: int, cx: int, cy: int, octn: nat, values: array2<seq<real>>)
      requires Ready(octn, values)
      modifies random, values
      decreases octaves - octn, 1, 0, 1
      ensures forall X, Y | 0 <= X < values.Length0 && 0 <= Y < values.Length1 ::
                values[X, Y] == SubCell(Config(), seed, cx, cy, octn, X, Y)
    {
      var ps := octaveDataSets[octn].psize;
      var l := lacunarity;
      ghost var env := Config();
      assert ps == env.sizes[octn];
      assert Fits(env, octn);
      forall X | 0 <= X < values.Length0
        ensures !Tiling.RowDone(X, 0, ps)
      {
        Tiling.NoRowDone(X, ps);
      }
      for i := 0 to l
        invariant forall X, Y | 0 <= X < values.Length0 && 0 <= Y < values.Length1 && Tiling.RowDone(X, i, ps) ::
                    values[X, Y] == SubCell(env, seed, cx, cy, octn, X, Y)
      {
        OctaveRow(seed, cx, cy, octn, i, values);
      }
      forall X | 0 <= X < values.Length0
        ensures Tiling.RowDone(X, l, ps)
      {
        Tiling.BlockDoneGrid(X, 0, ps, l);
      }
    }

    /** One i iteration of perlinOctave: the row of children (i, 0) .. (i, l - 1). */
    method OctaveRow(seed: int, cx: int, cy: int, octn: nat, i: nat, values: array2<seq<real>>)
      requires Ready(octn, values) && i < lacunarity
      modifies random, values
      decreases octaves - octn, 1, 0, 0
      ensures forall X, Y | 0 <= X < values.Length0 && 0 <= Y < values.Length1 ::
                values[X, Y] == if Tiling.RowDone(X, i + 1, octaveDataSets[octn].psize) && !Tiling.RowDone(X, i, octaveDataSets[octn].psize)
                                then SubCell(Config(), seed, cx, cy, octn, X, Y) else old(values[X, Y])
    {
      ghost var env := Config();
      var ps := octaveDataSets[octn].psize;
      var l := lacunarity;
      assert ps == env.sizes[octn];
      assert Fits(env, octn);
      forall X, Y | 0 <= X < values.Length0 && 0 <= Y < values.Length1
        ensures !Tiling.BlockDone(X, Y, i, 0, ps) || Tiling.RowDone(X, i, ps)
      {
        Tiling.NoRowDone(Y, ps);
      }
      for j := 0 to l
        invariant forall X, Y | 0 <= X < values.Length0 && 0 <= Y < values.Length1 ::
                    values[X, Y] == if Tiling.BlockDone(X, Y, i, j, ps) && !Tiling.RowDone(X, i, ps)
                                    then SubCell(env, seed, cx, cy, octn, X, Y) else old(values[X, Y])
      {
        OctaveBlock(seed, cx, cy, octn, i, j, values);
      }
      forall X, Y | 0 <= X < values.Length0 && 0 <= Y < values.Length1
        ensures Tiling.BlockDone(X, Y, i, l, ps) && !Tiling.RowDone(X, i, ps) <==> Tiling.RowDone(X, i + 1, ps) && !Tiling.RowDone(X, i, ps)
      {
        Tiling.BlockDoneRow(X, Y, i, ps, l);
      }
    }

    /** One (i, j) iteration of perlinOctave: child (i, j)'s pixels, written into its block. */
    method OctaveBlock(seed: int, cx: int, cy: int, octn: nat, i: nat, j: nat, values: array2<seq<real>>)
      requires Ready(octn, values) && i < lacunarity && j < lacunarity
      modifies random, values
      decreases octaves - octn, 0, 0, 0
      ensures forall X, Y | 0 <= X < values.Length0 && 0 <= Y < values.Length1 ::
                values[X, Y] == if Tiling.InBlock(X, Y, i, j, octaveDataSets[octn].psize)
                                then SubCell(Config(), seed, cx, cy, octn, X, Y) else old(values[X, Y])
    {
      var oct := octaveDataSets[octn];
      var ps := oct.psize;
      ghost var env := Config();
      assert Fits(env, octn);
      assert ps == env.sizes[octn];
      var ocx := ChildCoordinate(cx, i, lacunarity);
      var ocy := ChildCoordinate(cy, j, lacunarity);
      var invecs := GenInfluenceVectors(seed, ocx, ocy, true);
      var pixs := ChunkPixels(chunk, invecs, oct);
      var hasSub := octn < octaves - 1;
      var subOctPixs := pixs;
      if hasSub {
        subOctPixs := PerlinOctave(seed + 1, ocx, ocy, octn + 1);
      }
      WriteBlock(persistence, values, i, j, ps, lacunarity, pixs, hasSub, subOctPixs, env, seed, cx, cy, octn);
    }

    /** The pixel of chunk (cx, cy) on octave `level`: its own noise plus, below it, the persistence times its sub-octave. */
    static method BlockPixel(persistence: real, pixs: array2<seq<real>>, hasSub: bool, subOctPixs: array2<seq<real>>, x: nat, y: nat,
                             ghost env: Env, ghost seed: int, ghost cx: int, ghost cy: int, ghost level: nat) returns (p: seq<real>)
      requires WellFormed(env) && Tiles(env) && persistence == env.persistence
      requires level < env.octaves && hasSub == (level + 1 < env.octaves)
      requires x < env.sizes[level] && y < env.sizes[level]
      requires x < pixs.Length0 && y < pixs.Length1
      requires pixs[x, y] == env.chunk(InfluencePairs(env, seed, cx, cy, level > 0), env.sizes[level], x, y)
      requires hasSub ==> x < subOctPixs.Length0 && y < subOctPixs.Length1 && subOctPixs[x, y] == SubCell(env, seed + 1, cx, cy, level + 1, x, y)
      ensures p == LevelCell(env, seed, cx, cy, level, x, y)
    {
      p := pixs[x, y];
      if hasSub {
        p := Plus(p, Times(subOctPixs[x, y], persistence));
      }
    }

    /** The write loop of one perlinOctave iteration: pixel (x, y) of child (i, j) goes to cell (i * ps + x, j * ps + y). */
    static method WriteBlock(persistence: real, values: array2<seq<real>>, i: nat, j: nat, ps: nat, l: nat,
                             pixs: array2<seq<real>>, hasSub: bool, subOctPixs: array2<seq<real>>,
                             ghost env: Env, ghost seed: int, ghost cx: int, ghost cy: int, ghost octn: nat)
      requires WellFormed(env) && Tiles(env) && persistence == env.persistence && l == env.lacunarity
      requires 1 <= octn < env.octaves && ps == env.sizes[octn]
      requires i < l && j < l
      requires values.Length0 == ps * l && values.Length1 == ps * l && values.Length0 == env.sizes[octn - 1]
      requires values != pixs && values != subOctPixs
      requires ps <= pixs.Length0 && ps <= pixs.Length1
      requires forall x, y | 0 <= x < ps && 0 <= y < ps ::
                 pixs[x, y] == env.chunk(InfluencePairs(env, seed, ChildCoordinate(cx, i, l), ChildCoordinate(cy, j, l), true), ps, x, y)
      requires hasSub == (octn + 1 < env.octaves)
      requires hasSub ==> ps <= subOctPixs.Length0 && ps <= subOctPixs.Length1
      requires hasSub ==> forall x, y | 0 <= x < ps && 0 <= y < ps ::
                 subOctPixs[x, y] == SubCell(env, seed + 1, ChildCoordinate(cx, i, l), ChildCoordinate(cy, j, l), octn + 1, x, y)
      modifies values
      ensures forall X, Y | 0 <= X < values.Length0 && 0 <= Y < values.Length1 ::
                values[X, Y] == if Tiling.InBlock(X, Y, i, j, ps) then SubCell(env, seed, cx, cy, octn, X, Y) else old(values[X, Y])
    {
      ghost var ccx, ccy := ChildCoordinate(cx, i, l), ChildCoordinate(cy, j, l);
      for x := 0 to ps
        invariant forall X, Y | 0 <= X < values.Length0 && 0 <= Y < values.Length1 ::
                    values[X, Y] == if Tiling.CellDone(X, Y, i, j, x, 0, ps) then SubCell(env, seed, cx, cy, octn, X, Y) else old(values[X, Y])
      {
        for y := 0 to ps
          invariant forall X, Y | 0 <= X < values.Length0 && 0 <= Y < values.Length1 ::
                      values[X, Y] == if Tiling.CellDone(X, Y, i, j, x, y, ps) then SubCell(env, seed, cx, cy, octn, X, Y) else old(values[X, Y])
        {
          var p := BlockPixel(persistence, pixs, hasSub, subOctPixs, x, y, env, seed, ccx, ccy, octn);
          var X0 := Tiling.Place(i, x, ps, l, values.Length0);
          var Y0 := Tiling.Place(j, y, ps, l, values.Length1);
          ChildPixel(env, seed, cx, cy, octn, X0, Y0, i, j, x, y);
          forall X, Y
            ensures Tiling.CellDone(X, Y, i, j, x, y + 1, ps) <==> Tiling.CellDone(X, Y, i, j, x, y, ps) || (X == X0 && Y == Y0)
          {
            Tiling.CellDoneStep(X, Y, i, j, x, y, ps, X0, Y0);
          }
          values[X0, Y0] := p;
        }
        forall X, Y
          ensures Tiling.CellDone(X, Y, i, j, x, ps, ps) <==> Tiling.CellDone(X, Y, i, j, x + 1, 0, ps)
        {
          Tiling.CellDoneRow(X, Y, i, j, x, ps);
        }
      }
      forall X, Y
        ensures Tiling.CellDone(X, Y, i, j, ps, 0, ps) <==> Tiling.InBlock(X, Y, i, j, ps)
      {
        if ps > 0 {
          Tiling.CellDoneBlock(X, Y, i, j, ps);
        }
      }
    }

    /**
     * perlin(seed, cx, cy): the main chunk's values with the largest and
     * smallest component among them. With the octave table empty (as the
     * constructor leaves it), no possibility for index 0 to name, or sizes
     * that do not tile, the source runs into an array index out of bounds;
     * with possibilities of different sizes, into the size check of add.
     * The model reports either before drawing.
     */
    method Perlin(seed: int, cx: int, cy: int) returns (r: Result<PerlinReturn>)
      requires Valid()
      modifies random
      ensures r.Err? <==> octaveDataSets == [] || !Drawable() || !Tiles(Config())
      ensures r.Err? ==> r.error == if octaveDataSets == [] || possibilities == [] || !Tiles(Config())
                                    then IndexOutOfBounds else IllegalArgument
      ensures r.Ok? ==> fresh(r.value.values) && r.value.values.Length0 == psize && r.value.values.Length1 == psize
      ensures r.Ok? ==> forall x, y | 0 <= x < psize && 0 <= y < psize ::
                r.value.values[x, y] == LevelCell(Config(), seed, cx, cy, 0, x, y)
      ensures r.Ok? ==> Extremes(Config(), seed, cx, cy, r.value.max, r.value.min)
    {
      if octaveDataSets == [] || possibilities == [] || !Tiles(Config()) {
        return Err(IndexOutOfBounds);
      }
      if !OneDimension(possibilities) {
        return Err(IllegalArgument);
      }
      var values, max, min := Generate(seed, cx, cy);
      r := Ok(PerlinReturn(values, max, min));
    }

    /** What perlin computes once the first octave exists and the sizes tile. */
    method Generate(seed: int, cx: int, cy: int) returns (values: array2<seq<real>>, max: Extreme, min: Extreme)
      requires Valid() && Drawable() && octaveDataSets != [] && Tiles(Config())
      modifies random
      ensures fresh(values) && values.Length0 == psize && values.Length1 == psize
      ensures forall x, y | 0 <= x < psize && 0 <= y < psize :: values[x, y] == LevelCell(Config(), seed, cx, cy, 0, x, y)
      ensures Extremes(Config(), seed, cx, cy, max, min)
    {
      var oct := octaveDataSets[0];
      ghost var env := Config();
      assert oct.psize == env.sizes[0] == psize;
      var pixs, hasSub, subOctPixs := DrawMain(seed, cx, cy);
      values := new seq<real>[oct.psize, oct.psize];
      ghost var done;
      max, min, done := WriteMain(persistence, values, oct.psize, pixs, hasSub, subOctPixs, env, seed, cx, cy);
      MainExtremes(env, seed, cx, cy, done);
    }

    /** The drawing half of perlin: the main chunk's own pixels and, below it, its sub-octave's. */
    method DrawMain(seed: int, cx: int, cy: int) returns (pixs: array2<seq<real>>, hasSub: bool, subOctPixs: array2<seq<real>>)
      requires Valid() && Drawable() && octaveDataSets != [] && Tiles(Config())
      modifies random
      ensures fresh(pixs) && fresh(subOctPixs) && hasSub == (octaves > 1)
      ensures pixs.Length0 == psize && pixs.Length1 == psize
      ensures forall x, y | 0 <= x < psize && 0 <= y < psize ::
                pixs[x, y] == chunk(InfluencePairs(Config(), seed, cx, cy, false), psize, x, y)
      ensures hasSub ==> subOctPixs.Length0 == psize && subOctPixs.Length1 == psize
      ensures hasSub ==> forall x, y | 0 <= x < psize && 0 <= y < psize ::
                subOctPixs[x, y] == SubCell(Config(), seed + 1, cx, cy, 1, x, y)
    {
      var oct := octaveDataSets[0];
      ghost var env := Config();
      assert oct.psize == env.sizes[0] == psize;
      var invecs := GenInfluenceVectors(seed, cx, cy, false);
      pixs := ChunkPixels(chunk, invecs, oct);
      hasSub := octaves > 1;
      subOctPixs := pixs;
      if hasSub {
        subOctPixs := PerlinOctave(seed + 1, cx, cy, 1);
      }
    }

    /** The write loop of perlin: every pixel goes to its cell and its components into the running max and min. */
    static method WriteMain(persistence: real, values: array2<seq<real>>, ps: nat,
                            pixs: array2<seq<real>>, hasSub: bool, subOctPixs: array2<seq<real>>,
                            ghost env: Env, ghost seed: int, ghost cx: int, ghost cy: int)
      returns (max: Extreme, min: Extreme, ghost done: seq<seq<real>>)
      requires WellFormed(env) && Tiles(env) && persistence == env.persistence
      requires 0 < env.octaves && ps == env.sizes[0] && hasSub == (1 < env.octaves)
      requires values.Length0 == ps && values.Length1 == ps && values != pixs && values != subOctPixs
      requires ps <= pixs.Length0 && ps <= pixs.Length1
      requires forall x, y | 0 <= x < ps && 0 <= y < ps :: pixs[x, y] == env.chunk(InfluencePairs(env, seed, cx, cy, false), ps, x, y)
      requires hasSub ==> ps <= subOctPixs.Length0 && ps <= subOctPixs.Length1
      requires hasSub ==> forall x, y | 0 <= x < ps && 0 <= y < ps :: subOctPixs[x, y] == SubCell(env, seed + 1, cx, cy, 1, x, y)
      modifies values
      ensures forall x, y | 0 <= x < ps && 0 <= y < ps :: values[x, y] == LevelCell(env, seed, cx, cy, 0, x, y)
      ensures |done| == ps * ps && RowMajor(env, seed, cx, cy, done)
      ensures max == MaxOf(NegativeInfinity, Flatten(done)) && min == MinOf(PositiveInfinity, Flatten(done))
    {
      max, min, done := NegativeInfinity, PositiveInfinity, [];
      for x := 0 to ps
        invariant |done| == x * ps
        invariant forall X, Y | 0 <= X < x && 0 <= Y < ps :: values[X, Y] == LevelCell(env, seed, cx, cy, 0, X, Y)
        invariant RowMajor(env, seed, cx, cy, done)
        invariant max == MaxOf(NegativeInfinity, Flatten(done)) && min == MinOf(PositiveInfinity, Flatten(done))
      {
        max, min, done := WriteMainRow(persistence, values, ps, pixs, hasSub, subOctPixs, x, max, min, done, env, seed, cx, cy);
      }
    }

    /** One x iteration of perlin's write loop: row x of the chunk. */
    static method WriteMainRow(persistence: real, values: array2<seq<real>>, ps: nat,
                               pixs: array2<seq<real>>, hasSub: bool, subOctPixs: array2<seq<real>>, x: nat,
                               max0: Extreme, min0: Extreme, ghost before: seq<seq<real>>,
                               ghost env: Env, ghost seed: int, ghost cx: int, ghost cy: int)
      returns (max: Extreme, min: Extreme, ghost done: seq<seq<real>>)
      requires WellFormed(env) && Tiles(env) && persistence == env.persistence
      requires 0 < env.octaves && ps == env.sizes[0] && hasSub == (1 < env.octaves)
      requires values.Length0 == ps && values.Length1 == ps && values != pixs && values != subOctPixs
      requires ps <= pixs.Length0 && ps <= pixs.Length1
      requires forall x, y | 0 <= x < ps && 0 <= y < ps :: pixs[x, y] == env.chunk(InfluencePairs(env, seed, cx, cy, false), ps, x, y)
      requires hasSub ==> ps <= subOctPixs.Length0 && ps <= subOctPixs.Length1
      requires hasSub ==> forall x, y | 0 <= x < ps && 0 <= y < ps :: subOctPixs[x, y] == SubCell(env, seed + 1, cx, cy, 1, x, y)
      requires x < ps && |before| == x * ps && RowMajor(env, seed, cx, cy, before)
      requires max0 == MaxOf(NegativeInfinity, Flatten(before)) && min0 == MinOf(PositiveInfinity, Flatten(before))
      modifies values
      ensures forall X, Y | 0 <= X < ps && 0 <= Y < ps ::
                values[X, Y] == if X == x then LevelCell(env, seed, cx, cy, 0, X, Y) else old(values[X, Y])
      ensures |done| == (x + 1) * ps && RowMajor(env, seed, cx, cy, done)
      ensures max == MaxOf(NegativeInfinity, Flatten(done)) && min == MinOf(PositiveInfinity, Flatten(done))
    {
      max, min, done := max0, min0, before;
      for y := 0 to ps
        invariant |done| == x * ps + y
        invariant forall X, Y | 0 <= X < ps && 0 <= Y < ps ::
                    values[X, Y] == if X == x && Y < y then LevelCell(env, seed, cx, cy, 0, X, Y) else old(values[X, Y])
        invariant RowMajor(env, seed, cx, cy, done)
        invariant max == MaxOf(NegativeInfinity, Flatten(done)) && min == MinOf(PositiveInfinity, Flatten(done))
      {
        max, min, done := WriteMainCell(persistence, values, ps, pixs, hasSub, subOctPixs, x, y, max, min, done, env, seed, cx, cy);
      }
    }

    /** One y iteration of perlin's write loop: cell (x, y), then its components into the running extremes. */
    static method WriteMainCell(persistence: real, values: array2<seq<real>>, ps: nat,
                                pixs: array2<seq<real>>, hasSub: bool, subOctPixs: array2<seq<real>>, x: nat, y: nat,
                                max0: Extreme, min0: Extreme, ghost before: seq<seq<real>>,
                                ghost env: Env, ghost seed: int, ghost cx: int, ghost cy: int)
      returns (max: Extreme, min: Extreme, ghost done: seq<seq<real>>)
      requires WellFormed(env) && Tiles(env) && persistence == env.persistence
      requires 0 < env.octaves && ps == env.sizes[0] && hasSub == (1 < env.octaves)
      requires values.Length0 == ps && values.Length1 == ps && values != pixs && values != subOctPixs
      requires x < ps && y < ps && x < pixs.Length0 && y < pixs.Length1
      requires pixs[x, y] == env.chunk(InfluencePairs(env, seed, cx, cy, false), ps, x, y)
      requires hasSub ==> x < subOctPixs.Length0 && y < subOctPixs.Length1 && subOctPixs[x, y] == SubCell(env, seed + 1, cx, cy, 1, x, y)
      requires |before| == x * ps + y && RowMajor(env, seed, cx, cy, before)
      requires max0 == MaxOf(NegativeInfinity, Flatten(before)) && min0 == MinOf(PositiveInfinity, Flatten(before))
      modifies values
      ensures forall X, Y | 0 <= X < ps && 0 <= Y < ps ::
                values[X, Y] == if X == x && Y == y then LevelCell(env, seed, cx, cy, 0, X, Y) else old(values[X, Y])
      ensures done == before + [LevelCell(env, seed, cx, cy, 0, x, y)] && RowMajor(env, seed, cx, cy, done)
      ensures max == MaxOf(NegativeInfinity, Flatten(done)) && min == MinOf(PositiveInfinity, Flatten(done))
    {
      var p := BlockPixel(persistence, pixs, hasSub, subOctPixs, x, y, env, seed, cx, cy, 0);
      values[x, y] := p;
      RowMajorAppend(env, seed, cx, cy, before, x, y);
      max, min := Track(max0, min0, p);
      TrackCell(before, p);
      done := before + [p];
    }

    /** The component loop of perlin: Math.max and Math.min of the running extremes with each component of p in turn. */
    static method Track(max0: Extreme, min0: Extreme, p: seq<real>) returns (max: Extreme, min: Extreme)
      ensures max == MaxOf(max0, p) && min == MinOf(min0, p)
    {
      max, min := max0, min0;
      for i := 0 to |p|
        invariant max == MaxOf(max0, p[..i]) && min == MinOf(min0, p[..i])
      {
        assert p[..i + 1] == p[..i] + [p[i]];
        ExtremesAppend(max0, min0, p[..i], [p[i]]);
        max, min := Max(max, p[i]), Min(min, p[i]);
      }
      assert p[..|p|] == p;
    }
  }

  /* ---------------------------------------------------------------------- */
  /* A fresh engine                                                         */
  /* ---------------------------------------------------------------------- */

  /** A freshly constructed engine cannot generate anything: perlin indexes its empty octave table. */
  method FreshEngineCannotGenerate(direction: real -> Point, stream: Stream, clockSeed: int, psize: nat,
                                   possibilities: seq<seq<real>>, m: Option<IndexOverride>, o: Option<IndexOverride>,
                                   chunk: ChunkFunction, seed: int, cx: int, cy: int) returns (r: Result<PerlinReturn>)
    requires Bounded(stream) && PipelineFits(chunk, possibilities)
    requires IndexInRange(m, |possibilities|) && IndexInRange(o, |possibilities|)
    ensures r == Err(IndexOutOfBounds)
  {
    var engine := new PerlinNoise(direction, stream, clockSeed, psize, possibilities, m, o, chunk);
    r := engine.Perlin(seed, cx, cy);
  }

  /** With the later revision's constructor, a fresh engine generates a psize x psize chunk. */
  method TabledEngineGenerates(direction: real -> Point, stream: Stream, clockSeed: int, psize: nat,
                               possibilities: seq<seq<real>>, m: Option<IndexOverride>, o: Option<IndexOverride>,
                               chunk: ChunkFunction, seed: int, cx: int, cy: int) returns (r: Result<PerlinReturn>)
    requires Bounded(stream) && |possibilities| >= 1 && OneDimension(possibilities)
    requires PipelineFits(chunk, possibilities)
    requires IndexInRange(m, |possibilities|) && IndexInRange(o, |possibilities|)
    ensures r.Ok? && r.value.values.Length0 == psize && r.value.values.Length1 == psize
    ensures psize > 0 && |possibilities[0]| > 0 ==> r.value.max.Finite? && r.value.min.Finite?
  {
    var engine := new PerlinNoise.WithTable(direction, stream, clockSeed, psize, possibilities, m, o, chunk);
    r := engine.Perlin(seed, cx, cy);
  }

  /**
   * On a fresh engine, setOctaves(o, 1) for any o other than 1 keeps calling
   * itself, however deep the stack is.
   */
  method FreshEngineSetOctavesOverflows(direction: real -> Point, stream: Stream, clockSeed: int, psize: nat,
                                        possibilities: seq<seq<real>>, m: Option<IndexOverride>, o: Option<IndexOverride>,
                                        chunk: ChunkFunction, octaves: nat, stack: nat) returns (r: Outcome)
    requires Bounded(stream) && PipelineFits(chunk, possibilities)
    requires IndexInRange(m, |possibilities|) && IndexInRange(o, |possibilities|)
    requires octaves != 1
    ensures r == Fail(StackOverflow)
  {
    var engine := new PerlinNoise(direction, stream, clockSeed, psize, possibilities, m, o, chunk);
    r := engine.SetOctaves(octaves, 1, stack);
  }

  /**
   * On a fresh engine, setLacunarity(l) for any l other than 1 is
   * setOctaves(1, l), which keeps calling itself however deep the stack is.
   */
  method FreshEngineSetLacunarityOverflows(direction: real -> Point, stream: Stream, clockSeed: int, psize: nat,
                                           possibilities: seq<seq<real>>, m: Option<IndexOverride>, o: Option<IndexOverride>,
                                           chunk: ChunkFunction, l: nat, stack: nat) returns (r: Outcome)
    requires Bounded(stream) && PipelineFits(chunk, possibilities)
    requires IndexInRange(m, |possibilities|) && IndexInRange(o, |possibilities|)
    requires l > 1
    ensures r == Fail(StackOverflow)
  {
    var engine := new PerlinNoise(direction, stream, clockSeed, psize, possibilities, m, o, chunk);
    r := engine.SetLacunarity(l, stack);
  }

  /** With the later revision's setOctaves, the same call on a fresh engine sets up the octaves asked for. */
  method FreshEngineRebuilds(direction: real -> Point, stream: Stream, clockSeed: int, psize: nat,
                             possibilities: seq<seq<real>>, m: Option<IndexOverride>, o: Option<IndexOverride>,
                             chunk: ChunkFunction, octaves: nat) returns (count: nat, sizes: seq<nat>)
    requires Bounded(stream) && PipelineFits(chunk, possibilities)
    requires IndexInRange(m, |possibilities|) && IndexInRange(o, |possibilities|)
    ensures count == octaves && |sizes| == octaves
    ensures forall k | 0 <= k < octaves :: sizes[k] == psize
  {
    var engine := new PerlinNoise(direction, stream, clockSeed, psize, possibilities, m, o, chunk);
    engine.Rebuild(octaves, 1);
    count := engine.octaves;
    sizes := seq(|engine.octaveDataSets|, k requires 0 <= k < |engine.octaveDataSets| reads engine => engine.octaveDataSets[k].psize);
    forall k | 0 <= k < octaves
      ensures sizes[k] == psize
    {
      UnitLacunarity(psize, k);
    }
  }
}
