/**
 * PerlinNoise<E> of the generic engine: a table of octaves whose pixel size
 * shrinks by the lacunarity per level, and the recursive generation of one
 * chunk. Each octave splits its chunk into lacunarity x lacunarity child
 * chunks at absolute coordinates parent * lacunarity + (i, j), drawn with the
 * seed plus one per level, and adds them in scaled by the persistence.
 */
module GenericPerlinNoise {
  import opened Wrappers
  import opened Rng
  import opened InnerProductSpace
  import opened Vector2D
  import opened PairVector
  import opened OctaveChunkData
  import opened GenericPerlinification
  import G = OctaveGeometry
  import Util
  import Tiling
  import opened ChunkGrid

  /* ---------------------------------------------------------------------- */
  /* What one chunk computes                                                */
  /* ---------------------------------------------------------------------- */

  /**
   * Everything a generation reads from the engine: the space and the angle
   * direction (cos, sin) it is given, the stream of its generator, its
   * possibilities, its influence generator (None: the engine itself), and its
   * octave configuration with each level's pixel size.
   */
  datatype Env<!E> = Env(
    sp: Space<E>, direction: real -> Point, stream: Stream,
    possibilities: seq<E>, generator: Option<Generator<E>>,
    octaves: nat, lacunarity: nat, persistence: real, sizes: seq<nat>)

  ghost predicate WellFormed<E>(env: Env<E>) {
    && Bounded(env.stream)
    && |env.sizes| == env.octaves
    && env.lacunarity >= 1
  }

  /** The documented assertion: each level's size is exactly the lacunarity times the next one's. */
  predicate Tiles<E>(env: Env<E>) {
    forall n | 1 <= n < |env.sizes| :: Fits(env, n)
  }

  /** Level n - 1 is exactly lacunarity blocks of level n wide. */
  predicate Fits<E>(env: Env<E>, n: nat)
    requires 1 <= n < |env.sizes|
  {
    env.sizes[n] * env.lacunarity == env.sizes[n - 1]
  }

  /** The possibility the default draws: the spiralIndex-th random int below their count, or 0 when only one exists. */
  function DefaultIndex<E>(env: Env<E>, seed: int, spiralIndex: int): int
    requires WellFormed(env)
  {
    if |env.possibilities| > 1 then Util.IntAtIndex(env.stream, spiralIndex, seed, |env.possibilities|) else 0
  }

  /** For every real corner (a non-negative spiral index) the default picks an existing possibility. */
  lemma DefaultIndexInRange<E>(env: Env<E>, seed: int, spiralIndex: int)
    requires WellFormed(env) && spiralIndex >= 0 && |env.possibilities| >= 1
    ensures 0 <= DefaultIndex(env, seed, spiralIndex) < |env.possibilities|
  {
  }

  function DefaultInfluence<E>(env: Env<E>, seed: int, spiralIndex: int): E
    requires WellFormed(env) && spiralIndex >= 0 && |env.possibilities| >= 1
  {
    env.possibilities[DefaultIndex(env, seed, spiralIndex)]
  }

  /** What the influence generator answers for corner `mask` of chunk c; None for null, and without a generator. */
  function Generated<E>(env: Env<E>, seed: int, c: ChunkData, spiralIndex: int, mask: nat): Option<E> {
    match env.generator
    case None => None
    case Some(g) => if c.IsMain() then g.main(seed, spiralIndex, c.cx, c.cy, mask) else g.oct(seed, spiralIndex, mask, c)
  }

  /** The influence for corner `mask` of chunk c: the generator's choice, or the default where it gives null. */
  function Influence<E>(env: Env<E>, seed: int, c: ChunkData, spiralIndex: int, mask: nat): E
    requires WellFormed(env) && spiralIndex >= 0
    requires |env.possibilities| >= 1 || Generated(env, seed, c, spiralIndex, mask).Some?
  {
    var o := Generated(env, seed, c, spiralIndex, mask);
    if o.Some? then o.value else DefaultInfluence(env, seed, spiralIndex)
  }

  /**
   * Corner `mask` of chunk c gets an influence: the generator answers for it,
   * or there is a possibility for the default to fall back on.
   */
  predicate Supplied<E>(env: Env<E>, seed: int, c: ChunkData, mask: nat)
    requires mask < G.MASKS
  {
    |env.possibilities| >= 1 || Generated(env, seed, c, CornerIndices(c.cx, c.cy)[mask], mask).Some?
  }

  /** All four corners of chunk c get an influence. */
  predicate CornersSupplied<E>(env: Env<E>, seed: int, c: ChunkData) {
    forall mask | 0 <= mask < G.MASKS :: Supplied(env, seed, c, mask)
  }

  /**
   * Every chunk drawn for chunk c, c itself and the sub-octave chunks below
   * it with the seed plus one per level, gets all four influences.
   */
  predicate Answered<E>(env: Env<E>, seed: int, c: ChunkData)
    requires 0 <= c.octLevel < env.octaves
    decreases env.octaves - c.octLevel, 1
  {
    && CornersSupplied(env, seed, c)
    && (c.octLevel + 1 < env.octaves ==> ChildrenAnswered(env, seed + 1, c))
  }

  /** Every child of `parent` on the next octave, and everything below it, gets its influences. */
  predicate ChildrenAnswered<E>(env: Env<E>, seed: int, parent: ChunkData)
    requires 0 <= parent.octLevel && parent.octLevel + 1 < env.octaves
    decreases env.octaves - parent.octLevel, 0
  {
    forall i, j | 0 <= i < env.lacunarity && 0 <= j < env.lacunarity :: Answered(env, seed, Child(parent, i, j, env.lacunarity))
  }

  /** Each child of a parent whose children are answered is answered, down to its own children. */
  lemma ChildAnswered<E>(env: Env<E>, seed: int, parent: ChunkData, i: int, j: int)
    requires 0 <= parent.octLevel && parent.octLevel + 1 < env.octaves && ChildrenAnswered(env, seed, parent)
    requires 0 <= i < env.lacunarity && 0 <= j < env.lacunarity
    ensures Answered(env, seed, Child(parent, i, j, env.lacunarity))
    ensures CornersSupplied(env, seed, Child(parent, i, j, env.lacunarity))
    ensures parent.octLevel + 2 < env.octaves ==> ChildrenAnswered(env, seed + 1, Child(parent, i, j, env.lacunarity))
  {
  }

  /** With a possibility to fall back on, every chunk gets its influences, whatever the generator answers. */
  lemma {:induction false} PossibilitiesAnswer<E>(env: Env<E>, seed: int, c: ChunkData)
    requires 0 <= c.octLevel < env.octaves && |env.possibilities| >= 1
    ensures Answered(env, seed, c)
    decreases env.octaves - c.octLevel
  {
    if c.octLevel + 1 < env.octaves {
      forall i, j | 0 <= i < env.lacunarity && 0 <= j < env.lacunarity
        ensures Answered(env, seed + 1, Child(c, i, j, env.lacunarity))
      {
        PossibilitiesAnswer(env, seed + 1, Child(c, i, j, env.lacunarity));
      }
    }
  }

  /** Without possibilities and without a generator, no chunk gets its influences. */
  lemma NothingToAnswer<E>(env: Env<E>, seed: int, c: ChunkData)
    requires 0 <= c.octLevel < env.octaves && |env.possibilities| == 0 && env.generator.None?
    ensures !Answered(env, seed, c)
  {
    assert !Supplied(env, seed, c, G.TL);
  }

  /** A generator keeping the interface's default for sub-octaves leaves them to the engine's default draw. */
  lemma DefaultOctFallsBack<E>(env: Env<E>, seed: int, c: ChunkData, spiralIndex: int, mask: nat)
    requires WellFormed(env) && spiralIndex >= 0 && !c.IsMain() && |env.possibilities| >= 1
    requires env.generator.Some? && env.generator.value.oct == DefaultOct()
    ensures Influence(env, seed, c, spiralIndex, mask) == DefaultInfluence(env, seed, spiralIndex)
  {
  }

  /** The influence pair of corner `mask`: the influence scaled by the cosine and the sine of the drawn angle. */
  function InfluencePair<E>(env: Env<E>, seed: int, c: ChunkData, mask: nat): Vector2v<E>
    requires WellFormed(env) && mask < G.MASKS && Supplied(env, seed, c, mask)
  {
    var spiralIndex := CornerIndices(c.cx, c.cy)[mask];
    var f := Util.FloatAtIndex(env.stream, spiralIndex, seed, TWO_PI);
    var p := PScale(env.direction(f), 1.0);
    var influence := Influence(env, seed, c, spiralIndex, mask);
    Vector2v(env.sp.scale(influence, p.x), env.sp.scale(influence, p.y))
  }

  function InfluencePairs<E>(env: Env<E>, seed: int, c: ChunkData): (r: seq<Vector2v<E>>)
    requires WellFormed(env) && CornersSupplied(env, seed, c)
    ensures |r| == G.MASKS
  {
    seq(G.MASKS, m requires 0 <= m < G.MASKS => InfluencePair(env, seed, c, m))
  }

  /** The main-level chunk (cx, cy). */
  function MainChunk(cx: int, cy: int): ChunkData {
    ChunkData(0, cx, cy, cx, cy, None)
  }

  /** Child (i, j) of a chunk split l x l ways. */
  function Child(parent: ChunkData, i: int, j: int, l: int): ChunkData {
    ChunkData(parent.octLevel + 1, i, j, parent.cx * l + i, parent.cy * l + j, Some(parent))
  }

  /** A child sits one level down from its parent and hangs below the same main chunk. */
  lemma ChildInTree(parent: ChunkData, i: int, j: int, l: int)
    requires parent.WellLeveled()
    ensures Child(parent, i, j, l).WellLeveled() && !Child(parent, i, j, l).IsMain()
    ensures Child(parent, i, j, l).GetMain() == parent.GetMain()
    ensures Child(parent, i, j, l).Ancestors() == [Child(parent, i, j, l)] + parent.Ancestors()
  {
  }

  /** Children of different positions in the same parent are different chunks with different corners. */
  lemma ChildrenApart(parent: ChunkData, i: int, j: int, i': int, j': int, l: int)
    requires (i, j) != (i', j') && 0 <= i < l && 0 <= j < l && 0 <= i' < l && 0 <= j' < l
    ensures CornerIndices(Child(parent, i, j, l).cx, Child(parent, i, j, l).cy)[G.TL]
         != CornerIndices(Child(parent, i', j', l).cx, Child(parent, i', j', l).cy)[G.TL]
  {
    CornerIndicesIdentify(parent.cx * l + i, parent.cy * l + j, parent.cx * l + i', parent.cy * l + j');
  }

  /**
   * Pixel (x, y) of chunk c on its octave: the chunk's own noise plus, while
   * octaves remain below it, the persistence times its sub-octave's pixel.
   */
  function LevelCell<E>(env: Env<E>, seed: int, c: ChunkData, x: nat, y: nat): E
    requires WellFormed(env) && Tiles(env)
    requires 0 <= c.octLevel < env.octaves && x < env.sizes[c.octLevel] && y < env.sizes[c.octLevel]
    requires Answered(env, seed, c)
    decreases env.octaves - c.octLevel, 1
  {
    var pix := ChunkCell(env.sp, InfluencePairs(env, seed, c), env.sizes[c.octLevel], x, y);
    if c.octLevel + 1 < env.octaves then env.sp.add(pix, env.sp.scale(SubCell(env, seed + 1, c, x, y), env.persistence))
    else pix
  }

  /** Cell (X, Y) of perlinOctave(seed, parent): pixel (X % ps, Y % ps) of child (X / ps, Y / ps). */
  function SubCell<E>(env: Env<E>, seed: int, parent: ChunkData, X: nat, Y: nat): E
    requires WellFormed(env) && Tiles(env)
    requires 0 <= parent.octLevel && parent.octLevel + 1 < env.octaves
    requires X < env.sizes[parent.octLevel] && Y < env.sizes[parent.octLevel]
    requires ChildrenAnswered(env, seed, parent)
    decreases env.octaves - parent.octLevel, 0
  {
    var ps := env.sizes[parent.octLevel + 1];
    assert Fits(env, parent.octLevel + 1);
    Tiling.BlockCover(X, ps, env.lacunarity);
    Tiling.BlockCover(Y, ps, env.lacunarity);
    LevelCell(env, seed, Child(parent, X / ps, Y / ps, env.lacunarity), X % ps, Y % ps)
  }

  /** With a single octave a chunk is its own noise: no sub-octave is drawn. */
  lemma SingleOctave<E>(env: Env<E>, seed: int, cx: int, cy: int, x: nat, y: nat)
    requires WellFormed(env) && Tiles(env) && env.octaves == 1
    requires x < env.sizes[0] && y < env.sizes[0] && Answered(env, seed, MainChunk(cx, cy))
    ensures LevelCell(env, seed, MainChunk(cx, cy), x, y)
         == ChunkCell(env.sp, InfluencePairs(env, seed, MainChunk(cx, cy)), env.sizes[0], x, y)
  {
  }

  /** A level that some cell X lies in is at least one pixel wide. */
  lemma BlockSizePositive(ps: nat, l: nat, X: nat)
    requires X < ps * l
    ensures ps > 0
  {
  }

  /** Cell X of level n - 1 lies in block X / ps of level n's size ps, one of the lacunarity blocks. */
  lemma LevelBlock<E>(env: Env<E>, n: nat, X: nat)
    requires 1 <= n < |env.sizes| && Fits(env, n) && X < env.sizes[n - 1]
    ensures env.sizes[n] > 0 && X / env.sizes[n] < env.lacunarity && X % env.sizes[n] < env.sizes[n]
  {
    BlockSizePositive(env.sizes[n], env.lacunarity, X);
    Tiling.BlockCover(X, env.sizes[n], env.lacunarity);
  }

  /** Cell (X, Y) of a sub-octave grid is pixel (X % ps, Y % ps) of child (X / ps, Y / ps), one of the l x l children. */
  lemma SubCellBlock<E>(env: Env<E>, seed: int, parent: ChunkData, X: nat, Y: nat)
    requires WellFormed(env) && Tiles(env)
    requires 0 <= parent.octLevel && parent.octLevel + 1 < env.octaves
    requires X < env.sizes[parent.octLevel] && Y < env.sizes[parent.octLevel]
    requires ChildrenAnswered(env, seed, parent)
    ensures var ps := env.sizes[parent.octLevel + 1];
      ps > 0 && X / ps < env.lacunarity && Y / ps < env.lacunarity &&
      Answered(env, seed, Child(parent, X / ps, Y / ps, env.lacunarity)) &&
      SubCell(env, seed, parent, X, Y) == LevelCell(env, seed, Child(parent, X / ps, Y / ps, env.lacunarity), X % ps, Y % ps)
  {
    var ps := env.sizes[parent.octLevel + 1];
    assert Fits(env, parent.octLevel + 1);
    LevelBlock(env, parent.octLevel + 1, X);
    LevelBlock(env, parent.octLevel + 1, Y);
    ChildAnswered(env, seed, parent, X / ps, Y / ps);
  }

  /** The other way round: the cell whose block is (i, j) and offset (x, y) is pixel (x, y) of child (i, j). */
  lemma ChildPixel<E>(env: Env<E>, seed: int, parent: ChunkData, X: nat, Y: nat, i: nat, j: nat, x: nat, y: nat)
    requires WellFormed(env) && Tiles(env)
    requires 0 <= parent.octLevel && parent.octLevel + 1 < env.octaves
    requires X < env.sizes[parent.octLevel] && Y < env.sizes[parent.octLevel]
    requires ChildrenAnswered(env, seed, parent) && i < env.lacunarity && j < env.lacunarity
    requires var ps := env.sizes[parent.octLevel + 1]; ps > 0 && X / ps == i && X % ps == x && Y / ps == j && Y % ps == y
    ensures SubCell(env, seed, parent, X, Y) == LevelCell(env, seed, Child(parent, i, j, env.lacunarity), x, y)
  {
    SubCellBlock(env, seed, parent, X, Y);
  }

  /** The first |out| pixels of chunk c on the main octave, row by row: what perlin hands its consumer. */
  ghost predicate RowMajor<E>(env: Env<E>, seed: int, c: ChunkData, out: seq<E>)
    requires WellFormed(env) && Tiles(env) && c.octLevel == 0 < env.octaves && Answered(env, seed, c)
  {
    var ps := env.sizes[0];
    forall k | 0 <= k < |out| :: ps > 0 && Tiling.Block(k, ps) < ps && out[k] == LevelCell(env, seed, c, Tiling.Block(k, ps), Tiling.Offset(k, ps))
  }

  /** Pixel (x, y) is the next one in row-major order once x * ps + y pixels are out. */
  lemma RowMajorAppend<E>(env: Env<E>, seed: int, c: ChunkData, out: seq<E>, x: nat, y: nat)
    requires WellFormed(env) && Tiles(env) && c.octLevel == 0 < env.octaves && Answered(env, seed, c)
    requires x < env.sizes[0] && y < env.sizes[0] && |out| == x * env.sizes[0] + y
    requires RowMajor(env, seed, c, out)
    ensures RowMajor(env, seed, c, out + [LevelCell(env, seed, c, x, y)])
  {
    var ps := env.sizes[0];
    Tiling.BlockDecompose(x, y, ps);
    var out' := out + [LevelCell(env, seed, c, x, y)];
    forall k | 0 <= k < |out'|
      ensures ps > 0 && Tiling.Block(k, ps) < ps && out'[k] == LevelCell(env, seed, c, Tiling.Block(k, ps), Tiling.Offset(k, ps))
    {
      if k < |out| {
        assert out'[k] == out[k];
      }
    }
  }

  /* ---------------------------------------------------------------------- */
  /* The engine                                                             */
  /* ---------------------------------------------------------------------- */

  class PerlinNoise<E(0)> {
    const sp: Space<E>
    const direction: real -> Point
    const random: Random
    const possibilities: seq<E>
    const runPossibilities: bool
    const psize: nat
    /** None stands for the engine itself, the default generator. */
    const influenceGenerator: Option<Generator<E>>
    var octaves: nat
    var lacunarity: nat
    var persistence: real
    var octaveDataSets: seq<G.PerlinOctave>

    ghost function Footprint(): set<object>
      reads this
    {
      set o | o in octaveDataSets :: o.pixelDistanceVectors
    }

    /** The octave table holds one octave per level, each sized by LevelSize. */
    ghost predicate Valid()
      reads this, Footprint()
    {
      && random.Valid()
      && runPossibilities == (|possibilities| > 1)
      && lacunarity >= 1
      && |octaveDataSets| == octaves
      && Levels(octaveDataSets, psize, lacunarity)
    }

    /** What a generation depends on. */
    function Config(): (env: Env<E>)
      requires lacunarity >= 1
      reads this
    {
      var base, l := psize, lacunarity;
      Env(sp, direction, random.stream, possibilities, influenceGenerator,
          octaves, l, persistence, seq(octaves, n requires 0 <= n => LevelSize(base, l, n)))
    }

    lemma ConfigWellFormed()
      requires Valid()
      ensures WellFormed(Config())
    {
    }

    /**
     * PerlinNoise(cls, psize, possibilities, influence): one octave of
     * lacunarity 1 and persistence 0.5. The Random's clock seed is a parameter.
     */
    constructor (sp: Space<E>, direction: real -> Point, stream: Stream, clockSeed: int,
                 psize: nat, possibilities: seq<E>, influence: Option<Generator<E>>)
      requires Bounded(stream)
      ensures Valid() && fresh(random)
      ensures this.sp == sp && this.direction == direction && random.stream == stream && random.seed == clockSeed
      ensures this.psize == psize && this.possibilities == possibilities && influenceGenerator == influence
      ensures octaves == 1 && lacunarity == 1 && persistence == 0.5
      ensures octaveDataSets[0].psize == psize
    {
      this.sp := sp;
      this.direction := direction;
      this.psize := psize;
      random := new Random(stream, clockSeed);
      this.possibilities := possibilities;
      runPossibilities := |possibilities| > 1;
      influenceGenerator := influence;
      octaves := 1;
      lacunarity := 1;
      persistence := 0.5;
      octaveDataSets := [];
      new;
      SetOctaves(1, 1);
    }

    /** setOctaves(octaves, lacunarity): rebuilds the whole table, dividing the size by l per level. */
    method SetOctaves(o: nat, l: nat)
      requires random.Valid() && runPossibilities == (|possibilities| > 1)
      requires l >= 1
      modifies this
      ensures Valid()
      ensures octaves == o && lacunarity == l && persistence == old(persistence)
      ensures forall k | 0 <= k < o :: fresh(octaveDataSets[k])
    {
      octaveDataSets := BuildTable(psize, l, o);
      octaves := o;
      lacunarity := l;
    }

    /**
     * setOctaves(octaves): keeps the first levels when shrinking and appends
     * new levels below the last one when growing; growing an empty table fails
     * on its missing last level.
     */
    method SetOctaveCount(o: nat) returns (r: Outcome)
      requires Valid()
      modifies this
      ensures Valid() && lacunarity == old(lacunarity) && persistence == old(persistence)
      ensures r == Fail(IndexOutOfBounds) <==> old(octaves) == 0 < o
      ensures r.Fail? ==> octaves == old(octaves) && octaveDataSets == old(octaveDataSets)
      ensures r.Done? ==> octaves == o
      ensures r.Done? && o <= old(octaves) ==> octaveDataSets == old(octaveDataSets)[..o]
      ensures r.Done? && o > old(octaves) ==> octaveDataSets[..old(octaves)] == old(octaveDataSets)
      ensures forall k | old(octaves) <= k < octaves :: fresh(octaveDataSets[k])
    {
      if o == octaves {
        return Done;
      } else if o < octaves {
        octaveDataSets := octaveDataSets[..o];
      } else {
        if |octaveDataSets| == 0 {
          return Fail(IndexOutOfBounds);
        }
        octaveDataSets := ExtendTable(octaveDataSets, psize, lacunarity, o);
      }
      octaves := o;
      r := Done;
    }

    /** setLacunarity: setOctaves with the current octave count. */
    method SetLacunarity(l: nat)
      requires Valid() && l >= 1
      modifies this
      ensures Valid() && octaves == old(octaves) && lacunarity == l && persistence == old(persistence)
    {
      SetOctaves(octaves, l);
    }

    method SetPersistence(p: real)
      modifies this`persistence
      ensures persistence == p
    {
      persistence := p;
    }

    /** setOctaves(octaves, lacunarity, persistence). */
    method SetOctavesAndPersistence(o: nat, l: nat, p: real)
      requires Valid() && l >= 1
      modifies this
      ensures Valid() && octaves == o && lacunarity == l && persistence == p
    {
      SetOctaves(o, l);
      SetPersistence(p);
    }

    /**
     * perlinMainInfluenceVector: with more than one possibility, the
     * spiralIndex-th random int below their count under the seed, else the
     * first one. A negative index draws -1, and no possibility at all leaves
     * index 0: both are out of range.
     */
    method PerlinMainInfluenceVector(seed: int, spiralIndex: int, cx: int, cy: int, mask: int) returns (r: Result<E>)
      requires Valid()
      modifies random
      ensures |possibilities| == 0 ==> r == Err(IndexOutOfBounds)
      ensures spiralIndex >= 0 && |possibilities| >= 1 ==> r == Ok(DefaultInfluence(Config(), seed, spiralIndex))
      ensures spiralIndex < 0 && |possibilities| >= 1 ==> r == if runPossibilities then Err(IndexOutOfBounds) else Ok(possibilities[0])
      ensures runPossibilities ==> random.seed == seed
      ensures !runPossibilities ==> unchanged(random)
    {
      var index := 0;
      if runPossibilities {
        var drawn := Util.GetRandomIntAtIndex(spiralIndex, random, seed, |possibilities|);
        index := drawn.value;
      }
      if index < 0 || index >= |possibilities| {
        return Err(IndexOutOfBounds);
      }
      r := Ok(possibilities[index]);
    }

    /** perlinOctInfluenceVector: the main-level choice at the chunk's absolute coordinates. */
    method PerlinOctInfluenceVector(seed: int, spiralIndex: int, mask: int, octData: ChunkData) returns (r: Result<E>)
      requires Valid()
      modifies random
      ensures |possibilities| == 0 ==> r == Err(IndexOutOfBounds)
      ensures spiralIndex >= 0 && |possibilities| >= 1 ==> r == Ok(DefaultInfluence(Config(), seed, spiralIndex))
      ensures spiralIndex < 0 && |possibilities| >= 1 ==> r == if runPossibilities then Err(IndexOutOfBounds) else Ok(possibilities[0])
    {
      r := PerlinMainInfluenceVector(seed, spiralIndex, octData.cx, octData.cy, mask);
    }

    /**
     * The influence of one corner: the generator's choice, or the default
     * when it gives null, which indexes out of bounds without possibilities.
     */
    method GenInfluence(seed: int, c: ChunkData, spiralIndex: int, mask: nat) returns (r: Result<E>)
      requires Valid() && spiralIndex >= 0
      modifies random
      ensures r.Err? <==> |possibilities| == 0 && Generated(Config(), seed, c, spiralIndex, mask).None?
      ensures r.Err? ==> r.error == IndexOutOfBounds
      ensures r.Ok? ==> r.value == Influence(Config(), seed, c, spiralIndex, mask)
    {
      var generated: Option<E> := None;
      if influenceGenerator.Some? {
        var g := influenceGenerator.value;
        generated := if c.IsMain() then g.main(seed, spiralIndex, c.cx, c.cy, mask) else g.oct(seed, spiralIndex, mask, c);
      }
      if generated.Some? {
        r := Ok(generated.value);
      } else if c.IsMain() {
        r := PerlinMainInfluenceVector(seed, spiralIndex, c.cx, c.cy, mask);
      } else {
        r := PerlinOctInfluenceVector(seed, spiralIndex, mask, c);
      }
    }

    /**
     * genInfluenceVectors: per corner, an angle drawn at the corner's spiral
     * index below 2 pi and an influence from the generator (falling back on
     * the default), combined into (influence * cos, influence * sin).
     */
    method GenInfluenceVectors(seed: int, c: ChunkData) returns (vecs: array<Vector2v<E>>)
      requires Valid() && CornersSupplied(Config(), seed, c)
      modifies random
      ensures fresh(vecs) && vecs[..] == InfluencePairs(Config(), seed, c)
    {
      var index := GenInfluenceVectorIndices(c.cx, c.cy);
      vecs := new Vector2v<E>[G.MASKS];
      for i := 0 to G.MASKS
        invariant index[..] == CornerIndices(c.cx, c.cy)
        invariant forall k | 0 <= k < i :: vecs[k] == InfluencePair(Config(), seed, c, k)
      {
        assert Supplied(Config(), seed, c, i);
        vecs[i] := CornerVector(seed, c, index[i], i);
      }
    }

    /** One iteration of genInfluenceVectors: the angle and the influence of corner `mask`, combined. */
    method CornerVector(seed: int, c: ChunkData, spiralIndex: int, mask: nat) returns (v: Vector2v<E>)
      requires Valid() && mask < G.MASKS && spiralIndex == CornerIndices(c.cx, c.cy)[mask]
      requires Supplied(Config(), seed, c, mask)
      modifies random
      ensures v == InfluencePair(Config(), seed, c, mask)
    {
      var angle := Util.GetRandomFloatAtIndex(spiralIndex, random, seed, TWO_PI);
      var influence := GenInfluence(seed, c, spiralIndex, mask);
      var p := Vector2f.FromPolar(1.0, angle.value, direction);
      v := Vector2v(sp.scale(influence.value, p.x), sp.scale(influence.value, p.y));
    }

    /** A sub-octave of `parent` can be generated into `values`, the size of the parent's octave. */
    ghost predicate Ready(parent: ChunkData, values: array2<E>)
      reads this, Footprint()
    {
      && Valid() && Tiles(Config())
      && 0 <= parent.octLevel && parent.octLevel + 1 < octaves
      && values.Length0 == Config().sizes[parent.octLevel] && values.Length1 == Config().sizes[parent.octLevel]
    }

    /**
     * perlinOctave(seed, parent): the lacunarity x lacunarity children of
     * the parent chunk, each drawn and recursed on, laid out block by block.
     */
    method PerlinOctave(seed: int, parent: ChunkData) returns (values: array2<E>)
      requires Valid() && Tiles(Config())
      requires 0 <= parent.octLevel && parent.octLevel + 1 < octaves
      requires ChildrenAnswered(Config(), seed, parent)
      modifies random
      decreases octaves - parent.octLevel, 1, 1, 0
      ensures fresh(values)
      ensures values.Length0 == Config().sizes[parent.octLevel] && values.Length1 == Config().sizes[parent.octLevel]
      ensures forall X, Y | 0 <= X < values.Length0 && 0 <= Y < values.Length1 ::
                values[X, Y] == SubCell(Config(), seed, parent, X, Y)
    {
      var octn := parent.octLevel + 1;
      var ps := octaveDataSets[octn].psize;
      ghost var env := Config();
      assert ps == env.sizes[octn];
      assert Fits(env, octn);
      values := new E[ps * lacunarity, ps * lacunarity];
      OctaveRows(seed, parent, values);
    }

    /** The loop of perlinOctave over the rows of children. */
    method OctaveRows(seed: int, parent: ChunkData, values: array2<E>)
      requires Ready(parent, values) && ChildrenAnswered(Config(), seed, parent)
      modifies random, values
      decreases octaves - parent.octLevel, 1, 0, 1
      ensures forall X, Y | 0 <= X < values.Length0 && 0 <= Y < values.Length1 ::
                values[X, Y] == SubCell(Config(), seed, parent, X, Y)
    {
      var octn := parent.octLevel + 1;
      var ps := octaveDataSets[octn].psize;
      var l := lacunarity;
      ghost var env := Config();
      assert ps == env.sizes[octn];
      assert Fits(env, octn);
      forall X | 0 <= X < values.Length0
        ensures !Tiling.RowDone(X, 0, ps)
      {
        Tiling.NoRowDone(X, ps);
      }
      for i := 0 to l
        invariant forall X, Y | 0 <= X < values.Length0 && 0 <= Y < values.Length1 && Tiling.RowDone(X, i, ps) ::
                    values[X, Y] == SubCell(env, seed, parent, X, Y)
      {
        OctaveRow(seed, parent, i, values);
      }
      forall X | 0 <= X < values.Length0
        ensures Tiling.RowDone(X, l, ps)
      {
        Tiling.BlockDoneGrid(X, 0, ps, l);
      }
    }

    /** One i iteration of perlinOctave: the row of children (i, 0) .. (i, l - 1). */
    method OctaveRow(seed: int, parent: ChunkData, i: nat, values: array2<E>)
      requires Ready(parent, values) && ChildrenAnswered(Config(), seed, parent) && i < lacunarity
      modifies random, values
      decreases octaves - parent.octLevel, 1, 0, 0
      ensures forall X, Y | 0 <= X < values.Length0 && 0 <= Y < values.Length1 ::
                values[X, Y] == if Tiling.RowDone(X, i + 1, octaveDataSets[parent.octLevel + 1].psize) && !Tiling.RowDone(X, i, octaveDataSets[parent.octLevel + 1].psize)
                                then SubCell(Config(), seed, parent, X, Y) else old(values[X, Y])
    {
      ghost var env := Config();
      var ps := octaveDataSets[parent.octLevel + 1].psize;
      var l := lacunarity;
      assert ps == env.sizes[parent.octLevel + 1];
      assert Fits(env, parent.octLevel + 1);
      forall X, Y | 0 <= X < values.Length0 && 0 <= Y < values.Length1
        ensures !Tiling.BlockDone(X, Y, i, 0, ps) || Tiling.RowDone(X, i, ps)
      {
        Tiling.NoRowDone(Y, ps);
      }
      for j := 0 to l
        invariant forall X, Y | 0 <= X < values.Length0 && 0 <= Y < values.Length1 ::
                    values[X, Y] == if Tiling.BlockDone(X, Y, i, j, ps) && !Tiling.RowDone(X, i, ps)
                                    then SubCell(env, seed, parent, X, Y) else old(values[X, Y])
      {
        OctaveBlock(seed, parent, i, j, values);
      }
      forall X, Y | 0 <= X < values.Length0 && 0 <= Y < values.Length1
        ensures Tiling.BlockDone(X, Y, i, l, ps) && !Tiling.RowDone(X, i, ps) <==> Tiling.RowDone(X, i + 1, ps) && !Tiling.RowDone(X, i, ps)
      {
        Tiling.BlockDoneRow(X, Y, i, ps, l);
      }
    }

    /** One (i, j) iteration of perlinOctave: child (i, j)'s pixels, written into its block. */
    method OctaveBlock(seed: int, parent: ChunkData, i: nat, j: nat, values: array2<E>)
      requires Ready(parent, values) && ChildrenAnswered(Config(), seed, parent) && i < lacunarity && j < lacunarity
      modifies random, values
      decreases octaves - parent.octLevel, 0, 0, 0
      ensures forall X, Y | 0 <= X < values.Length0 && 0 <= Y < values.Length1 ::
                values[X, Y] == if Tiling.InBlock(X, Y, i, j, octaveDataSets[parent.octLevel + 1].psize)
                                then SubCell(Config(), seed, parent, X, Y) else old(values[X, Y])
    {
      var octn := parent.octLevel + 1;
      var oct := octaveDataSets[octn];
      var ps := oct.psize;
      ghost var env := Config();
      assert Fits(env, octn);
      assert ps == env.sizes[octn];
      var thisC := Child(parent, i, j, lacunarity);
      ChildAnswered(env, seed, parent, i, j);
      var invecs := GenInfluenceVectors(seed, thisC);
      var pixs := PerlinAChunk(sp, invecs, oct);
      var hasSub := octn < octaves - 1;
      var subOctPixs := pixs;
      if hasSub {
        subOctPixs := PerlinOctave(seed + 1, thisC);
      }
      WriteBlock(sp, persistence, values, i, j, ps, lacunarity, pixs, hasSub, subOctPixs, env, seed, parent);
    }

    /** The pixel perlinOctave writes: the child's own noise plus, below it, the persistence times its sub-octave. */
    static method BlockPixel(sp: Space<E>, persistence: real, pixs: array2<E>, hasSub: bool, subOctPixs: array2<E>, x: nat, y: nat,
                             ghost env: Env<E>, ghost seed: int, ghost c: ChunkData) returns (p: E)
      requires WellFormed(env) && Tiles(env) && sp == env.sp && persistence == env.persistence
      requires 0 <= c.octLevel < env.octaves && hasSub == (c.octLevel + 1 < env.octaves) && Answered(env, seed, c)
      requires x < env.sizes[c.octLevel] && y < env.sizes[c.octLevel]
      requires x < pixs.Length0 && y < pixs.Length1
      requires pixs[x, y] == ChunkCell(sp, InfluencePairs(env, seed, c), env.sizes[c.octLevel], x, y)
      requires hasSub ==> x < subOctPixs.Length0 && y < subOctPixs.Length1 && subOctPixs[x, y] == SubCell(env, seed + 1, c, x, y)
      ensures p == LevelCell(env, seed, c, x, y)
    {
      p := pixs[x, y];
      if hasSub {
        p := sp.add(p, sp.scale(subOctPixs[x, y], persistence));
      }
    }

    /** The write loop of one perlinOctave iteration: pixel (x, y) of child (i, j) goes to cell (i * ps + x, j * ps + y). */
    static method WriteBlock(sp: Space<E>, persistence: real, values: array2<E>, i: nat, j: nat, ps: nat, l: nat,
                             pixs: array2<E>, hasSub: bool, subOctPixs: array2<E>,
                             ghost env: Env<E>, ghost seed: int, ghost parent: ChunkData)
      requires WellFormed(env) && Tiles(env) && sp == env.sp && persistence == env.persistence && l == env.lacunarity
      requires 0 <= parent.octLevel && parent.octLevel + 1 < env.octaves && ps == env.sizes[parent.octLevel + 1]
      requires i < l && j < l
      requires ChildrenAnswered(env, seed, parent) && Answered(env, seed, Child(parent, i, j, l))
      requires values.Length0 == ps * l && values.Length1 == ps * l && values.Length0 == env.sizes[parent.octLevel]
      requires values != pixs && values != subOctPixs
      requires ps <= pixs.Length0 && ps <= pixs.Length1
      requires forall x, y | 0 <= x < ps && 0 <= y < ps ::
                 pixs[x, y] == ChunkCell(sp, InfluencePairs(env, seed, Child(parent, i, j, l)), ps, x, y)
      requires hasSub == (parent.octLevel + 2 < env.octaves)
      requires hasSub ==> ps <= subOctPixs.Length0 && ps <= subOctPixs.Length1
      requires hasSub ==> forall x, y | 0 <= x < ps && 0 <= y < ps ::
                 subOctPixs[x, y] == SubCell(env, seed + 1, Child(parent, i, j, l), x, y)
      modifies values
      ensures forall X, Y | 0 <= X < values.Length0 && 0 <= Y < values.Length1 ::
                values[X, Y] == if Tiling.InBlock(X, Y, i, j, ps) then SubCell(env, seed, parent, X, Y) else old(values[X, Y])
    {
      ghost var c := Child(parent, i, j, l);
      for x := 0 to ps
        invariant forall X, Y | 0 <= X < values.Length0 && 0 <= Y < values.Length1 ::
                    values[X, Y] == if Tiling.CellDone(X, Y, i, j, x, 0, ps) then SubCell(env, seed, parent, X, Y) else old(values[X, Y])
      {
        for y := 0 to ps
          invariant forall X, Y | 0 <= X < values.Length0 && 0 <= Y < values.Length1 ::
                      values[X, Y] == if Tiling.CellDone(X, Y, i, j, x, y, ps) then SubCell(env, seed, parent, X, Y) else old(values[X, Y])
        {
          var p := BlockPixel(sp, persistence, pixs, hasSub, subOctPixs, x, y, env, seed, c);
          var X0 := Tiling.Place(i, x, ps, l, values.Length0);
          var Y0 := Tiling.Place(j, y, ps, l, values.Length1);
          ChildPixel(env, seed, parent, X0, Y0, i, j, x, y);
          forall X, Y
            ensures Tiling.CellDone(X, Y, i, j, x, y + 1, ps) <==> Tiling.CellDone(X, Y, i, j, x, y, ps) || (X == X0 && Y == Y0)
          {
            Tiling.CellDoneStep(X, Y, i, j, x, y, ps, X0, Y0);
          }
          values[X0, Y0] := p;
        }
        forall X, Y
          ensures Tiling.CellDone(X, Y, i, j, x, ps, ps) <==> Tiling.CellDone(X, Y, i, j, x + 1, 0, ps)
        {
          Tiling.CellDoneRow(X, Y, i, j, x, ps);
        }
      }
      forall X, Y
        ensures Tiling.CellDone(X, Y, i, j, ps, 0, ps) <==> Tiling.InBlock(X, Y, i, j, ps)
      {
        if ps > 0 {
          Tiling.CellDoneBlock(X, Y, i, j, ps);
        }
      }
    }

    /**
     * perlin(seed, cx, cy, consumer): the main chunk's grid of output values
     * and, in `accepted`, what the consumer is handed, in row-major order.
     * Without an octave, with sizes that do not tile, or with a corner left to
     * the default draw when there are no possibilities, the source runs into
     * an array index out of bounds: the model reports it before drawing.
     */
    method Perlin(seed: int, cx: int, cy: int) returns (r: Result<array2<E>>, accepted: seq<E>)
      requires Valid()
      modifies random
      ensures r.Err? <==> octaves == 0 || !Tiles(Config()) || !Answered(Config(), seed, MainChunk(cx, cy))
      ensures r.Err? ==> r.error == IndexOutOfBounds && accepted == []
      ensures r.Ok? ==> fresh(r.value) && r.value.Length0 == psize && r.value.Length1 == psize
      ensures r.Ok? ==> forall x, y | 0 <= x < psize && 0 <= y < psize ::
                r.value[x, y] == LevelCell(Config(), seed, MainChunk(cx, cy), x, y)
      ensures r.Ok? ==> |accepted| == psize * psize && RowMajor(Config(), seed, MainChunk(cx, cy), accepted)
    {
      if octaves == 0 || !Tiles(Config()) || !Answered(Config(), seed, MainChunk(cx, cy)) {
        return Err(IndexOutOfBounds), [];
      }
      var values;
      values, accepted := Generate(seed, MainChunk(cx, cy));
      r := Ok(values);
    }

    /** What perlin computes once the first octave exists and the sizes tile. */
    method Generate(seed: int, d: ChunkData) returns (values: array2<E>, accepted: seq<E>)
      requires Valid() && octaves > 0 && Tiles(Config()) && d.octLevel == 0 && Answered(Config(), seed, d)
      modifies random
      ensures fresh(values) && values.Length0 == psize && values.Length1 == psize
      ensures forall x, y | 0 <= x < psize && 0 <= y < psize :: values[x, y] == LevelCell(Config(), seed, d, x, y)
      ensures |accepted| == psize * psize && RowMajor(Config(), seed, d, accepted)
    {
      var oct := octaveDataSets[0];
      ghost var env := Config();
      assert oct.psize == env.sizes[0] == psize;
      values := new E[oct.psize, oct.psize];
      var invecs := GenInfluenceVectors(seed, d);
      var pixs := PerlinAChunk(sp, invecs, oct);
      var hasSub := octaves > 1;
      var subOctPixs := pixs;
      if hasSub {
        subOctPixs := PerlinOctave(seed + 1, d);
      }
      accepted := WriteMain(sp, persistence, values, oct.psize, pixs, hasSub, subOctPixs, env, seed, d);
    }

    /** The write loop of perlin: every pixel goes to its cell and then to the consumer. */
    static method WriteMain(sp: Space<E>, persistence: real, values: array2<E>, ps: nat,
                            pixs: array2<E>, hasSub: bool, subOctPixs: array2<E>,
                            ghost env: Env<E>, ghost seed: int, ghost c: ChunkData) returns (accepted: seq<E>)
      requires WellFormed(env) && Tiles(env) && sp == env.sp && persistence == env.persistence
      requires c.octLevel == 0 < env.octaves && ps == env.sizes[0] && hasSub == (1 < env.octaves) && Answered(env, seed, c)
      requires values.Length0 == ps && values.Length1 == ps && values != pixs && values != subOctPixs
      requires ps <= pixs.Length0 && ps <= pixs.Length1
      requires forall x, y | 0 <= x < ps && 0 <= y < ps :: pixs[x, y] == ChunkCell(sp, InfluencePairs(env, seed, c), ps, x, y)
      requires hasSub ==> ps <= subOctPixs.Length0 && ps <= subOctPixs.Length1
      requires hasSub ==> forall x, y | 0 <= x < ps && 0 <= y < ps :: subOctPixs[x, y] == SubCell(env, seed + 1, c, x, y)
      modifies values
      ensures forall x, y | 0 <= x < ps && 0 <= y < ps :: values[x, y] == LevelCell(env, seed, c, x, y)
      ensures |accepted| == ps * ps
      ensures RowMajor(env, seed, c, accepted)
    {
      accepted := [];
      assert RowMajor(env, seed, c, accepted);
      for x := 0 to ps
        invariant |accepted| == x * ps
        invariant forall X, Y | 0 <= X < x && 0 <= Y < ps :: values[X, Y] == LevelCell(env, seed, c, X, Y)
        invariant RowMajor(env, seed, c, accepted)
      {
        accepted := WriteMainRow(sp, persistence, values, ps, pixs, hasSub, subOctPixs, x, accepted, env, seed, c);
      }
    }

    /** One x iteration of perlin's write loop: row x of the chunk, appended to what the consumer has. */
    static method WriteMainRow(sp: Space<E>, persistence: real, values: array2<E>, ps: nat,
                               pixs: array2<E>, hasSub: bool, subOctPixs: array2<E>, x: nat, before: seq<E>,
                               ghost env: Env<E>, ghost seed: int, ghost c: ChunkData) returns (accepted: seq<E>)
      requires WellFormed(env) && Tiles(env) && sp == env.sp && persistence == env.persistence
      requires c.octLevel == 0 < env.octaves && ps == env.sizes[0] && hasSub == (1 < env.octaves) && Answered(env, seed, c)
      requires values.Length0 == ps && values.Length1 == ps && values != pixs && values != subOctPixs
      requires ps <= pixs.Length0 && ps <= pixs.Length1
      requires forall x, y | 0 <= x < ps && 0 <= y < ps :: pixs[x, y] == ChunkCell(sp, InfluencePairs(env, seed, c), ps, x, y)
      requires hasSub ==> ps <= subOctPixs.Length0 && ps <= subOctPixs.Length1
      requires hasSub ==> forall x, y | 0 <= x < ps && 0 <= y < ps :: subOctPixs[x, y] == SubCell(env, seed + 1, c, x, y)
      requires x < ps && |before| == x * ps && RowMajor(env, seed, c, before)
      modifies values
      ensures forall X, Y | 0 <= X < ps && 0 <= Y < ps :: values[X, Y] == if X == x then LevelCell(env, seed, c, X, Y) else old(values[X, Y])
      ensures |accepted| == (x + 1) * ps
      ensures RowMajor(env, seed, c, accepted)
    {
      accepted := before;
      for y := 0 to ps
        invariant |accepted| == x * ps + y
        invariant forall X, Y | 0 <= X < ps && 0 <= Y < ps ::
                    values[X, Y] == if X == x && Y < y then LevelCell(env, seed, c, X, Y) else old(values[X, Y])
        invariant RowMajor(env, seed, c, accepted)
      {
        accepted := WriteMainCell(sp, persistence, values, ps, pixs, hasSub, subOctPixs, x, y, accepted, env, seed, c);
      }
    }

    /** One y iteration of perlin's write loop: cell (x, y), then handed to the consumer. */
    static method WriteMainCell(sp: Space<E>, persistence: real, values: array2<E>, ps: nat,
                                pixs: array2<E>, hasSub: bool, subOctPixs: array2<E>, x: nat, y: nat, before: seq<E>,
                                ghost env: Env<E>, ghost seed: int, ghost c: ChunkData) returns (accepted: seq<E>)
      requires WellFormed(env) && Tiles(env) && sp == env.sp && persistence == env.persistence
      requires c.octLevel == 0 < env.octaves && ps == env.sizes[0] && hasSub == (1 < env.octaves) && Answered(env, seed, c)
      requires values.Length0 == ps && values.Length1 == ps && values != pixs && values != subOctPixs
      requires x < ps && y < ps && x < pixs.Length0 && y < pixs.Length1
      requires pixs[x, y] == ChunkCell(sp, InfluencePairs(env, seed, c), ps, x, y)
      requires hasSub ==> x < subOctPixs.Length0 && y < subOctPixs.Length1 && subOctPixs[x, y] == SubCell(env, seed + 1, c, x, y)
      requires |before| == x * ps + y && RowMajor(env, seed, c, before)
      modifies values
      ensures forall X, Y | 0 <= X < ps && 0 <= Y < ps ::
                values[X, Y] == if X == x && Y == y then LevelCell(env, seed, c, X, Y) else old(values[X, Y])
      ensures accepted == before + [LevelCell(env, seed, c, x, y)] && RowMajor(env, seed, c, accepted)
    {
      var p := BlockPixel(sp, persistence, pixs, hasSub, subOctPixs, x, y, env, seed, c);
      values[x, y] := p;
      RowMajorAppend(env, seed, c, before, x, y);
      accepted := before + [p];
    }
  }
}
