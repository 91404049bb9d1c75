# Chunked multi-octave Perlin noise, modelled in Dafny

This project models the noise core of gareth-kmet/PerlinNoise in Dafny. It covers both revisions of the engine:

- **The generic engine** (`Java/perlin/*`). Values come from any inner-product vector space `E`. Influence vectors are chosen through a pluggable `PerlinInfluenceGenerator`.
- **The older float engine** (`perlin/*`). Values are `Vectornf` component vectors. It has index overrides, where -1 asks for the default draw. `perlin` also reports the largest and smallest component it produced.

Both revisions share the same machinery:

- **Corner identity.** Each corner of a chunk gets a spiral index (`Util.pointToSpiral`). The influence at that corner is replayed from a freshly seeded random stream at that index. Neighbouring chunks therefore agree on their shared corners, in any order of evaluation.
- **Octave table.** Each level's pixel size is the base size divided by the lacunarity once more.
- **Octave recursion.** `perlinOctave` splits a chunk into lacunarity x lacunarity children at absolute coordinates `parent * l + (i, j)`, using seed + 1 per level. It lays their pixels out block by block and adds them in, scaled by the persistence.
- **Perlinification.** Each corner's influence is dotted with every pixel's distance to that corner. The four masks are then lerped together with the quintic smoothstep weight.
- **Vector classes.** `Vectornf`, `Vector2f`, the two `Vector2v` and the `InnerProductFloatVectorSpace` defaults. The model follows their dimension checks (`IllegalArgumentException`), fresh results versus in-place `i*` updates, and array aliasing.

How the model represents the source:

- **Floats** are `real`.
- **Generic values.** A value of the generic engine is an abstract `E`, given with its operations as a `Space<E>` record.
- **The generator.** `java.util.Random` is `Rng.Random` over an abstract stream of draws. The only thing assumed of that stream is its bound contract.
- **Angles.** The direction `(cos theta, sin theta)` of `fromPolar` is a function parameter.
- **Mutable objects.** Objects whose fields the source updates are classes with `modifies` frames; grids are `array2`.
- **Engines as specifications.** Each engine is specified by a function of its configuration (`LevelCell`). Its methods are proved to fill their arrays with exactly that function's values.

Modules, one per source file (plus shared pieces):

| module | file | models |
|---|---|---|
| Wrappers | wrappers.dfy | the exceptions, `Result`, `Outcome`, `Option` |
| Rng | rng.dfy | `java.util.Random` as used by the core |
| Util | util.dfy | util/Util.java |
| VectorN | vectornf.dfy | util/Vectornf.java |
| Vector2D | vector2f.dfy | util/Vector2f.java |
| InnerProductSpace | inner_product_space.dfy | util/InnerProductFloatVectorSpace.java |
| PairVector, CheckedPairVector | pair_vector.dfy | Java/util/Vector2v.java, util/Vector2v.java |
| OctaveGeometry | perlin_octave.dfy | perlin/PerlinOctave.java and the mask constants |
| Pixel | perlin_pixel.dfy | perlin/PerlinPixel.java |
| Chunk | perlin_chunk.dfy | perlin/PerlinChunk.java |
| LegacyPerlinification | legacy_perlinification.dfy | perlin/Perlinification.java |
| GenericPerlinification | generic_perlinification.dfy | Java/perlin/Perlinification.java |
| OctaveChunkData | octave_chunk_data.dfy | `PerlinOctaveChunkData` of Java/perlin/PerlinNoise.java |
| ChunkGrid | chunk_grid.dfy | what both `PerlinNoise` revisions share: level sizes, the octave table, corner indices |
| Tiling | tiling.dfy | the block layout of `perlinOctave` |
| GenericPerlinNoise | generic_perlin_noise.dfy | Java/perlin/PerlinNoise.java |
| LegacyPerlinNoise | legacy_perlin_noise.dfy | perlin/PerlinNoise.java |

## Model

| member | source | states |
|---|---|---|
| Rng.Random.constructor | perlin/PerlinNoise.java:110 | a new generator starts from the clock seed it is given, with no draws made |
| Rng.Random.SetSeed | util/Util.java:26 | reseeding resets the draw count and keeps the new seed |
| Rng.Random.NextInt | util/Util.java:48 | `nextInt(bound)` is the next draw of the seeded stream, in [0, bound), advancing the count by one; a bound <= 0 raises IllegalArgumentException and draws nothing |
| Rng.Random.NextFloat | util/Util.java:28 | `nextFloat(bound)` likewise, in [0.0, bound) |
| Util.FloatAtIndex | util/Util.java:25-34 | the value replayed at a non-negative index lies in [0, bound); a negative index gives -1 |
| Util.IntAtIndex | util/Util.java:45-54 | the value replayed at a non-negative index lies in [0, bound); a negative index gives -1 |
| Util.GetRandomFloatAtIndex | util/Util.java:25-34 | the generator is reseeded and left advanced by exactly index + 1 draws; the result is the index-th draw of the freshly seeded stream; a negative index draws nothing and returns -1 |
| Util.GetRandomIntAtIndex | util/Util.java:45-54 | the same for integer draws, whose result lies in [0, bound) |
| Util.ReplayIgnoresHistory | util/Util.java:45-54 | two generators over the same stream, in any prior state, replay equal values for equal (index, seed, bound), and the value lies in [0, bound) |
| Util.SpiralDecomposition | util/Util.java:63-77 | the spiral index is 4 m^2 plus the point's offset along its ring m (Chebyshev distance from the origin) |
| Util.SideOffsetInjective | util/Util.java:63-77 | on one ring, the offset determines the point |
| Util.SpiralOrdersRings | util/Util.java:63-77 | every point of an inner ring has a smaller index than every point of an outer ring |
| Util.SpiralInjective | util/Util.java:63-77 | distinct lattice points get distinct spiral indices |
| Util.SpiralRingBounds | util/Util.java:63-77 | every point of ring m gets an index within (2m-1)^2 .. (2m+1)^2 - 1, and the origin gets 0 |
| Util.RingPoint | util/Util.java:63-77 | for every offset along ring m > 0 there is a point of that ring with that offset: the inverse of the side offset |
| Util.SpiralRingCovers | util/Util.java:63-77 | every index in (2m-1)^2 .. (2m+1)^2 - 1 is taken by some point of ring m, so with SpiralRingBounds ring m holds exactly those indices and the spiral misses none |
| Util.SpiralNonNegative | util/Util.java:63-77 | indices are non-negative, and 0 only at the origin |
| Util.SpiralFitsInt | util/Util.java:63-77 | for coordinates within +-23000, the squares and the index fit a Java int, so no overflow occurs there |
| Util.SmoothEnds | util/Util.java:88 | the smoothstep weight is 0 at proportion 0 and 1 at proportion 1 |
| Util.SmoothInUnit | util/Util.java:88 | on [0, 1] the weight stays in [0, 1] and is symmetric: w(t) + w(1 - t) = 1 |
| Util.SmoothNonNegative | util/Util.java:88 | the weight is non-negative for non-negative proportions |
| Util.LerpsEnds | util/Util.java:87-90 | over reals, the smoothed lerp gives val1 at proportion 0 and val2 at proportion 1 |
| VectorN.MinusIsPlusNegated | util/InnerProductFloatVectorSpace.java:41-43 | component-wise subtraction is adding the vector scaled by -1, so `Vectornf.sub` agrees with the interface's default |
| VectorN.PlusMinusInverse | util/Vectornf.java:116-139 | adding then subtracting the same vector gives the original back |
| VectorN.DotSymmetric | util/Vectornf.java:163-169 | the inner product is symmetric |
| VectorN.DotUnit | util/Vectornf.java:181-189 | dotting the i-th standard vector with v gives v's i-th component |
| VectorN.LerpSeqEnds | util/Vectornf.java:197-202 | `lerp` gives the receiver at f = 0 and the other vector at f = 1 |
| VectorN.Vectornf.FromList | util/Vectornf.java:29-32 | the list is copied into a new array of its size |
| VectorN.Vectornf.constructor | util/Vectornf.java:40-43 | the vector keeps the caller's array itself (aliasing it), and its size is that array's length |
| VectorN.Vectornf.Const | util/Vectornf.java:55-59 | a fresh vector with `size` components, all equal to f |
| VectorN.Vectornf.Get | util/Vectornf.java:87-89 | reads component i |
| VectorN.Vectornf.Set | util/Vectornf.java:99-101 | changes component i and no other |
| VectorN.Vectornf.AssertCompatible | util/Vectornf.java:111-113 | IllegalArgumentException exactly when the sizes differ |
| VectorN.Vectornf.Add | util/Vectornf.java:116-122 | fails exactly on a size mismatch; otherwise returns a fresh vector of the component-wise sums, and neither operand changes |
| VectorN.Vectornf.IAdd | util/Vectornf.java:125-130 | fails without change on a size mismatch; otherwise adds b into this vector's own array and returns this vector; b changes only when it shares the array |
| VectorN.Vectornf.Sub | util/Vectornf.java:133-139 | like add, with the component-wise differences |
| VectorN.Vectornf.ISub | util/Vectornf.java:142-147 | like iadd, subtracting |
| VectorN.Vectornf.Scale | util/Vectornf.java:150-154 | a fresh vector of the same size, each component times b; there is no size check |
| VectorN.Vectornf.IScale | util/Vectornf.java:157-160 | scales this vector's own components and returns this vector |
| VectorN.Vectornf.Dot | util/Vectornf.java:163-169 | fails exactly on a size mismatch; otherwise returns the inner product of the two component sequences |
| VectorN.Vectornf.Lerp | util/Vectornf.java:197-202 | a fresh vector of this size with component i = f * b[i] + (1 - f) * this[i]; a shorter b runs off its array (index out of bounds), a longer one is cut |
| VectorN.Vectornf.GenStandardVectors | util/Vectornf.java:181-189 | n fresh vectors of size n, over distinct arrays, the i-th being the i-th standard vector |
| VectorN.SelfIAddDoubles | util/Vectornf.java:125-130 | `v.iadd(v)` doubles v, because each component is read before it is written |
| Vector2D.PDotIsDotSeq | util/Vector2f.java:133-135 | the 2D dot product is the n-dimensional one on the two components |
| Vector2D.PDotUnits | util/Vector2f.java:45-55 | dotting with e1 and e2 reads off x and y |
| Vector2D.PSubUndoesAdd | util/Vector2f.java:64-90 | static sub undoes static add |
| Vector2D.PDotSub | util/Vector2f.java:88-135 | dot distributes over the subtraction of its first argument |
| Vector2D.Vector2f.constructor | util/Vector2f.java:18-21 | the fields and the inherited components are both (x, y), over a new array |
| Vector2D.Vector2f.Fill | util/Vector2f.java:28-31 | the fields and the inherited components are both (c, c) |
| Vector2D.Vector2f.Zero | util/Vector2f.java:37-39 | a fresh (0, 0) |
| Vector2D.Vector2f.E1 | util/Vector2f.java:45-47 | a fresh (1, 0) |
| Vector2D.Vector2f.E2 | util/Vector2f.java:53-55 | a fresh (0, 1) |
| Vector2D.Vector2f.Sum | util/Vector2f.java:64-66 | a fresh vector of the fields' sums, whose inherited components are those sums too, over a fresh array |
| Vector2D.Vector2f.Difference | util/Vector2f.java:88-90 | a fresh vector of the fields' differences, whose inherited components are those differences too, over a fresh array |
| Vector2D.Vector2f.Scaled | util/Vector2f.java:112-114 | a fresh vector of the fields times b, whose inherited components are those products too, over a fresh array |
| Vector2D.Vector2f.DotOf | util/Vector2f.java:133-135 | a.x * b.x + a.y * b.y on the fields |
| Vector2D.Vector2f.Add | util/Vector2f.java:75-79 | IllegalArgumentException unless b has size 2; otherwise adds b's first two components to x and y only (the inherited array is outside its frame) and returns this vector |
| Vector2D.Vector2f.Sub | util/Vector2f.java:99-103 | the same, subtracting |
| Vector2D.Vector2f.Scale | util/Vector2f.java:122-125 | scales x and y in place and returns this vector |
| Vector2D.Vector2f.Dot | util/Vector2f.java:143-146 | IllegalArgumentException unless b has size 2; otherwise the fields dotted with b's first two components |
| Vector2D.Vector2f.FromPolar | util/Vector2f.java:159-161 | a fresh vector of r times the direction of theta (given as a parameter), in both the fields and the inherited components over a fresh array |
| Vector2D.ScaleLeavesComponents | util/Vector2f.java:122-125 | after an in-place scale the fields and the inherited components disagree: scaling (1, 2) by 2 gives fields (2, 4), while `get(0)` still reads 1 and so does another vector's `add` |
| InnerProductSpace.RealSpaceLaws | util/InnerProductFloatVectorSpace.java:20-85 | the real line satisfies the vector-space laws the interface's defaults rely on |
| InnerProductSpace.DefaultLerpEnds | util/InnerProductFloatVectorSpace.java:98-100 | in any space obeying the laws, the default lerp gives `this` at f = 0 and b at f = 1 |
| InnerProductSpace.DefaultLerpHasLerpLaws | util/InnerProductFloatVectorSpace.java:98-100 | a space that keeps the default lerp has lerps that reproduce their end points |
| InnerProductSpace.RealSpaceLerpLaws | util/Vectornf.java:197-202 | the overriding lerp of the reals reproduces its end points |
| InnerProductSpace.DefaultLerpIsAffine | util/InnerProductFloatVectorSpace.java:98-100 | over reals the default lerp and the overriding one agree and equal a + f (b - a) |
| InnerProductSpace.DefaultSubIsMinus | util/InnerProductFloatVectorSpace.java:41-55 | over reals the default sub is subtraction, and isub leaves the receiver holding the same value |
| PairVector.DotStandard | Java/util/Vector2v.java:43-57 | in a space obeying the laws, the pair dotted with e1 (static form) gives a and with e2 (instance form) gives b |
| PairVector.DotOverReals | Java/util/Vector2v.java:43-45 | over reals the pair dot is the 2D dot product of (a, b) with v |
| CheckedPairVector.Vector2v.Make | util/Vector2v.java:25-30 | stores a and b, and the size is a's size |
| CheckedPairVector.Vector2v.New | util/Vector2v.java:25-30 | IllegalArgumentException exactly when a and b differ in size; otherwise a fresh pair of size a.size holding a and b |
| CheckedPairVector.Vector2v.Dot | util/Vector2v.java:45-56 | fails exactly when a and b have come to differ in size; otherwise a fresh vector over a fresh array, of size a.size (a's current size, which a reassigned field can make differ from the pair's `size`), equal to a * v.x + b * v.y |
| CheckedPairVector.DotComponents | util/Vector2v.java:45-47 | component i of the dot is the 2D dot product of (a[i], b[i]) with v |
| OctaveGeometry.DistanceDifferences | perlin/PerlinOctave.java:29-32 | at every pixel TR - TL = (1, 0), BL - TL = (0, 1) and BR - TL = (1, 1) |
| OctaveGeometry.FractionInUnit | perlin/PerlinOctave.java:28 | a pixel coordinate below psize lies in [0, 1) in chunk units |
| OctaveGeometry.CornerRanges | perlin/PerlinOctave.java:28-32 | inside the chunk, TL's components lie in (-1, 0] and BR's in (0, 1] |
| OctaveGeometry.Corner2f | perlin/PerlinOctave.java:29-32 | one table entry is the corner minus the pixel position |
| OctaveGeometry.FracInUnit | perlin/Perlinification.java:72-78 | the lerp proportion k * (1 / size) lies in [0, 1) for every pixel k, and is 0 for the first |
| OctaveGeometry.PerlinOctave.constructor | perlin/PerlinOctave.java:18-21 | stores n and psize, allocates a MASKS x psize x psize table and fills every entry |
| OctaveGeometry.PerlinOctave.CalcDistanceVectors | perlin/PerlinOctave.java:26-34 | afterwards every entry [mask][x][y] is the distance from pixel (x, y) to mask's corner |
| OctaveGeometry.PerlinOctave.SetPixel | perlin/PerlinOctave.java:28-32 | one iteration sets the four entries of pixel (x, y) and changes no other pixel |
| Pixel.CornerDifferences | perlin/PerlinPixel.java:20-23 | TR - TL = (tileSize, 0) and BL - TL = (0, tileSize) |
| Pixel.CornerSigns | perlin/PerlinPixel.java:17-23 | for a pixel inside the tile, TL's components are strictly negative and BR's strictly positive |
| Pixel.FromCorner | perlin/PerlinPixel.java:20-23 | a fresh vector from the pixel's centre to the corner |
| Pixel.PerlinPixel.constructor | perlin/PerlinPixel.java:14-29 | stores x and y; each corner field is that corner minus the centre (x + 0.5, y + 0.5); `vecs` holds the same four objects |
| Chunk.PerlinChunk.constructor | perlin/PerlinChunk.java:30-34 | stores x, y and pixelSize, leaving the influence vectors unset (null) |
| Chunk.PerlinChunk.SetInfluenceVectors | perlin/PerlinChunk.java:40-42 | replaces the influence array (the same array, not a copy) and nothing else |
| Chunk.PerlinChunk.GenInfluenceVectorsArray | perlin/PerlinChunk.java:52-59 | a fresh array of length MASKS with tl, tr, bl, br at TL, TR, BL, BR |
| LegacyPerlinification.LerpEnds | perlin/Perlinification.java:94-97 | `lerp` gives val1 at proportion 0 and val2 at proportion 1 |
| LegacyPerlinification.LerpIsGenericLerps | perlin/Perlinification.java:94-97 | the float lerp is `Util.lerps` on the real line |
| LegacyPerlinification.LerpCellFirstLine | perlin/Perlinification.java:76-79 | column 0 of a horizontal lerp, and row 0 of a vertical one, copy the first grid |
| LegacyPerlinification.ChunkCellZeroAtOrigin | perlin/Perlinification.java:49-61 | the chunk's top-left pixel is 0 whatever the influence vectors |
| LegacyPerlinification.Values | perlin/Perlinification.java:109 | the influence vectors as values, one per array slot |
| LegacyPerlinification.Masks.constructor | perlin/Perlinification.java:32-37 | four fresh size x size grids, with `m[mask]` the same grid as the named field |
| LegacyPerlinification.PerlinAMask | perlin/Perlinification.java:105-112 | every cell of mask `mask` becomes the pixel's corner distance dotted with that corner's influence, and no other mask changes |
| LegacyPerlinification.LerpMs | perlin/Perlinification.java:71-84 | a fresh size x size grid whose cell (x, y) is `lerp(m1[x][y], m2[x][y], k / size)`, with k = x across and k = y down |
| LegacyPerlinification.PerlinAChunk | perlin/Perlinification.java:49-61 | a fresh psize x psize grid whose every cell is the vertical lerp of the horizontal TL/TR and BL/BR lerps of the four masks |
| GenericPerlinification.LerpCellFirstLine | Java/perlin/Perlinification.java:100-113 | in a space whose lerp reproduces its end points, column 0 of a horizontal lerp and row 0 of a vertical one copy the first grid |
| GenericPerlinification.ChunkCellAtOrigin | Java/perlin/Perlinification.java:70-80 | at the top-left pixel only the top-left influence counts |
| GenericPerlinification.AgreesWithFloatPipeline | Java/perlin/Perlinification.java:70-80 | over reals the generic pipeline computes what the float engine's pipeline computes, once each influence pair (a, b) is read as the 2D vector (a, b) |
| GenericPerlinification.Masks.constructor | Java/perlin/Perlinification.java:39-49 | four fresh size x size grids, with `m[mask]` the same grid as the named field |
| GenericPerlinification.PerlinAMask | Java/perlin/Perlinification.java:130-138 | every cell of mask `mask` becomes the corner's influence pair dotted with the pixel's distance, and no other mask changes |
| GenericPerlinification.LerpMs | Java/perlin/Perlinification.java:100-113 | a fresh size x size grid whose cell (x, y) is `Util.lerps(m1[x][y], m2[x][y], k / size)`, with k = x across and k = y down |
| GenericPerlinification.PerlinAChunk | Java/perlin/Perlinification.java:70-80 | a fresh psize x psize grid whose every cell is the vertical lerp of the two horizontal lerps of the four masks |
| OctaveChunkData.ChunkData.Ancestors | Java/perlin/PerlinNoise.java:440-478 | the chain from a chunk up to its main chunk starts with the chunk itself |
| OctaveChunkData.GetMainIsRoot | Java/perlin/PerlinNoise.java:454-458 | `getMain` returns the last ancestor, and that ancestor is a main chunk |
| OctaveChunkData.ForEachIsConjunction | Java/perlin/PerlinNoise.java:472-476 | `forEach(p)` holds exactly when p holds on the chunk and every ancestor |
| OctaveChunkData.AncestorsPerLevel | Java/perlin/PerlinNoise.java:440-478 | in a tree whose levels count up from 0, a chunk has one ancestor per level and its main chunk is at level 0 |
| ChunkGrid.LevelSizeIsQuotient | Java/perlin/PerlinNoise.java:182-186 | dividing the size by l level times is dividing by l^level |
| ChunkGrid.UnitLacunarity | perlin/PerlinNoise.java:136-140 | with lacunarity 1 every level has the base pixel size |
| ChunkGrid.DivisibleSizesTile | Java/perlin/PerlinNoise.java:164-165 | when psize is divisible by l^level, as the setOctaves documentation demands, each level is exactly l times the next |
| ChunkGrid.CornerIndices | Java/perlin/PerlinNoise.java:404-414 | four non-negative corner indices, one per mask |
| ChunkGrid.SharedCorners | perlin/PerlinNoise.java:334-344 | chunk (x, y)'s TR/BR indices are chunk (x+1, y)'s TL/BL, and its BL/BR are chunk (x, y+1)'s TL/TR |
| ChunkGrid.CornerIndicesIdentify | Java/perlin/PerlinNoise.java:404-414 | a chunk's four corners have four different indices, and its TL index belongs to no other chunk |
| ChunkGrid.BuildTable | perlin/PerlinNoise.java:132-140 | o fresh octaves, entry k of number k and size LevelSize(psize, l, k) |
| ChunkGrid.ExtendTable | perlin/PerlinNoise.java:159-165 | the old entries are kept, and fresh entries are appended whose size keeps dividing the last one by l |
| ChunkGrid.GenInfluenceVectorIndices | Java/perlin/PerlinNoise.java:404-414 | a fresh array holding the spiral indices of (x, y), (x+1, y), (x, y+1), (x+1, y+1) |
| Tiling.BlockUnique | Java/perlin/PerlinNoise.java:337 | two (block, offset) pairs naming the same cell are the same pair, so no cell is written twice |
| Tiling.BlockCover | Java/perlin/PerlinNoise.java:319-337 | every cell of a ps*l wide grid is offset X % ps of block X / ps, one of the l blocks, so every cell is written |
| Tiling.BlockCell | perlin/PerlinNoise.java:274 | cell i * ps + x of block i lies in the grid and is found back by division and remainder |
| Tiling.Place | perlin/PerlinNoise.java:274 | the index i * ps + x lies in the grid, in block i at offset x |
| GenericPerlinNoise.DefaultIndexInRange | Java/perlin/PerlinNoise.java:385-390 | whenever there is a possibility, the default draw picks an existing one for every corner |
| GenericPerlinNoise.DefaultOctFallsBack | Java/perlin/Perlinification.java:192-195 | a generator keeping the interface's default (null) for sub-octaves leaves every sub-octave corner to the engine's own default draw |
| GenericPerlinNoise.PossibilitiesAnswer | Java/perlin/PerlinNoise.java:367-390 | with at least one possibility every corner of a chunk and of all its sub-octave chunks gets an influence, whatever the generator answers |
| GenericPerlinNoise.NothingToAnswer | Java/perlin/PerlinNoise.java:367-390 | with no possibilities and no generator, the first corner already has no influence: the default indexes an empty array |
| GenericPerlinNoise.ChildAnswered | Java/perlin/PerlinNoise.java:318-329 | when all children of a chunk get their influences, so does each child, and so do its own children on the level below |
| GenericPerlinNoise.InfluencePairs | Java/perlin/PerlinNoise.java:357-382 | one influence pair per mask |
| GenericPerlinNoise.ChildInTree | Java/perlin/PerlinNoise.java:323-325 | a child is one level below its parent, is not main, hangs below the same main chunk, and has its parent's chain as its ancestors |
| GenericPerlinNoise.ChildrenApart | Java/perlin/PerlinNoise.java:323-324 | different children of one parent have different corner indices, hence independent draws |
| GenericPerlinNoise.SingleOctave | Java/perlin/PerlinNoise.java:286 | with one octave, a chunk's pixel is its own perlinAChunk pixel and no sub-octave is drawn |
| GenericPerlinNoise.SubCellBlock | Java/perlin/PerlinNoise.java:321-337 | cell (X, Y) of a sub-octave grid is pixel (X % ps, Y % ps) of child (X / ps, Y / ps), one of the l x l children, whose influences are all supplied |
| GenericPerlinNoise.ChildPixel | Java/perlin/PerlinNoise.java:323-337 | the cell at block (i, j), offset (x, y) is pixel (x, y) of child (i, j) |
| GenericPerlinNoise.PerlinNoise.ConfigWellFormed | Java/perlin/PerlinNoise.java:152-160 | an engine in a valid state describes a well-formed configuration |
| GenericPerlinNoise.PerlinNoise.constructor | Java/perlin/PerlinNoise.java:152-160 | for any possibilities array, even an empty one: one octave of the given psize, lacunarity 1, persistence 0.5; the generator is the given one, or the engine itself when none is given |
| GenericPerlinNoise.PerlinNoise.SetOctaves | Java/perlin/PerlinNoise.java:172-188 | always rebuilds: o fresh octaves whose sizes divide by l per level; octaves and lacunarity are updated, persistence kept |
| GenericPerlinNoise.PerlinNoise.SetOctaveCount | Java/perlin/PerlinNoise.java:199-217 | no change for the same count; shrinking keeps the first o entries; growing keeps all old entries and appends fresh levels; growing an empty table fails with index out of bounds and changes nothing |
| GenericPerlinNoise.PerlinNoise.SetLacunarity | Java/perlin/PerlinNoise.java:227-229 | rebuilds the table for the current octave count with the new lacunarity |
| GenericPerlinNoise.PerlinNoise.SetPersistence | Java/perlin/PerlinNoise.java:238 | sets the persistence |
| GenericPerlinNoise.PerlinNoise.SetOctavesAndPersistence | Java/perlin/PerlinNoise.java:253-256 | the table is rebuilt and the persistence set |
| GenericPerlinNoise.PerlinNoise.PerlinMainInfluenceVector | Java/perlin/PerlinNoise.java:385-390 | with one possibility, that one without a draw (the generator unchanged); with several, the possibility at the replayed draw, where a negative index would index at -1; with none, index 0 is out of bounds |
| GenericPerlinNoise.PerlinNoise.PerlinOctInfluenceVector | Java/perlin/PerlinNoise.java:393-395 | the same choice, and the same failures, as for a main chunk |
| GenericPerlinNoise.PerlinNoise.GenInfluence | Java/perlin/PerlinNoise.java:367-376 | the generator's influence for the corner, falling back on the engine's default where it gives null; index out of bounds exactly when it gives null and there are no possibilities |
| GenericPerlinNoise.PerlinNoise.GenInfluenceVectors | Java/perlin/PerlinNoise.java:357-382 | a fresh array of the four influence pairs: the corner's influence scaled by the cosine and the sine of the angle replayed at its spiral index |
| GenericPerlinNoise.PerlinNoise.CornerVector | Java/perlin/PerlinNoise.java:365-378 | the pair of one corner whose influence is supplied: that influence scaled by the cosine and the sine of the angle replayed at the corner's spiral index |
| GenericPerlinNoise.PerlinNoise.PerlinOctave | Java/perlin/PerlinNoise.java:313-344 | a fresh grid the size of the parent's level whose cell (X, Y) is pixel (X % ps, Y % ps) of child (X / ps, Y / ps), drawn with this seed and recursing with seed + 1 |
| GenericPerlinNoise.PerlinNoise.OctaveRows | Java/perlin/PerlinNoise.java:321-341 | after the loop over i, every cell of the grid holds its child's pixel |
| GenericPerlinNoise.PerlinNoise.OctaveRow | Java/perlin/PerlinNoise.java:322-340 | row i of children is written into its blocks; the other cells are unchanged |
| GenericPerlinNoise.PerlinNoise.OctaveBlock | Java/perlin/PerlinNoise.java:323-339 | child (i, j) is drawn and written into block (i, j); the other cells are unchanged |
| GenericPerlinNoise.PerlinNoise.BlockPixel | Java/perlin/PerlinNoise.java:335-336 | the pixel is the chunk's own noise plus, when an octave lies below, the persistence times the sub-octave's pixel |
| GenericPerlinNoise.PerlinNoise.WriteBlock | Java/perlin/PerlinNoise.java:333-339 | pixel (x, y) of child (i, j) goes to cell (i * ps + x, j * ps + y), and only block (i, j) changes |
| GenericPerlinNoise.PerlinNoise.Perlin | Java/perlin/PerlinNoise.java:275-298 | index out of bounds, with nothing handed to the consumer, exactly when there is no first octave, the sizes do not tile, or some corner of the chunk or of its sub-octave chunks falls back on the default with no possibilities; otherwise a fresh psize x psize grid of the main chunk's pixels, with every pixel handed to the consumer once, in row-major order |
| GenericPerlinNoise.PerlinNoise.Generate | Java/perlin/PerlinNoise.java:276-297 | the grid and the consumer's row-major sequence of the main chunk |
| GenericPerlinNoise.PerlinNoise.WriteMain | Java/perlin/PerlinNoise.java:288-295 | every cell gets its pixel, and the consumer receives all ps * ps pixels row by row |
| GenericPerlinNoise.PerlinNoise.WriteMainRow | Java/perlin/PerlinNoise.java:289-294 | row x is written and appended to the consumer's sequence; other rows are unchanged |
| GenericPerlinNoise.PerlinNoise.WriteMainCell | Java/perlin/PerlinNoise.java:290-293 | cell (x, y) is written and handed to the consumer; no other cell changes |
| LegacyPerlinNoise.MaxOfBounds | perlin/PerlinNoise.java:231-233 | the running max is at least every component, and is finite once a component has been seen |
| LegacyPerlinNoise.MinOfBounds | perlin/PerlinNoise.java:231-233 | the running min is at most every component, and is finite once a component has been seen |
| LegacyPerlinNoise.MaxOfAttained | perlin/PerlinNoise.java:232 | the running max is its start value or one of the components |
| LegacyPerlinNoise.MinOfAttained | perlin/PerlinNoise.java:233 | the running min is its start value or one of the components |
| LegacyPerlinNoise.ExtremesAppend | perlin/PerlinNoise.java:225-236 | tracking over s and then t is tracking over s + t |
| LegacyPerlinNoise.FlattenHas | perlin/PerlinNoise.java:225-236 | every component of every cell is among the tracked components |
| LegacyPerlinNoise.FlattenSource | perlin/PerlinNoise.java:225-236 | every tracked component comes from some cell |
| LegacyPerlinNoise.TrackCell | perlin/PerlinNoise.java:231-234 | tracking one more cell extends the extremes of the cells done |
| LegacyPerlinNoise.PossibilityIndexInRange | perlin/PerlinNoise.java:298-308 | for every corner, the chosen possibility exists |
| LegacyPerlinNoise.DeclinedOverrideIsDefault | perlin/PerlinNoise.java:303-307 | an override answering -1 chooses exactly what no override chooses |
| LegacyPerlinNoise.InfluencePair | perlin/PerlinNoise.java:310-314 | both halves of an influence pair have the engine's dimension |
| LegacyPerlinNoise.InfluencePairs | perlin/PerlinNoise.java:288-318 | four influence pairs, all of the engine's dimension |
| LegacyPerlinNoise.LevelCell | perlin/PerlinNoise.java:225-230 | every pixel has the engine's dimension |
| LegacyPerlinNoise.SubCell | perlin/PerlinNoise.java:269-275 | every cell of a sub-octave grid has the engine's dimension |
| LegacyPerlinNoise.SingleOctave | perlin/PerlinNoise.java:218-220 | with one octave, a pixel is the chunk pipeline's own pixel and no sub-octave is drawn |
| LegacyPerlinNoise.ChildPixel | perlin/PerlinNoise.java:256-275 | the cell at block (i, j), offset (x, y) is pixel (x, y) of child (cx * l + i, cy * l + j), drawn with the same seed |
| LegacyPerlinNoise.MainExtremes | perlin/PerlinNoise.java:223-236 | once all cells are tracked, max is at least and min at most every component of every pixel; each is one of those components or its start; both are finite as soon as a component exists |
| LegacyPerlinNoise.PerlinNoise.constructor | perlin/PerlinNoise.java:108-117 | for any possibilities array, even an empty or mixed-size one: lacunarity 1, persistence 0.5 and one octave in the fields, but the octave table stays empty, because `setOctaves(1, 1)` returns at once; a missing override is the engine itself |
| LegacyPerlinNoise.PerlinNoise.SetOctaves | perlin/PerlinNoise.java:125-142 | no change when both values are current; when only the count changes, or the count asked for is 1, the call repeats on unchanged state until the stack overflows; otherwise the table is rebuilt for o levels |
| LegacyPerlinNoise.PerlinNoise.Rebuild | perlin/PerlinNoise.java:132-141 | o fresh octaves whose sizes divide by l per level; octaves and lacunarity updated, persistence kept |
| LegacyPerlinNoise.PerlinNoise.SetOctaveCount | perlin/PerlinNoise.java:149-169 | no change for the same count; shrinking keeps the first o entries; growing keeps all old entries and appends fresh levels; growing the empty table fails with index out of bounds and changes nothing |
| LegacyPerlinNoise.PerlinNoise.SetLacunarity | perlin/PerlinNoise.java:176-178 | `setOctaves(octaves, l)`: nothing changes for the current lacunarity; a new one overflows the stack on a one-octave engine and otherwise rebuilds the table for the current count |
| LegacyPerlinNoise.PerlinNoise.SetLacunarityRebuilding | perlin/PerlinNoise.java:176-178 | as the later revision behaves (Java/perlin/PerlinNoise.java:227-229): the table is always rebuilt for the current count with the new lacunarity |
| LegacyPerlinNoise.PerlinNoise.SetPersistence | perlin/PerlinNoise.java:184-186 | sets the persistence and nothing else |
| LegacyPerlinNoise.PerlinNoise.SetOctavesAndPersistence | perlin/PerlinNoise.java:194-197 | `setOctaves(o, l)` with its three outcomes (nothing to do, stack overflow, rebuild); the persistence is set only when that call returns |
| LegacyPerlinNoise.PerlinNoise.SetOctavesAndPersistenceRebuilding | perlin/PerlinNoise.java:194-197 | as the later revision behaves (Java/perlin/PerlinNoise.java:253-256): the table is rebuilt for o and l, and the persistence set |
| LegacyPerlinNoise.PerlinNoise.WithTable | perlin/PerlinNoise.java:108-117 | as the constructor, but the octave table starts with its first octave of size psize |
| LegacyPerlinNoise.PerlinNoise.DefaultPossibilityIndex | perlin/PerlinNoise.java:320-328 | the integer replayed at the spiral index below the number of possibilities, an existing one for every real corner; with no possibilities, nextInt(0) raises IllegalArgumentException |
| LegacyPerlinNoise.PerlinNoise.ChoosePossibility | perlin/PerlinNoise.java:299-308 | the main or oct override's index, or the default draw when there is no override or it answers -1 |
| LegacyPerlinNoise.PerlinNoise.GenInfluenceVectors | perlin/PerlinNoise.java:288-318 | a fresh array of the four influence pairs: the chosen possibility (0 with a single one) scaled by the cosine and the sine of the replayed angle |
| LegacyPerlinNoise.PerlinNoise.CornerVector | perlin/PerlinNoise.java:295-314 | the pair of one corner: the chosen possibility scaled by the cosine and the sine of the angle replayed at the corner's spiral index |
| LegacyPerlinNoise.PerlinNoise.ChunkPixels | perlin/PerlinNoise.java:215 | a fresh psize x psize grid of the chunk pipeline's pixels |
| LegacyPerlinNoise.PerlinNoise.PerlinOctave | perlin/PerlinNoise.java:250-279 | a fresh grid the size of level octn - 1 whose cell (X, Y) is pixel (X % ps, Y % ps) of child (cx * l + X / ps, cy * l + Y / ps) |
| LegacyPerlinNoise.PerlinNoise.OctaveRows | perlin/PerlinNoise.java:256-276 | after the loop over i, every cell holds its child's pixel |
| LegacyPerlinNoise.PerlinNoise.OctaveRow | perlin/PerlinNoise.java:256-276 | row i of children is written into its blocks; the other cells are unchanged |
| LegacyPerlinNoise.PerlinNoise.OctaveBlock | perlin/PerlinNoise.java:257-275 | child (i, j) is drawn and written into block (i, j); the other cells are unchanged |
| LegacyPerlinNoise.PerlinNoise.BlockPixel | perlin/PerlinNoise.java:270-273 | the pixel is the chunk's own noise plus, when an octave lies below, the persistence times the sub-octave's pixel |
| LegacyPerlinNoise.PerlinNoise.WriteBlock | perlin/PerlinNoise.java:269-275 | pixel (x, y) of child (i, j) goes to cell (i * ps + x, j * ps + y), and only block (i, j) changes |
| LegacyPerlinNoise.PerlinNoise.Perlin | perlin/PerlinNoise.java:206-239 | index out of bounds while the table is empty, without possibilities, or when the sizes do not tile; IllegalArgumentException for possibilities of different sizes; otherwise a fresh psize x psize grid of the main chunk's pixels, with the max and min of all their components |
| LegacyPerlinNoise.PerlinNoise.Generate | perlin/PerlinNoise.java:207-238 | the grid of the main chunk and its extremes |
| LegacyPerlinNoise.PerlinNoise.DrawMain | perlin/PerlinNoise.java:214-220 | the chunk's own pixels and, with more than one octave, its sub-octave's grid |
| LegacyPerlinNoise.PerlinNoise.WriteMain | perlin/PerlinNoise.java:223-236 | every cell gets its pixel, and max and min are the running extremes over all of them in row-major order |
| LegacyPerlinNoise.PerlinNoise.WriteMainRow | perlin/PerlinNoise.java:225-236 | row x is written and tracked; other rows are unchanged |
| LegacyPerlinNoise.PerlinNoise.WriteMainCell | perlin/PerlinNoise.java:226-234 | cell (x, y) is written and its components tracked; no other cell changes |
| LegacyPerlinNoise.PerlinNoise.Track | perlin/PerlinNoise.java:231-234 | `Math.max`/`Math.min` applied over the components in order |
| LegacyPerlinNoise.FreshEngineCannotGenerate | perlin/PerlinNoise.java:207 | a freshly constructed engine's perlin fails with index out of bounds |
| LegacyPerlinNoise.TabledEngineGenerates | perlin/PerlinNoise.java:206-239 | with the table holding its first octave, perlin succeeds with a psize x psize grid, and finite extremes when there is a component |
| LegacyPerlinNoise.FreshEngineSetOctavesOverflows | perlin/PerlinNoise.java:128-130 | on a fresh engine, `setOctaves(o, 1)` for any o other than 1 overflows the stack however deep it is |
| LegacyPerlinNoise.FreshEngineRebuilds | perlin/PerlinNoise.java:132-141 | with the always-rebuilding setOctaves, the same call sets up o octaves, all of size psize |
| LegacyPerlinNoise.FreshEngineSetLacunarityOverflows | perlin/PerlinNoise.java:176-178 | on a fresh engine, `setLacunarity(l)` for any l above 1 is `setOctaves(1, l)`, which overflows the stack however deep it is |

The lemmas and methods above are stated against these specification functions, each the definition of one source computation: `Util.PointToSpiral` (util/Util.java:63-77), `Util.Smooth` (the weight at util/Util.java:88), `Util.Lerps` (util/Util.java:87-90), `ChunkGrid.LevelSize` (the size division at perlin/PerlinNoise.java:136-139 and Java/perlin/PerlinNoise.java:183-186), `LegacyPerlinification.MaskCell`, `LerpCell` and `ChunkCell` (the cell values of `perlinAMask`, `lerpMs` and `perlinAChunk` at perlin/Perlinification.java:105-112, 71-84 and 49-61), and `GenericPerlinification.MaskCell`, `LerpCell` and `ChunkCell` (the same at Java/perlin/Perlinification.java:130-138, 100-113 and 70-80).

## Left out

- The demo and UI files (`Java/main_path/Main.java`, `main_path/Main.java`, `mainPath/MainSystemFile.java`): AWT frames, painting and console output are not part of this model.
- `java.util.Random`'s generator algorithm: draws come from an abstract stream whose only assumed property is the bound contract `0 <= draw < bound`. The stream is indexed by (seed, draw number, bound), which is enough for the replay methods, since they make every draw with one bound.
- IEEE-754 float rounding, `Math.pow` and `Math.cos`/`Math.sin`: floats are reals and the direction of an angle is a parameter. `NaN` handling in `Math.max`/`Math.min` is left out; extremes are reals or the two infinities.
- `PerlinReturn.getNormalizedValue` (perlin/PerlinNoise.java:360-366): a float division on the output, not part of the model.
- `Vectornf.color(Color)` (util/Vectornf.java:69-72): AWT colour conversion.
- `toString` of every class.
- The output magnitude bound and the continuity claims of the documentation: analytic statements about float noise, not modelled.
- The convenience constructors `PerlinNoise(psize)` and `PerlinNoise(psize, possibilities)` of perlin/PerlinNoise.java:85-97 are not separate members. They call the four-argument constructor with the single possibility `genStandardVectors(1)` and no overrides, which the model covers.
- The generic engine's three-argument constructor (Java/perlin/PerlinNoise.java:133-135) is the four-argument one with no generator, which the model covers with `None`.
- Reflective array allocation (`Array.newInstance`) and the class token `cls`: grids are `array2` of `E`.
- The `Consumer` passed to the generic `perlin`: modelled as the sequence of values it accepts, in order.
- Grids are `array2` rather than Java arrays of row arrays: no row aliasing is modelled.
- Negative octave counts and lacunarity 0: counts are `nat`, and every setter requires `l >= 1`. The source would throw `NegativeArraySizeException` or divide by zero there.
- LegacyPerlinNoise.PerlinNoise.Perlin and GenericPerlinNoise.PerlinNoise.Perlin: when the level sizes are not each exactly the lacunarity times the next (the documented `psize` divisible by `lacunarity^octave` assertion), the source indexes out of bounds: each sub-octave grid is allocated lacunarity times the smaller level wide (perlin/PerlinNoise.java:254, Java/perlin/PerlinNoise.java:319), and the level above reads it at every one of its own, larger, cells. The model reports IndexOutOfBounds up front instead of modelling what a partial run leaves behind.
- LegacyPerlinNoise.PerlinNoise.constructor: requires overrides to answer an existing index or -1 whenever there are several possibilities; the source would throw on any other answer.
- LegacyPerlinNoise.PerlinNoise.Perlin: with possibilities of different sizes it reports IllegalArgumentException before drawing. The source throws it only once `add` meets two vectors of different sizes, and succeeds when every chunk drawn happens to use possibilities of one size.
- LegacyPerlinNoise.PerlinNoise.constructor: requires the chunk pipeline to keep the dimension of the first possibility. This stands in for `Perlinification.perlinAChunk`, whose float signature (perlin/Perlinification.java:49) does not accept the `Vector2v` pairs perlin/PerlinNoise.java:215 passes. The engine therefore takes the pipeline as a function parameter.
- `Util.lerps` calls `Vectornf.lerp(val1, val2, a)` (util/Util.java:89), which does not exist as a static method. The model uses the generic `lerp` of the value's space.
- The older engine calls static `Vectornf.add` and `Vectornf.scale` (perlin/PerlinNoise.java:228, 272, 312-313; util/Vector2v.java:46), but util/Vectornf.java:116, 150 has only the instance methods. In perlin/PerlinNoise.java the model reads these calls as the unchecked component-wise sum and product (`Plus`, `Times`); there the two operands come from one engine and have its dimension. In util/Vector2v.java:46 it reads them as the instance `scale` and the checked instance `add`, which raises IllegalArgumentException on a size mismatch (CheckedPairVector.Vector2v.Dot), because the pair's public fields can have been reassigned to vectors of different sizes.
- Util.PointToSpiral: unbounded integers. Java's `int` arithmetic in `4*y*y` and `x*x` (util/Util.java:65-66) wraps beyond about +-23170, where the Java spiral index can come out negative and `possibilities[-1]` throws. Util.SpiralFitsInt states a range (+-23000) in which nothing wraps; nothing in the source bounds chunk coordinates.
- ChunkGrid.CornerIndices: spiral indices of the four corners over unbounded integers, with the same wrap left out.
- GenericPerlinNoise.Child: child coordinates `cx*l + i` (Java/perlin/PerlinNoise.java:322-323) grow as lacunarity^octave and are not wrapped to 32 bits.
- LegacyPerlinNoise.ChildCoordinate: the same for `cx*lacunarity+i` at perlin/PerlinNoise.java:257-258.
- Util.SpiralInjective: holds for unbounded integers only; with Java's wrap, far-apart points can share an index.
- Util.SpiralNonNegative: holds for unbounded integers only; with Java's wrap, the index can be negative.
- GenericPerlinNoise.ChildrenApart: holds for unbounded integers only.
- LegacyPerlinNoise.PerlinNoise.SetOctaves models the endless self-call by a stack depth parameter: the repeating branch always ends in StackOverflow.
- Distance vectors follow the code: `PerlinOctave` measures from the pixel corner `x / psize`, and `PerlinPixel` from the pixel centre `x + 0.5`, each as written.
- `Vector2v.size()` of util/Vector2v.java:35-37 is the pair's `size` field.

## Findings

| source | as written | input that shows it | evidently intended | confidence | as-written member | corrected member |
|---|---|---|---|---|---|---|
| perlin/PerlinNoise.java:113 | the constructor calls `setOctaves(1, 1)` while octaves and lacunarity already hold 1, so that call returns at once and `octaveDataSets` stays empty; `perlin` then reads `octaveDataSets[0]` (line 207) | `new PerlinNoise(psize, possibilities, null, null).perlin(seed, 0, 0)` | the engine starts with its first octave, as the later revision's always-rebuilding `setOctaves` gives it (Java/perlin/PerlinNoise.java:158, 172-188) | not executed | LegacyPerlinNoise.FreshEngineCannotGenerate | LegacyPerlinNoise.TabledEngineGenerates |
| perlin/PerlinNoise.java:176-178 | `setLacunarity(l)` is `setOctaves(octaves, l)`. On a one-octave engine, such as every freshly constructed one, a new l takes the self-calling branch, because the count asked for is 1 | on a fresh engine, `setLacunarity(2)` | the table is rebuilt for the current count with the new lacunarity, as the later revision does (Java/perlin/PerlinNoise.java:227-229) | not executed | LegacyPerlinNoise.FreshEngineSetLacunarityOverflows | LegacyPerlinNoise.PerlinNoise.SetLacunarityRebuilding |
| perlin/PerlinNoise.java:128-130 | when only the octave count differs, or the count asked for is 1, `setOctaves(o, l)` calls itself with the same arguments on unchanged state and never terminates | on a fresh engine, `setOctaves(4, 1)` | the table is rebuilt for the requested octaves, as the later revision does (Java/perlin/PerlinNoise.java:172-188) | not executed | LegacyPerlinNoise.FreshEngineSetOctavesOverflows | LegacyPerlinNoise.FreshEngineRebuilds |
