/**
 * PerlinOctaveChunkData: where a chunk sits in the octave tree — its octave
 * level, its position inside the parent chunk, its absolute chunk
 * coordinates, and the parent chunk of the previous octave (none on the main
 * level).
 */
module OctaveChunkData {
  import opened Wrappers

  datatype ChunkData = ChunkData(octLevel: int, rx: int, ry: int, cx: int, cy: int, parent: Option<ChunkData>)
  {
    /** isMain: the main level is the one without a parent. */
    predicate IsMain() {
      parent.None?
    }

    /** This chunk followed by its parent, grandparent, ..., up to the main level. */
    function Ancestors(): (r: seq<ChunkData>)
      ensures |r| >= 1 && r[0] == this
      decreases this
    {
      if IsMain() then [this] else [this] + parent.value.Ancestors()
    }

    /** getMain: follows the parents up to the main level. */
    function GetMain(): ChunkData
      decreases this
    {
      if IsMain() then this else parent.value.GetMain()
    }

    /** forEach: the predicate on this chunk, and-ed with forEach on the parent. */
    function ForEach(p: ChunkData -> bool): bool
      decreases this
    {
      var thisTest := p(this);
      if !IsMain() then thisTest && parent.value.ForEach(p) else thisTest
    }

    /** Levels count up by one from a main chunk at level 0. */
    predicate WellLeveled()
      decreases this
    {
      if IsMain() then octLevel == 0
      else octLevel == parent.value.octLevel + 1 && parent.value.WellLeveled()
    }
  }

  /** getMain returns the last ancestor, and it is a main chunk. */
  lemma {:induction false} GetMainIsRoot(c: ChunkData)
    ensures c.GetMain().IsMain()
    ensures c.GetMain() == c.Ancestors()[|c.Ancestors()| - 1]
    decreases c
  {
    if !c.IsMain() {
      GetMainIsRoot(c.parent.value);
    }
  }

  /** forEach holds exactly when the predicate holds on the chunk and on every ancestor. */
  lemma {:induction false} ForEachIsConjunction(c: ChunkData, p: ChunkData -> bool)
    ensures c.ForEach(p) <==> forall a | a in c.Ancestors() :: p(a)
    decreases c
  {
    if !c.IsMain() {
      ForEachIsConjunction(c.parent.value, p);
      assert c.Ancestors() == [c] + c.parent.value.Ancestors();
    }
  }

  /** In a well-levelled tree a chunk has one ancestor per level, and its main chunk is at level 0. */
  lemma {:induction false} AncestorsPerLevel(c: ChunkData)
    requires c.WellLeveled()
    ensures |c.Ancestors()| == c.octLevel + 1
    ensures c.GetMain().octLevel == 0
    decreases c
  {
    if !c.IsMain() {
      AncestorsPerLevel(c.parent.value);
    }
  }
}
