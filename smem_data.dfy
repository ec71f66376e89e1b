/** beo::Data<T> of smem_nodes: a name and a std::vector of Chunk<T>. Chunk<T>'s copy
    constructor takes a non-const reference, so the vector relocates its elements with the move
    constructor and a relocation changes no chunk. The vector is never exposed, so every chunk it
    holds was made by add_chunk. */
module SmemData {
  import opened Common
  import opened SmemChunks

  /** The chunks a sequence of add_chunk calls leaves in an empty Data, in order. */
  function ChunksOf<T>(values: seq<T>): (r: seq<Chunk<T>>)
    ensures |r| == |values|
    ensures forall i :: 0 <= i < |values| ==> r[i] == FromValue(values[i])
  {
    seq(|values|, i requires 0 <= i < |values| => FromValue(values[i]))
  }

  class Data<T> {
    var name: string
    var chunks: seq<Chunk<T>>
    /** The values passed to add_chunk so far. */
    ghost var added: seq<T>

    /** The chunks are exactly those the adds made: one per add, in order, each with status f. */
    ghost predicate Valid()
      reads this
    {
      chunks == ChunksOf(added)
    }

    /** Data(name): the name is set and there are no chunks. */
    constructor (n: string)
      ensures name == n && chunks == [] && added == [] && Valid()
      ensures NumChunks() == 0
    {
      name := n;
      chunks := [];
      added := [];
    }

    /** num_chunks() */
    function NumChunks(): nat
      reads this
    {
      |chunks|
    }

    /** add_chunk(T&) and add_chunk(T&&): both build Chunk<T>(other) from the argument as an
        lvalue, so the appended chunk holds a copy of it with status f. */
    method AddChunk(x: T)
      requires Valid()
      modifies this
      ensures chunks == old(chunks) + [FromValue(x)] && added == old(added) + [x]
      ensures name == old(name) && Valid()
      ensures NumChunks() == old(NumChunks()) + 1
    {
      chunks := chunks + [FromValue(x)];
      added := added + [x];
    }
  }

  /** What the invariant gives a reader: num_chunks() counts the adds, every chunk has status f,
      the i-th chunk holds the i-th added value, and adds made in two runs leave the chunks of
      the first run followed by those of the second. */
  lemma ChunksRecordAdds<T>(chunks: seq<Chunk<T>>, added: seq<T>, more: seq<T>)
    requires chunks == ChunksOf(added)
    ensures |chunks| == |added|
    ensures forall i :: 0 <= i < |chunks| ==> chunks[i].status == F && chunks[i].base == added[i]
    ensures ChunksOf(added + more) == chunks + ChunksOf(more)
  {
    var l, r := ChunksOf(added + more), chunks + ChunksOf(more);
    assert |l| == |r|;
    forall i | 0 <= i < |l|
      ensures l[i] == r[i]
    {
      if i < |added| {
        assert (added + more)[i] == added[i];
      } else {
        assert (added + more)[i] == more[i - |added|];
      }
    }
  }
}
