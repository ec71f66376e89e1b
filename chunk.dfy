/** beo::Chunk (the L0 chunk): a Chunk_Tag plus an owned buffer. The buffer is described by its
    address (0 for nullptr), the byte count and alignment recorded for it, and its first `bytes`
    bytes. The allocator is not called: its answer is an input. */
module Chunks {
  import opened Common
  import opened Utility
  import opened ChunkTags

  /** What malloc or aligned_alloc handed back: nullptr, or a block at `addr` whose first bytes
      hold whatever was there before. */
  datatype Allocation = Failed | Allocated(addr: Size, init: seq<bv8>)

  /** The allocator's side of the contract: a block is never at address 0 and has the size
      asked for. */
  predicate Fits(a: Allocation, bytes: Size)
  {
    a.Allocated? ==> a.addr != 0 && |a.init| == bytes
  }

  /** The pointer that free() hands to std::free, as written: the guard `!is_allocated()` is
      inverted, so std::free only ever receives nullptr. None means std::free is not called. */
  function FreedAsWritten(data: Size): (r: Option<Size>)
    ensures r.Some? ==> r.value == 0
    ensures data != 0 ==> r == None
  {
    if data == 0 then Some(0) else None
  }

  /** The pointer free() is evidently meant to release: the buffer, when there is one. */
  function Freed(data: Size): (r: Option<Size>)
    ensures r.Some? <==> data != 0
    ensures r.Some? ==> r.value == data
  {
    if data != 0 then Some(data) else None
  }

  /** With the inverted guard an allocated buffer is never released (it leaks); the corrected
      guard releases exactly that buffer, and neither version frees anything else. */
  lemma FreeGuardInverted(data: Size)
    ensures data != 0 ==> FreedAsWritten(data) == None && Freed(data) == Some(data)
    ensures data == 0 ==> Freed(data) == None && FreedAsWritten(data) == Some(0)
  {
  }

  class Chunk {
    var tag: ChunkTag
    var alignment: Size
    var bytes: Size
    /** The buffer's address; 0 is nullptr. */
    var data: Size
    /** The first `bytes` bytes of the buffer. */
    var contents: seq<bv8>
    /** Hold count of the chunk's own recursive mutex. */
    var holds: nat

    /** An unallocated chunk records neither bytes nor alignment; an allocated one knows its
        recorded bytes. */
    predicate Valid()
      reads this
    {
      (data == 0 ==> bytes == 0 && alignment == 0 && contents == []) &&
      (data != 0 ==> |contents| == bytes)
    }

    /** is_allocated(): the data pointer is not nullptr. A consistent chunk that is not
        allocated records no bytes and no alignment; an allocated one holds its recorded bytes. */
    predicate IsAllocated()
      reads this
      ensures IsAllocated() <==> data != 0
      ensures Valid() && !IsAllocated() ==> bytes == 0 && alignment == 0 && contents == []
      ensures Valid() && IsAllocated() ==> |contents| == bytes
    {
      data != 0
    }

    /** The empty constructor: empty tag, no buffer, bytes and alignment 0. */
    constructor ()
      ensures Valid() && !IsAllocated()
      ensures tag == ChunkTags.Empty() && bytes == 0 && alignment == 0 && holds == 0
    {
      tag := ChunkTags.Empty();
      alignment := 0;
      bytes := 0;
      data := 0;
      contents := [];
      holds := 0;
    }

    /** Construction from a tag (const reference): the tag is copied, no memory is set up. */
    constructor FromTag(t: ChunkTag)
      ensures Valid() && !IsAllocated()
      ensures tag == ChunkTags.CopyAssign(ChunkTags.Empty(), t) && bytes == 0 && alignment == 0 && holds == 0
    {
      tag := ChunkTags.CopyAssign(ChunkTags.Empty(), t);
      alignment := 0;
      bytes := 0;
      data := 0;
      contents := [];
      holds := 0;
    }

    /** Construction from a tag by rvalue: the tag's vectors move into the new chunk and the
        caller's tag is returned as `moved`, left as ChunkTags.MoveAssign's second component
        says; no memory is set up. */
    static method FromMovedTag(t: ChunkTag) returns (c: Chunk, moved: ChunkTag)
      ensures fresh(c) && c.Valid() && !c.IsAllocated()
      ensures c.tag == ChunkTags.MoveAssign(ChunkTags.Empty(), t).0
      ensures c.bytes == 0 && c.alignment == 0 && c.holds == 0
      ensures moved == ChunkTags.MoveAssign(ChunkTags.Empty(), t).1
    {
      c := new Chunk();
      c.tag := ChunkTags.MoveAssign(ChunkTags.Empty(), t).0;
      moved := ChunkTags.MoveAssign(ChunkTags.Empty(), t).1;
    }

    /** allocate(bytes): fails without touching anything when a buffer is already held;
        otherwise takes malloc's answer `a`, recording the byte count and the alignment
        calc_alignment finds for the address on success. */
    method Allocate(n: Size, a: Allocation) returns (status: int)
      requires Valid() && Fits(a, n)
      modifies this
      ensures Valid() && tag == old(tag) && holds == old(holds)
      ensures old(IsAllocated()) ==> status == FAIL && unchanged(this)
      ensures !old(IsAllocated()) && a.Allocated? ==>
        status == SUCCESS && data == a.addr && bytes == n && alignment == AlignmentOf(a.addr) &&
        contents == a.init
      ensures !old(IsAllocated()) && a.Failed? ==> status == FAIL && unchanged(this)
    {
      if IsAllocated() {
        return FAIL;
      }
      if a.Allocated? {
        data := a.addr;
        bytes := n;
        alignment := CalcAlignment(a.addr);
        contents := a.init;
        return SUCCESS;
      } else {
        data := 0;
        return FAIL;
      }
    }

    /** aligned_allocate(alignment, bytes): as allocate, but on success the requested alignment
        is recorded as given. */
    method AlignedAllocate(al: Size, n: Size, a: Allocation) returns (status: int)
      requires Valid() && Fits(a, n)
      modifies this
      ensures Valid() && tag == old(tag) && holds == old(holds)
      ensures old(IsAllocated()) ==> status == FAIL && unchanged(this)
      ensures !old(IsAllocated()) && a.Allocated? ==>
        status == SUCCESS && data == a.addr && bytes == n && alignment == al && contents == a.init
      ensures !old(IsAllocated()) && a.Failed? ==> status == FAIL && unchanged(this)
    {
      if IsAllocated() {
        return FAIL;
      }
      if a.Allocated? {
        data := a.addr;
        bytes := n;
        alignment := al;
        contents := a.init;
        return SUCCESS;
      } else {
        data := 0;
        return FAIL;
      }
    }

    /** free() as written: always BEO_SUCCESS and leaves the chunk unallocated with bytes and
        alignment 0; `released` is the pointer handed to std::free, which with the inverted guard
        is nullptr for an unallocated chunk and nothing at all for an allocated one. */
    method Free() returns (status: int, released: Option<Size>)
      modifies this
      ensures status == SUCCESS && released == FreedAsWritten(old(data))
      ensures Valid() && !IsAllocated() && bytes == 0 && alignment == 0
      ensures tag == old(tag) && holds == old(holds)
    {
      released := if !IsAllocated() then Some(data) else None;
      data := 0;
      bytes := 0;
      alignment := 0;
      contents := [];
      status := SUCCESS;
    }

    /** free() with the guard as evidently intended: the held buffer, and only it, is released. */
    method FreeReleasing() returns (status: int, released: Option<Size>)
      modifies this
      ensures status == SUCCESS && released == Freed(old(data))
      ensures Valid() && !IsAllocated() && bytes == 0 && alignment == 0
      ensures tag == old(tag) && holds == old(holds)
    {
      released := if IsAllocated() then Some(data) else None;
      data := 0;
      bytes := 0;
      alignment := 0;
      contents := [];
      status := SUCCESS;
    }

    /** The destructor: an allocated chunk calls free(), whose inverted guard hands nothing to
        std::free, so the buffer is never released (it leaks). */
    method Destroy() returns (released: Option<Size>)
      requires Valid()
      modifies this
      ensures released == None
      ensures old(IsAllocated()) ==> released == FreedAsWritten(old(data))
      ensures Valid() && !IsAllocated() && tag == old(tag) && holds == old(holds)
    {
      released := None;
      if IsAllocated() {
        var status;
        status, released := Free();
      }
    }

    /** The destructor with free()'s guard corrected: the held buffer, and only it, is released. */
    method DestroyReleasing() returns (released: Option<Size>)
      requires Valid()
      modifies this
      ensures released == Freed(old(data))
      ensures Valid() && !IsAllocated() && tag == old(tag) && holds == old(holds)
    {
      released := None;
      if IsAllocated() {
        var status;
        status, released := FreeReleasing();
      }
    }

    /** operator==: compares the tags' offsets only, index by index; the buffers, their sizes
        and the lengths play no part. */
    predicate Equal(other: Chunk)
      reads this, other
      ensures Equal(other) <==>
        |tag.offsets| == |other.tag.offsets| &&
        forall i :: 0 <= i < |tag.offsets| ==> tag.offsets[i] == other.tag.offsets[i]
    {
      ChunkTags.Equal(tag, other.tag)
    }

    /** size(): the product of the tag's lengths in size_t. */
    method Size() returns (sz: Size)
      ensures sz == Product(tag.lengths) % SIZE_MOD
      ensures tag.lengths == [] ==> sz == 1
    {
      sz := ComputeSize(tag.lengths);
    }

    /** lock(): the chunk's mutex, then the tag's. */
    method Lock()
      modifies this
      ensures holds == old(holds) + 1 && tag == ChunkTags.Lock(old(tag))
      ensures data == old(data) && bytes == old(bytes) && alignment == old(alignment)
      ensures contents == old(contents)
    {
      holds := holds + 1;
      tag := ChunkTags.Lock(tag);
    }

    /** unlock(): the tag's mutex, then the chunk's. */
    method Unlock()
      requires holds > 0 && tag.holds > 0
      modifies this
      ensures holds == old(holds) - 1 && tag == ChunkTags.Unlock(old(tag))
      ensures data == old(data) && bytes == old(bytes) && alignment == old(alignment)
      ensures contents == old(contents)
    {
      tag := ChunkTags.Unlock(tag);
      holds := holds - 1;
    }

    /** The copy constructor: copies the tag, and for an allocated source makes a deep copy
        through aligned_allocate with the source's alignment and byte count (`a` is
        aligned_alloc's answer) followed by beo::memmove as written. When that allocation fails
        the copy is left unallocated. `returned` is false when the memmove never returns: the
        fresh block can alias the source buffer (it touches it, say); the chunk is then left as
        the call found it, allocated with its bytes not yet copied. */
    static method CopyOf(other: Chunk, a: Allocation) returns (c: Chunk, returned: bool)
      requires other.Valid() && Fits(a, other.bytes)
      ensures fresh(c) && c.Valid() && c.holds == 0
      ensures c.tag == ChunkTags.CopyAssign(ChunkTags.Empty(), other.tag) && ChunkTags.Equal(c.tag, other.tag)
      ensures returned <==> !(other.IsAllocated() && a.Allocated?) || MemmoveReturns(a.addr, other.data, other.bytes)
      ensures other.IsAllocated() && a.Allocated? ==>
        c.data == a.addr && c.bytes == other.bytes && c.alignment == other.alignment &&
        c.contents == (if returned then other.contents else a.init)
      ensures !(other.IsAllocated() && a.Allocated?) ==> !c.IsAllocated()
    {
      c := new Chunk();
      c.tag := ChunkTags.CopyAssign(ChunkTags.Empty(), other.tag);
      returned := true;
      if other.IsAllocated() {
        var status := c.AlignedAllocate(other.alignment, other.bytes, a);
        if a.Allocated? {
          // beo::memmove(data_, other.data_, bytes_)
          returned := MemmoveReturns(c.data, other.data, c.bytes);
          if returned {
            c.contents := other.contents;
          }
        }
      }
    }

    /** The move constructor: takes the tag's vectors (leaving the source's tag moved-from) and
        copies alignment, bytes and the data pointer. The source's pointer is not cleared, so both
        chunks now name the same buffer. */
    constructor MoveOf(other: Chunk)
      requires other.Valid()
      modifies other
      ensures Valid() && holds == 0
      ensures tag == ChunkTags.MoveAssign(ChunkTags.Empty(), old(other.tag)).0
      ensures other.tag == ChunkTags.MoveAssign(ChunkTags.Empty(), old(other.tag)).1
      ensures data == other.data == old(other.data) && bytes == other.bytes == old(other.bytes)
      ensures alignment == other.alignment == old(other.alignment)
      ensures contents == other.contents == old(other.contents) && other.holds == old(other.holds)
    {
      var moved := ChunkTags.MoveAssign(ChunkTags.Empty(), other.tag);
      tag := moved.0;
      alignment := other.alignment;
      bytes := other.bytes;
      data := other.data;
      contents := other.contents;
      holds := 0;
      new;
      other.tag := moved.1;
    }

    /** Move assignment: nothing happens for self-assignment; otherwise as the move
        constructor, keeping this chunk's own mutex. The buffer held before is dropped without
        being freed. */
    method MoveAssign(other: Chunk)
      requires other.Valid()
      modifies this, other
      ensures other == this ==> unchanged(this)
      ensures other != this ==>
        tag == ChunkTags.MoveAssign(old(tag), old(other.tag)).0 &&
        other.tag == ChunkTags.MoveAssign(old(tag), old(other.tag)).1 &&
        data == other.data == old(other.data) && bytes == other.bytes == old(other.bytes) &&
        alignment == other.alignment == old(other.alignment) &&
        contents == other.contents == old(other.contents) &&
        holds == old(holds) && other.holds == old(other.holds) && Valid()
    {
      if other == this {
        return;
      }
      var moved := ChunkTags.MoveAssign(tag, other.tag);
      tag := moved.0;
      other.tag := moved.1;
      alignment := other.alignment;
      bytes := other.bytes;
      data := other.data;
      contents := other.contents;
    }

    /** Copy assignment as written: nothing happens for self-assignment; otherwise the tag is
        copied, and for an allocated source the current buffer is dropped (through free(), which
        releases nothing) and a new one of the source's size is taken from aligned_alloc (`a`).
        bytes_ and alignment_ are never set, so the chunk records 0 bytes and memmove copies
        nothing (and, with no bytes to copy, returns). */
    method CopyAssign(other: Chunk, a: Allocation) returns (released: Option<Size>)
      requires Valid() && other.Valid() && Fits(a, other.bytes)
      modifies this
      ensures Valid() && holds == old(holds)
      ensures other == this ==> unchanged(this) && released == None
      ensures other != this ==> tag == ChunkTags.CopyAssign(old(tag), other.tag)
      ensures other != this && !other.IsAllocated() ==>
        released == None && data == old(data) && bytes == old(bytes) &&
        alignment == old(alignment) && contents == old(contents)
      ensures other != this && other.IsAllocated() ==>
        released == (if old(IsAllocated()) then FreedAsWritten(old(data)) else None) &&
        bytes == 0 && alignment == 0 && contents == [] &&
        data == (if a.Allocated? then a.addr else 0)
      ensures other != this && other.IsAllocated() && a.Allocated? ==> MemmoveReturns(data, other.data, bytes)
    {
      released := None;
      if other == this {
        return;
      }
      tag := ChunkTags.CopyAssign(tag, other.tag);
      if other.IsAllocated() {
        if IsAllocated() {
          var status;
          status, released := Free();
        }
        data := if a.Allocated? then a.addr else 0;
        EmptyMemmoveReturns(data, other.data);
      }
    }
  }
}
