/** beo::Chunk_Tag: the offsets and lengths describing one chunk of a data set, plus the hold
    count of its recursive mutex. A tag is stored by value inside a Data_Tag's map, so it is a
    Dafny value; constructors and assignments are functions returning the new tag. */
module ChunkTags {
  import opened Common

  datatype ChunkTag = ChunkTag(offsets: seq<Size>, lengths: seq<Size>, holds: nat)

  /** The empty constructor: no offsets, no lengths, mutex free. */
  function Empty(): (t: ChunkTag)
    ensures t.offsets == [] && t.lengths == [] && t.holds == 0
  {
    ChunkTag([], [], 0)
  }

  /** Construction from (offsets, lengths), by const reference or by rvalue alike: the tag stores
      exactly those sequences and its mutex is released when the constructor returns. */
  function Make(offsets: seq<Size>, lengths: seq<Size>): (t: ChunkTag)
    ensures t.offsets == offsets && t.lengths == lengths && t.holds == 0
    ensures Ndim(t) == |lengths|
  {
    ChunkTag(offsets, lengths, 0)
  }

  /** The copy constructor: same offsets and lengths, a fresh mutex. */
  function Copy(other: ChunkTag): (t: ChunkTag)
    ensures Equal(t, other) && t.lengths == other.lengths && t.holds == 0
  {
    ChunkTag(other.offsets, other.lengths, 0)
  }

  /** The move constructor: the new tag takes the vectors, the source is left with empty
      (moved-from) vectors; both mutexes are released again on return. */
  function Move(other: ChunkTag): (r: (ChunkTag, ChunkTag))
    ensures r.0.offsets == other.offsets && r.0.lengths == other.lengths && r.0.holds == 0
    ensures r.1.offsets == [] && r.1.lengths == [] && r.1.holds == other.holds
  {
    (ChunkTag(other.offsets, other.lengths, 0), ChunkTag([], [], other.holds))
  }

  /** Copy assignment `self = other` for two distinct tags: self takes other's vectors and keeps
      its own mutex. */
  function CopyAssign(self: ChunkTag, other: ChunkTag): (t: ChunkTag)
    ensures t.offsets == other.offsets && t.lengths == other.lengths && t.holds == self.holds
  {
    self.(offsets := other.offsets, lengths := other.lengths)
  }

  /** Move assignment `self = std::move(other)` for two distinct tags: self takes the vectors and
      other is left with empty ones. */
  function MoveAssign(self: ChunkTag, other: ChunkTag): (r: (ChunkTag, ChunkTag))
    ensures r.0.offsets == other.offsets && r.0.lengths == other.lengths && r.0.holds == self.holds
    ensures r.1.offsets == [] && r.1.lengths == [] && r.1.holds == other.holds
  {
    (self.(offsets := other.offsets, lengths := other.lengths), other.(offsets := [], lengths := []))
  }

  /** Assigning a tag's own value back to it changes nothing, as the self-assignment guard
      promises. */
  lemma CopyAssignSelf(t: ChunkTag)
    ensures CopyAssign(t, t) == t
  {
  }

  /** A copy, and a tag assigned from another, compare equal to their source and have the same
      size. */
  lemma CopiesAgree(self: ChunkTag, other: ChunkTag)
    ensures Equal(Copy(other), other) && Equal(CopyAssign(self, other), other)
    ensures Product(Copy(other).lengths) == Product(other.lengths)
    ensures Product(CopyAssign(self, other).lengths) == Product(other.lengths)
  {
  }

  function Lock(t: ChunkTag): (r: ChunkTag)
    ensures r.holds == t.holds + 1 && r.offsets == t.offsets && r.lengths == t.lengths
  {
    t.(holds := t.holds + 1)
  }

  function Unlock(t: ChunkTag): (r: ChunkTag)
    requires t.holds > 0
    ensures r.holds == t.holds - 1 && r.offsets == t.offsets && r.lengths == t.lengths
  {
    t.(holds := t.holds - 1)
  }

  /** ndim(): the number of lengths. */
  function Ndim(t: ChunkTag): nat
  {
    |t.lengths|
  }

  /** offset(i): the i-th offset; the index must be in range. */
  function Offset(t: ChunkTag, i: nat): (r: Size)
    requires i < |t.offsets|
    ensures r == t.offsets[i] && r in t.offsets
  {
    t.offsets[i]
  }

  /** length(i): the i-th length; the index must be in range. */
  function Length(t: ChunkTag, i: nat): (r: Size)
    requires i < |t.lengths|
    ensures r == t.lengths[i] && r in t.lengths
  {
    t.lengths[i]
  }

  /** The accessors read back what the constructors and assignments stored: the i-th offset
      and length given to Make, those of the tag copied or copy-assigned from, and those of a
      tag whose mutex was taken. */
  lemma AccessorsReadBack(offsets: seq<Size>, lengths: seq<Size>, self: ChunkTag, t: ChunkTag, i: nat)
    ensures i < |offsets| ==> Offset(Make(offsets, lengths), i) == offsets[i]
    ensures i < |lengths| ==> Length(Make(offsets, lengths), i) == lengths[i]
    ensures i < |t.offsets| ==>
      Offset(Copy(t), i) == Offset(t, i) && Offset(CopyAssign(self, t), i) == Offset(t, i) &&
      Offset(Lock(t), i) == Offset(t, i)
    ensures i < |t.lengths| ==>
      Length(Copy(t), i) == Length(t, i) && Length(CopyAssign(self, t), i) == Length(t, i) &&
      Length(Lock(t), i) == Length(t, i)
  {
  }

  /** operator==: two tags compare equal when their offsets do, whatever their lengths; as
      vectors compare, that is the same count and the same offset at every index. */
  predicate Equal(a: ChunkTag, b: ChunkTag)
    ensures Equal(a, b) <==>
      |a.offsets| == |b.offsets| && forall i :: 0 <= i < |a.offsets| ==> a.offsets[i] == b.offsets[i]
  {
    SeqEqualByElements(a.offsets, b.offsets);
    a.offsets == b.offsets
  }

  /** Tag equality is an equivalence that ignores the lengths and the mutex entirely. */
  lemma EqualIsOffsetEquivalence(a: ChunkTag, b: ChunkTag, c: ChunkTag, lengths: seq<Size>)
    ensures Equal(a, a)
    ensures Equal(a, b) ==> Equal(b, a)
    ensures Equal(a, b) && Equal(b, c) ==> Equal(a, c)
    ensures Equal(a, b) <==> Equal(a, b.(lengths := lengths))
    ensures Equal(Make(a.offsets, lengths), a)
  {
  }

  /** size(): the product of the lengths in size_t, 1 for a tag without lengths. */
  method Size(t: ChunkTag) returns (sz: Size)
    ensures sz == Product(t.lengths) % SIZE_MOD
    ensures t.lengths == [] ==> sz == 1
    ensures Product(t.lengths) < SIZE_MOD ==> sz == Product(t.lengths)
  {
    sz := ComputeSize(t.lengths);
  }

  /** A tag has size 0 exactly when one of its lengths is 0, and the size of a tag whose
      lengths are split in two is the product of the two parts' sizes. */
  lemma SizeShape(t: ChunkTag, k: nat)
    requires k <= |t.lengths|
    ensures Product(t.lengths) == 0 <==> exists i :: 0 <= i < |t.lengths| && t.lengths[i] == 0
    ensures Product(t.lengths) == Product(t.lengths[..k]) * Product(t.lengths[k..])
  {
    ProductZeroIff(t.lengths);
    assert t.lengths == t.lengths[..k] + t.lengths[k..];
    ProductConcat(t.lengths[..k], t.lengths[k..]);
  }
}
