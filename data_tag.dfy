/** beo::Data_Tag: a named data set's shape and the map from chunk offsets to the chunk tags
    that describe it. The tags are stored by value in the map. */
module DataTags {
  import opened Common
  import opened ChunkTags
  import opened OffsetHash

  type Key = seq<Size>
  type TagMap = map<Key, ChunkTag>

  /** Every tag is stored under its own offsets. */
  ghost predicate KeyedByOffsets(m: TagMap)
  {
    forall k :: k in m ==> m[k].offsets == k
  }

  /** Every tag in the map after its mutex was locked once more. */
  function LockedTags(m: TagMap): (r: TagMap)
    ensures r.Keys == m.Keys
    ensures forall k :: k in m ==> r[k] == ChunkTags.Lock(m[k])
  {
    map k | k in m :: ChunkTags.Lock(m[k])
  }

  /** Every tag whose mutex is held at least once. */
  ghost predicate AllHeld(m: TagMap)
  {
    forall k :: k in m ==> m[k].holds > 0
  }

  /** Every tag in the map after its mutex was unlocked once. */
  function UnlockedTags(m: TagMap): (r: TagMap)
    requires AllHeld(m)
    ensures r.Keys == m.Keys
    ensures forall k :: k in m ==> r[k] == ChunkTags.Unlock(m[k])
  {
    map k | k in m :: ChunkTags.Unlock(m[k])
  }

  /** The map as copied by unordered_map's copy constructor or copy assignment: the same keys,
      each tag copy-constructed, so with a fresh mutex. */
  function CopiedTags(m: TagMap): (r: TagMap)
    ensures r.Keys == m.Keys
    ensures forall k :: k in m ==> r[k].offsets == m[k].offsets && r[k].lengths == m[k].lengths
    ensures forall k :: k in m ==> r[k].holds == 0
  {
    map k | k in m :: ChunkTags.Copy(m[k])
  }

  /** A map received by move and then unlocked once without having been locked: each tag's
      count drops by one, and a count of 0 (where the source's unlock is undefined) stays 0. */
  function ReleasedOnce(m: TagMap): (r: TagMap)
    ensures r.Keys == m.Keys
    ensures forall k :: k in m ==> r[k].offsets == m[k].offsets && r[k].lengths == m[k].lengths
    ensures forall k :: k in m ==> r[k].holds == if m[k].holds > 0 then m[k].holds - 1 else 0
  {
    map k | k in m :: m[k].(holds := if m[k].holds > 0 then m[k].holds - 1 else 0)
  }

  /** With no change to the map in between, lock followed by unlock restores every tag's hold
      count, and unlock followed by lock does too. After a lock every tag is held, so the
      unlock that follows is always allowed. */
  lemma LockUnlockRoundTrip(m: TagMap)
    ensures AllHeld(LockedTags(m))
    ensures UnlockedTags(LockedTags(m)) == m
    ensures AllHeld(m) ==> LockedTags(UnlockedTags(m)) == m
  {
    var r := UnlockedTags(LockedTags(m));
    assert forall k :: k in m ==> r[k] == m[k];
    if AllHeld(m) {
      var r' := LockedTags(UnlockedTags(m));
      assert forall k :: k in m ==> r'[k] == m[k];
    }
  }

  /** Copying a map keeps it keyed by offsets, and the copies compare equal to the originals
      and hash alike. */
  lemma CopiedTagsAgree(m: TagMap, h: Size -> Word)
    requires KeyedByOffsets(m)
    ensures KeyedByOffsets(CopiedTags(m))
    ensures forall k :: k in m ==> ChunkTags.Equal(CopiedTags(m)[k], m[k])
    ensures forall k :: k in m ==> HashFold(CopiedTags(m)[k].offsets, h) == HashFold(k, h)
  {
  }

  class DataTag {
    var name: string
    var lengths: seq<Size>
    var tags: TagMap
    /** Hold count of the Data_Tag's own recursive mutex. */
    var holds: nat

    /** The empty constructor: no name, no lengths, no tags. */
    constructor ()
      ensures name == "" && lengths == [] && tags == map[] && holds == 0
    {
      name := "";
      lengths := [];
      tags := map[];
      holds := 0;
    }

    /** The constructors from a name (by const reference or by rvalue, with or without a count
        to reserve): the name is set and the map starts empty. */
    constructor Named(n: string)
      ensures name == n && lengths == [] && tags == map[] && holds == 0
      ensures NumChunkTags() == 0 && KeysMatchOffsets()
    {
      name := n;
      lengths := [];
      tags := map[];
      holds := 0;
    }

    /** The constructor from a name and a map by lvalue reference: the map is copied (every tag
        with a fresh mutex), with the object's own lock held around the copy. */
    constructor FromMap(n: string, m: TagMap)
      ensures name == n && lengths == [] && tags == CopiedTags(m) && holds == 0
      ensures KeyedByOffsets(m) ==> KeysMatchOffsets()
    {
      name := n;
      lengths := [];
      tags := CopiedTags(m);
      holds := 0;
    }

    /** The constructor from a name and a map by rvalue: lock() runs on the still empty map,
        the map is moved in, and unlock() then releases every moved tag once. */
    constructor FromMovedMap(n: string, m: TagMap)
      ensures name == n && lengths == [] && tags == ReleasedOnce(m) && holds == 0
      ensures KeyedByOffsets(m) ==> KeysMatchOffsets()
    {
      name := n;
      lengths := [];
      tags := ReleasedOnce(m);
      holds := 0;
    }

    /** The copy constructor: name, lengths and the whole map are copied; the copied tags get
        fresh mutexes; the source ends with its counts as they were. */
    constructor CopyOf(other: DataTag)
      ensures name == other.name && lengths == other.lengths && tags == CopiedTags(other.tags)
      ensures holds == 0 && NumChunkTags() == other.NumChunkTags()
      ensures other.KeysMatchOffsets() ==> KeysMatchOffsets()
    {
      name := other.name;
      lengths := other.lengths;
      tags := CopiedTags(other.tags);
      holds := 0;
    }

    /** The move constructor: name, lengths and map (tags with their counts) move over; the
        source is left with an empty name, lengths and map. */
    constructor MoveOf(other: DataTag)
      modifies other
      ensures name == old(other.name) && lengths == old(other.lengths) && tags == old(other.tags)
      ensures holds == 0
      ensures other.name == "" && other.lengths == [] && other.tags == map[]
      ensures other.holds == old(other.holds)
    {
      name := other.name;
      lengths := other.lengths;
      tags := other.tags;
      holds := 0;
      new;
      other.name := "";
      other.lengths := [];
      other.tags := map[];
    }

    /** Copy assignment: nothing changes on self-assignment; otherwise name, lengths and map are
        copied as in the copy constructor and this object keeps its own mutex. */
    method CopyAssign(other: DataTag)
      modifies this
      ensures other == this ==> unchanged(this)
      ensures other != this ==>
        name == other.name && lengths == other.lengths && tags == CopiedTags(other.tags) &&
        holds == old(holds)
    {
      if other == this {
        return;
      }
      name := other.name;
      lengths := other.lengths;
      tags := CopiedTags(other.tags);
    }

    /** Move assignment: nothing changes on self-assignment; otherwise name, lengths and map
        move over as in the move constructor. */
    method MoveAssign(other: DataTag)
      modifies this, other
      ensures other == this ==> unchanged(this)
      ensures other != this ==>
        name == old(other.name) && lengths == old(other.lengths) && tags == old(other.tags) &&
        holds == old(holds) && other.holds == old(other.holds) &&
        other.name == "" && other.lengths == [] && other.tags == map[]
    {
      if other == this {
        return;
      }
      name := other.name;
      lengths := other.lengths;
      tags := other.tags;
      other.name := "";
      other.lengths := [];
      other.tags := map[];
    }

    /** The key invariant of the offsets map. */
    ghost predicate KeysMatchOffsets()
      reads this
    {
      KeyedByOffsets(tags)
    }

    /** num_chunk_tags(): the number of entries in the map. */
    function NumChunkTags(): (n: nat)
      reads this
      ensures n == |tags.Keys|
      ensures n == 0 <==> tags == map[]
    {
      |tags|
    }

    /** add_chunk_tag(const Chunk_Tag&) and add_chunk_tag(Chunk_Tag&&): both insert a copy of
        the tag under its offsets when those offsets are not yet a key; the caller's tag ends
        with its count as it was. */
    method AddChunkTag(t: ChunkTag)
      modifies this
      ensures tags == InsertIfAbsent(old(tags), t.offsets, ChunkTags.Copy(t))
      ensures NumChunkTags() == old(NumChunkTags()) + (if t.offsets in old(tags) then 0 else 1)
      ensures old(KeysMatchOffsets()) ==> KeysMatchOffsets()
      ensures name == old(name) && lengths == old(lengths) && holds == old(holds)
    {
      tags := InsertIfAbsent(tags, t.offsets, ChunkTags.Copy(t));
    }

    /** add_chunk_tag(const offsets_t&, const lengths_t&): inserts a tag built from the two
        vectors under the offsets, when they are not yet a key. */
    method AddChunkTagFromParts(offsets: seq<Size>, lens: seq<Size>)
      modifies this
      ensures tags == InsertIfAbsent(old(tags), offsets, ChunkTags.Make(offsets, lens))
      ensures NumChunkTags() == old(NumChunkTags()) + (if offsets in old(tags) then 0 else 1)
      ensures old(KeysMatchOffsets()) ==> KeysMatchOffsets()
      ensures name == old(name) && lengths == old(lengths) && holds == old(holds)
    {
      tags := InsertIfAbsent(tags, offsets, ChunkTags.Make(offsets, lens));
    }

    /** add_chunk_tag(offsets_t&&, lengths_t&&): the tag is built by moving the offsets out of
        the argument before std::make_pair copies the key, so the key is whatever the moved-from
        vector holds (`leftover`), not the offsets. */
    method AddChunkTagFromMovedParts(offsets: seq<Size>, lens: seq<Size>, leftover: seq<Size>)
      modifies this
      ensures tags == InsertIfAbsent(old(tags), leftover, ChunkTags.Make(offsets, lens))
      ensures leftover == offsets && old(KeysMatchOffsets()) ==> KeysMatchOffsets()
      ensures name == old(name) && lengths == old(lengths) && holds == old(holds)
    {
      tags := InsertIfAbsent(tags, leftover, ChunkTags.Make(offsets, lens));
    }

    /** remove_chunk_tag(offsets): erases the entry if present; nothing else changes. */
    method RemoveChunkTag(offsets: seq<Size>)
      modifies this
      ensures tags == Erase(old(tags), offsets)
      ensures offsets !in tags
      ensures old(KeysMatchOffsets()) ==> KeysMatchOffsets()
      ensures name == old(name) && lengths == old(lengths) && holds == old(holds)
    {
      tags := Erase(tags, offsets);
    }

    /** get_chunk_tag(offsets): the stored tag, or the process ends (exit(1)) on a miss. */
    function GetChunkTag(offsets: seq<Size>): (r: Lookup<ChunkTag>)
      reads this
      ensures r.Found? <==> offsets in tags
      ensures r.Found? ==> r.value == tags[offsets]
      ensures r.Found? && KeysMatchOffsets() ==> r.value.offsets == offsets
    {
      if offsets in tags then Found(tags[offsets]) else Terminated
    }

    /** lock(): the Data_Tag's own mutex, then every stored tag's, one entry at a time. */
    method Lock()
      modifies this
      ensures holds == old(holds) + 1 && tags == LockedTags(old(tags))
      ensures name == old(name) && lengths == old(lengths)
    {
      holds := holds + 1;
      var todo := tags.Keys;
      while todo != {}
        invariant todo <= tags.Keys == old(tags).Keys
        invariant forall k :: k in tags ==>
          tags[k] == if k in todo then old(tags)[k] else ChunkTags.Lock(old(tags)[k])
        invariant holds == old(holds) + 1 && name == old(name) && lengths == old(lengths)
        decreases |todo|
      {
        var k :| k in todo;
        tags := tags[k := ChunkTags.Lock(tags[k])];
        todo := todo - {k};
      }
    }

    /** unlock(): every stored tag's mutex, one entry at a time, then the Data_Tag's own. Every
        count released must be held. */
    method Unlock()
      requires holds > 0 && AllHeld(tags)
      modifies this
      ensures holds == old(holds) - 1 && tags == UnlockedTags(old(tags))
      ensures name == old(name) && lengths == old(lengths)
    {
      var todo := tags.Keys;
      while todo != {}
        invariant todo <= tags.Keys == old(tags).Keys
        invariant forall k :: k in tags ==>
          tags[k] == if k in todo then old(tags)[k] else ChunkTags.Unlock(old(tags)[k])
        invariant holds == old(holds) && name == old(name) && lengths == old(lengths)
        decreases |todo|
      {
        var k :| k in todo;
        tags := tags[k := ChunkTags.Unlock(tags[k])];
        todo := todo - {k};
      }
      holds := holds - 1;
    }

    /** size(): the product of lengths_ in size_t. */
    method Size() returns (sz: Size)
      ensures sz == Product(lengths) % SIZE_MOD
      ensures lengths == [] ==> sz == 1
    {
      sz := ComputeSize(lengths);
    }
  }
}
