/** beo::Data of the src/Data revision: a named data set with its lengths and a std::vector of
    chunks. The vector's capacity is part of the state because it decides when the vector
    relocates its elements. Chunk's move constructor is not noexcept while its copy constructor
    exists, so std::vector relocates by copying, and a copied chunk has status f and a fresh
    mutex. The growth policy is libstdc++'s: a full vector of n elements grows to n + max(n, 1). */
module DataSets {
  import opened Common
  import opened DataChunks

  /** Every chunk copy-constructed, as a vector copy or a relocation makes them. */
  function CopiedChunks(s: seq<DataChunk>): (r: seq<DataChunk>)
    ensures |r| == |s|
    ensures forall i :: 0 <= i < |s| ==> SameGeometry(r[i], s[i]) && r[i].status == F && r[i].holds == 0
  {
    seq(|s|, i requires 0 <= i < |s| => Copy(s[i]))
  }

  /** The capacity libstdc++ chooses when a full vector of n elements takes one more. */
  function Grown(n: nat): (cap: nat)
    ensures cap > n
  {
    n + (if n > 1 then n else 1)
  }

  /** push_back/emplace_back of c onto a vector with the given capacity: the new chunk goes last;
      when the vector is full the earlier chunks are first relocated by copying. */
  function Appended(chunks: seq<DataChunk>, cap: nat, c: DataChunk): (r: (seq<DataChunk>, nat))
    requires |chunks| <= cap
    ensures |r.0| == |chunks| + 1 && r.0[|chunks|] == c && |r.0| <= r.1
    ensures forall i :: 0 <= i < |chunks| ==> SameGeometry(r.0[i], chunks[i])
    ensures |chunks| < cap ==> r.0[..|chunks|] == chunks && r.1 == cap
    ensures |chunks| == cap ==> r.0[..|chunks|] == CopiedChunks(chunks) && r.1 == Grown(cap)
  {
    if |chunks| < cap then (chunks + [c], cap) else (CopiedChunks(chunks) + [c], Grown(cap))
  }

  /** The same append with a chunk type whose move constructor is noexcept: relocation moves the
      chunks, so the earlier chunks are never altered. */
  function AppendedByMove(chunks: seq<DataChunk>, cap: nat, c: DataChunk): (r: (seq<DataChunk>, nat))
    requires |chunks| <= cap
    ensures |r.0| == |chunks| + 1 && r.0[|chunks|] == c && |r.0| <= r.1
    ensures r.0[..|chunks|] == chunks
    ensures r.1 == if |chunks| < cap then cap else Grown(cap)
  {
    (chunks + [c], if |chunks| < cap then cap else Grown(cap))
  }

  /** A vector with one chunk of status u and capacity 1 (as the first append to an empty vector
      leaves it) relocates on the next append, and its first chunk's status becomes f. */
  lemma AppendRelocationResetsStatus(o: seq<Size>, l: seq<Size>, s: seq<Size>, c: DataChunk)
    ensures Appended([], 0, Make(o, l, s)) == ([Make(o, l, s)], 1)
    ensures Appended([Make(o, l, s)], 1, c).0[0].status == F
    ensures AppendedByMove([Make(o, l, s)], 1, c).0[0].status == U
  {
  }

  /** Copy assignment of a vector, libstdc++'s way: when the source does not fit the capacity the
      target is rebuilt from copies; otherwise the first min(|self|, |other|) elements are
      copy-assigned (keeping their status from other and their own mutex) and the rest copy-
      constructed. */
  function AssignedChunks(self: seq<DataChunk>, cap: nat, other: seq<DataChunk>): (r: (seq<DataChunk>, nat))
    requires |self| <= cap
    ensures |r.0| == |other| && |r.0| <= r.1
    ensures forall i :: 0 <= i < |other| ==> SameGeometry(r.0[i], other[i])
    ensures |other| > cap ==> r.0 == CopiedChunks(other) && r.1 == |other|
    ensures |other| <= cap ==> r.1 == cap && forall i :: 0 <= i < |other| ==>
      r.0[i] == if i < |self| then CopyAssign(self[i], other[i]) else Copy(other[i])
  {
    if |other| > cap then (CopiedChunks(other), |other|)
    else (seq(|other|, i requires 0 <= i < |other| =>
            if i < |self| then CopyAssign(self[i], other[i]) else Copy(other[i])), cap)
  }

  /** A vector received by move and then released once by unlock() without having been locked:
      a count of 0 (where the unlock is undefined) stays 0. */
  function ReleasedOnce(s: seq<DataChunk>): (r: seq<DataChunk>)
    ensures |r| == |s|
    ensures forall i :: 0 <= i < |s| ==>
      r[i] == s[i].(holds := if s[i].holds > 0 then s[i].holds - 1 else 0)
  {
    seq(|s|, i requires 0 <= i < |s| => s[i].(holds := if s[i].holds > 0 then s[i].holds - 1 else 0))
  }

  function LockedChunks(s: seq<DataChunk>): (r: seq<DataChunk>)
    ensures |r| == |s| && forall i :: 0 <= i < |s| ==> r[i] == DataChunks.Lock(s[i])
  {
    seq(|s|, i requires 0 <= i < |s| => DataChunks.Lock(s[i]))
  }

  ghost predicate AllHeld(s: seq<DataChunk>)
  {
    forall i :: 0 <= i < |s| ==> s[i].holds > 0
  }

  function UnlockedChunks(s: seq<DataChunk>): (r: seq<DataChunk>)
    requires AllHeld(s)
    ensures |r| == |s| && forall i :: 0 <= i < |s| ==> r[i] == DataChunks.Unlock(s[i])
  {
    seq(|s|, i requires 0 <= i < |s| => DataChunks.Unlock(s[i]))
  }

  /** Lock followed by unlock restores every chunk; after a lock every chunk is held. */
  lemma LockUnlockRoundTrip(s: seq<DataChunk>)
    ensures AllHeld(LockedChunks(s))
    ensures UnlockedChunks(LockedChunks(s)) == s
    ensures AllHeld(s) ==> LockedChunks(UnlockedChunks(s)) == s
  {
  }

  class Data {
    var name: string
    var lengths: seq<Size>
    var chunks: seq<DataChunk>
    var capacity: nat
    /** Hold count of the Data's own recursive mutex. */
    var holds: nat

    /** A vector never holds more elements than its capacity. */
    ghost predicate Valid()
      reads this
    {
      |chunks| <= capacity
    }

    constructor ()
      ensures name == "" && lengths == [] && chunks == [] && capacity == 0 && holds == 0
      ensures Valid()
    {
      name := "";
      lengths := [];
      chunks := [];
      capacity := 0;
      holds := 0;
    }

    /** The constructors from a name, by const reference or by rvalue: zero chunks. */
    constructor Named(n: string)
      ensures name == n && lengths == [] && chunks == [] && capacity == 0 && holds == 0
      ensures Valid()
    {
      name := n;
      lengths := [];
      chunks := [];
      capacity := 0;
      holds := 0;
    }

    /** The constructors from a name and a count: zero chunks, room reserved for `num`. */
    constructor NamedReserved(n: string, num: Size)
      ensures name == n && lengths == [] && chunks == [] && capacity == num && holds == 0
      ensures Valid()
    {
      name := n;
      lengths := [];
      chunks := [];
      capacity := num;
      holds := 0;
    }

    /** The constructor from a name and a vector by lvalue reference: the vector is copied into
        the empty one, so every chunk is copy-constructed. */
    constructor FromChunks(n: string, cs: seq<DataChunk>)
      ensures name == n && lengths == [] && chunks == CopiedChunks(cs) && capacity == |cs|
      ensures holds == 0 && Valid()
    {
      name := n;
      lengths := [];
      chunks := CopiedChunks(cs);
      capacity := |cs|;
      holds := 0;
    }

    /** The constructor from a name and a vector by rvalue: the vector (with its capacity) is
        moved in after lock() ran on the empty one, so unlock() releases every chunk once. */
    constructor FromMovedChunks(n: string, cs: seq<DataChunk>, cap: nat)
      requires |cs| <= cap
      ensures name == n && lengths == [] && chunks == ReleasedOnce(cs) && capacity == cap
      ensures holds == 0 && Valid()
    {
      name := n;
      lengths := [];
      chunks := ReleasedOnce(cs);
      capacity := cap;
      holds := 0;
    }

    /** The copy constructor: name, lengths and chunk geometry copied; every chunk has status f. */
    constructor CopyOf(other: Data)
      ensures name == other.name && lengths == other.lengths
      ensures chunks == CopiedChunks(other.chunks) && capacity == |other.chunks|
      ensures holds == 0 && Valid()
    {
      name := other.name;
      lengths := other.lengths;
      chunks := CopiedChunks(other.chunks);
      capacity := |other.chunks|;
      holds := 0;
    }

    /** The move constructor: everything moves over, chunks with their status and counts; the
        source is left empty. */
    constructor MoveOf(other: Data)
      requires other.Valid()
      modifies other
      ensures name == old(other.name) && lengths == old(other.lengths)
      ensures chunks == old(other.chunks) && capacity == old(other.capacity) && holds == 0
      ensures other.name == "" && other.lengths == [] && other.chunks == [] && other.capacity == 0
      ensures other.holds == old(other.holds) && Valid() && other.Valid()
    {
      name := other.name;
      lengths := other.lengths;
      chunks := other.chunks;
      capacity := other.capacity;
      holds := 0;
      new;
      other.name := "";
      other.lengths := [];
      other.chunks := [];
      other.capacity := 0;
    }

    /** Copy assignment: nothing changes on self-assignment; otherwise name and lengths are
        copied and the chunk vector is copy-assigned. */
    method CopyAssign(other: Data)
      requires Valid()
      modifies this
      ensures Valid()
      ensures other == this ==> unchanged(this)
      ensures other != this ==>
        name == other.name && lengths == other.lengths && holds == old(holds) &&
        (chunks, capacity) == AssignedChunks(old(chunks), old(capacity), other.chunks)
    {
      if other == this {
        return;
      }
      name := other.name;
      lengths := other.lengths;
      chunks, capacity := AssignedChunks(chunks, capacity, other.chunks).0,
                          AssignedChunks(chunks, capacity, other.chunks).1;
    }

    /** Move assignment: nothing changes on self-assignment; otherwise everything moves over and
        the source is left empty. */
    method MoveAssign(other: Data)
      requires other.Valid()
      modifies this, other
      ensures other == this ==> unchanged(this)
      ensures other != this ==>
        name == old(other.name) && lengths == old(other.lengths) && chunks == old(other.chunks) &&
        capacity == old(other.capacity) && holds == old(holds) && other.holds == old(other.holds) &&
        other.name == "" && other.lengths == [] && other.chunks == [] && other.capacity == 0
      ensures Valid() && other.Valid()
    {
      if other == this {
        return;
      }
      name, lengths, chunks, capacity := other.name, other.lengths, other.chunks, other.capacity;
      other.name, other.lengths, other.chunks, other.capacity := "", [], [], 0;
    }

    /** reserve(num): a request beyond the capacity relocates the chunks into exactly num slots. */
    method Reserve(num: Size)
      requires Valid()
      modifies this
      ensures Valid() && name == old(name) && lengths == old(lengths) && holds == old(holds)
      ensures num <= old(capacity) ==> chunks == old(chunks) && capacity == old(capacity)
      ensures num > old(capacity) ==> chunks == CopiedChunks(old(chunks)) && capacity == num
    {
      if num > capacity {
        chunks := CopiedChunks(chunks);
        capacity := num;
      }
    }

    /** num_chunks() */
    function NumChunks(): nat
      reads this
    {
      |chunks|
    }

    /** add_chunk(Chunk&) and add_chunk(Chunk&&): both push a copy of the argument, so the new
        last chunk has the argument's geometry and status f. */
    method AddChunk(c: DataChunk)
      requires Valid()
      modifies this
      ensures Valid() && name == old(name) && lengths == old(lengths) && holds == old(holds)
      ensures (chunks, capacity) == Appended(old(chunks), old(capacity), Copy(c))
      ensures NumChunks() == old(NumChunks()) + 1
      ensures SameGeometry(chunks[|chunks| - 1], c) && chunks[|chunks| - 1].status == F
      ensures forall i :: 0 <= i < old(|chunks|) ==> SameGeometry(chunks[i], old(chunks[i]))
      ensures old(|chunks| < capacity) ==> chunks[..|chunks| - 1] == old(chunks)
    {
      var r := Appended(chunks, capacity, Copy(c));
      chunks, capacity := r.0, r.1;
    }

    /** add_chunk(offsets, lengths, strides), by const reference or by rvalue: appends a chunk
        with exactly those vectors and status u. */
    method AddChunkFromParts(offsets: seq<Size>, lens: seq<Size>, strides: seq<Size>)
      requires Valid()
      modifies this
      ensures Valid() && name == old(name) && lengths == old(lengths) && holds == old(holds)
      ensures (chunks, capacity) == Appended(old(chunks), old(capacity), Make(offsets, lens, strides))
      ensures NumChunks() == old(NumChunks()) + 1
      ensures chunks[|chunks| - 1] == Make(offsets, lens, strides)
      ensures forall i :: 0 <= i < old(|chunks|) ==> SameGeometry(chunks[i], old(chunks[i]))
      ensures old(|chunks| < capacity) ==> chunks[..|chunks| - 1] == old(chunks)
    {
      var r := Appended(chunks, capacity, Make(offsets, lens, strides));
      chunks, capacity := r.0, r.1;
    }

    /** add_chunk(Chunk&) as it would behave with a noexcept move constructor on Chunk: the earlier
        chunks are never altered. */
    method AddChunkKeepingEarlier(c: DataChunk)
      requires Valid()
      modifies this
      ensures Valid() && name == old(name) && lengths == old(lengths) && holds == old(holds)
      ensures chunks == old(chunks) + [Copy(c)]
      ensures capacity == if old(|chunks| < capacity) then old(capacity) else Grown(old(capacity))
    {
      var r := AppendedByMove(chunks, capacity, Copy(c));
      chunks, capacity := r.0, r.1;
    }

    /** lock(): the Data's own mutex, then each chunk's, front to back. */
    method Lock()
      modifies this
      ensures holds == old(holds) + 1 && chunks == LockedChunks(old(chunks))
      ensures name == old(name) && lengths == old(lengths) && capacity == old(capacity)
    {
      holds := holds + 1;
      var i := 0;
      while i < |chunks|
        invariant 0 <= i <= |chunks| == |old(chunks)|
        invariant forall j :: 0 <= j < |chunks| ==>
          chunks[j] == if j < i then DataChunks.Lock(old(chunks)[j]) else old(chunks)[j]
        invariant holds == old(holds) + 1 && name == old(name) && lengths == old(lengths)
        invariant capacity == old(capacity)
      {
        chunks := chunks[i := DataChunks.Lock(chunks[i])];
        i := i + 1;
      }
    }

    /** unlock(): each chunk's mutex, front to back, then the Data's own. */
    method Unlock()
      requires holds > 0 && AllHeld(chunks)
      modifies this
      ensures holds == old(holds) - 1 && chunks == UnlockedChunks(old(chunks))
      ensures name == old(name) && lengths == old(lengths) && capacity == old(capacity)
    {
      var i := 0;
      while i < |chunks|
        invariant 0 <= i <= |chunks| == |old(chunks)|
        invariant forall j :: 0 <= j < |chunks| ==>
          chunks[j] == if j < i then DataChunks.Unlock(old(chunks)[j]) else old(chunks)[j]
        invariant holds == old(holds) && name == old(name) && lengths == old(lengths)
        invariant capacity == old(capacity)
      {
        chunks := chunks[i := DataChunks.Unlock(chunks[i])];
        i := i + 1;
      }
      holds := holds - 1;
    }

    /** ndim(): the number of lengths. */
    function Ndim(): nat
      reads this
    {
      |lengths|
    }

    /** size(): the product of lengths_ in size_t, 1 when there are none. */
    method Size() returns (sz: Size)
      ensures sz == Product(lengths) % SIZE_MOD
      ensures lengths == [] ==> sz == 1
    {
      sz := ComputeSize(lengths);
    }
  }
}
