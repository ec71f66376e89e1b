/** beo::Chunk of the src/Data revision: a status flag, the chunk's offsets, lengths and strides,
    and the hold count of its recursive mutex. Chunks are stored by value in a Data's vector, so a
    chunk is a Dafny value; constructors, assignments and set_status are functions returning the
    new chunk. */
module DataChunks {
  import opened Common

  datatype DataChunk = DataChunk(
    status: Status, offsets: seq<Size>, lengths: seq<Size>, strides: seq<Size>, holds: nat)

  /** Two chunks describe the same block of data. */
  predicate SameGeometry(a: DataChunk, b: DataChunk)
  {
    a.offsets == b.offsets && a.lengths == b.lengths && a.strides == b.strides
  }

  /** The empty constructor: status u, no geometry. */
  function Empty(): (c: DataChunk)
    ensures c.status == U && c.offsets == [] && c.lengths == [] && c.strides == [] && c.holds == 0
  {
    DataChunk(U, [], [], [], 0)
  }

  /** The constructors from (offsets, lengths, strides), by const reference or by rvalue alike:
      exactly those vectors, status u. */
  function Make(offsets: seq<Size>, lengths: seq<Size>, strides: seq<Size>): (c: DataChunk)
    ensures c.status == U && c.holds == 0
    ensures c.offsets == offsets && c.lengths == lengths && c.strides == strides
  {
    DataChunk(U, offsets, lengths, strides, 0)
  }

  /** The copy constructor: the source's geometry, but status f whatever the source's status,
      and a fresh mutex. */
  function Copy(other: DataChunk): (c: DataChunk)
    ensures SameGeometry(c, other) && c.status == F && c.holds == 0
  {
    DataChunk(F, other.offsets, other.lengths, other.strides, 0)
  }

  /** The move constructor: the new chunk takes the source's status and vectors; the source
      keeps its status (an enum is copied by a move) and is left with empty vectors. */
  function Move(other: DataChunk): (r: (DataChunk, DataChunk))
    ensures SameGeometry(r.0, other) && r.0.status == other.status && r.0.holds == 0
    ensures r.1 == DataChunk(other.status, [], [], [], other.holds)
  {
    (DataChunk(other.status, other.offsets, other.lengths, other.strides, 0),
     DataChunk(other.status, [], [], [], other.holds))
  }

  /** Copy assignment `self = other`: self takes other's status and geometry and keeps its own
      mutex. On self-assignment the guard returns before any change, which gives the same value. */
  function CopyAssign(self: DataChunk, other: DataChunk): (c: DataChunk)
    ensures SameGeometry(c, other) && c.status == other.status && c.holds == self.holds
  {
    other.(holds := self.holds)
  }

  /** Move assignment `self = std::move(other)` between two distinct chunks: self takes status and
      geometry; other keeps its status and is left with empty vectors. */
  function MoveAssign(self: DataChunk, other: DataChunk): (r: (DataChunk, DataChunk))
    ensures SameGeometry(r.0, other) && r.0.status == other.status && r.0.holds == self.holds
    ensures r.1 == DataChunk(other.status, [], [], [], other.holds)
  {
    (other.(holds := self.holds), other.(offsets := [], lengths := [], strides := []))
  }

  /** set_status(s): only the status changes. */
  function SetStatus(c: DataChunk, s: Status): (r: DataChunk)
    ensures r.status == s && SameGeometry(r, c) && r.holds == c.holds
  {
    c.(status := s)
  }

  /** Self-assignment changes nothing; a status set is read back by status(), a later set
      overrides an earlier one, and setting the status a chunk already has changes nothing. */
  lemma AssignAndStatusLaws(c: DataChunk, s: Status, t: Status)
    ensures CopyAssign(c, c) == c
    ensures SetStatus(c, s).status == s
    ensures SetStatus(SetStatus(c, s), t) == SetStatus(c, t)
    ensures SetStatus(c, c.status) == c
  {
  }

  /** Copying then moving a chunk carries status f; moving then copying it also gives status f:
      only the copy constructor decides the status. */
  lemma CopyDecidesStatus(c: DataChunk)
    ensures Move(Copy(c)).0.status == F && Copy(Move(c).0).status == F
    ensures SameGeometry(Move(Copy(c)).0, c) && SameGeometry(Copy(Move(c).0), c)
    ensures Copy(c).status == c.status <==> c.status == F
  {
  }

  function Lock(c: DataChunk): (r: DataChunk)
    ensures r.holds == c.holds + 1 && r.status == c.status && SameGeometry(r, c)
  {
    c.(holds := c.holds + 1)
  }

  function Unlock(c: DataChunk): (r: DataChunk)
    requires c.holds > 0
    ensures r.holds == c.holds - 1 && r.status == c.status && SameGeometry(r, c)
  {
    c.(holds := c.holds - 1)
  }

  /** ndim(): the number of lengths. */
  function Ndim(c: DataChunk): nat
  {
    |c.lengths|
  }

  /** size(): the product of the lengths in size_t, 1 without lengths. */
  method Size(c: DataChunk) returns (sz: Size)
    ensures sz == Product(c.lengths) % SIZE_MOD
    ensures c.lengths == [] ==> sz == 1
    ensures Product(c.lengths) < SIZE_MOD ==> sz == Product(c.lengths)
  {
    sz := ComputeSize(c.lengths);
  }

  /** A chunk has as many dimensions as lengths, a copy has the size and dimension count of its
      source, and a chunk of size 0 has a zero length. */
  lemma ShapeOfCopies(c: DataChunk)
    ensures Ndim(Copy(c)) == Ndim(c) == |c.lengths|
    ensures Product(Copy(c).lengths) == Product(c.lengths)
    ensures Product(c.lengths) == 0 <==> exists i :: 0 <= i < |c.lengths| && c.lengths[i] == 0
  {
    ProductZeroIff(c.lengths);
  }
}
