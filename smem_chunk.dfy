/** beo::Chunk<T> of smem_nodes: a status flag and a base value of type T. Chunks are stored by
    value in a Data<T>'s vector, so a chunk is a Dafny value; constructors and set_status are
    functions returning the new chunk. */
module SmemChunks {
  import opened Common

  datatype Chunk<T> = Chunk(status: Status, base: T)

  /** The empty constructor: status u; the base is T's default value, given as `init`. */
  function Default<T>(init: T): (c: Chunk<T>)
    ensures c.status == U && c.base == init
  {
    Chunk(U, init)
  }

  /** Chunk(const T&): the base is a copy of the argument and the status is f. */
  function FromValue<T>(x: T): (c: Chunk<T>)
    ensures c.status == F && c.base == x
  {
    Chunk(F, x)
  }

  /** Chunk(Chunk<T>&), the copy constructor: the source's base, status f whatever the source's. */
  function CopyOf<T>(other: Chunk<T>): (c: Chunk<T>)
    ensures c.base == other.base && c.status == F
  {
    Chunk(F, other.base)
  }

  /** Chunk(Chunk<T>&&), the move constructor: takes the base and the status. The source keeps
      its status and is left with its base in the moved-from state `leftover`. */
  function MoveOf<T>(other: Chunk<T>, leftover: T): (r: (Chunk<T>, Chunk<T>))
    ensures r.0 == other
    ensures r.1.status == other.status && r.1.base == leftover
  {
    (other, other.(base := leftover))
  }

  /** operator=(const T&) and operator=(T&&): the base takes the value and the status is kept.
      Neither body returns *this; the model gives the chunk's new value. */
  function AssignValue<T>(c: Chunk<T>, x: T): (r: Chunk<T>)
    ensures r.base == x && r.status == c.status
  {
    c.(base := x)
  }

  /** operator=(Chunk<T>&) between two distinct chunks: base and status both come from other,
      which is left as it was. There is no self-assignment guard: `c = c` locks the same
      non-recursive std::mutex twice, which is undefined behaviour (a deadlock in practice), and
      a value cannot tell a chunk from an equal copy, so that case is not modelled. */
  function Assign<T>(c: Chunk<T>, other: Chunk<T>): (r: Chunk<T>)
    ensures r.base == other.base && r.status == other.status
  {
    other
  }

  /** operator=(Chunk<T>&&) between two distinct chunks: base and status move over; other keeps
      its status (an enum is copied by a move) and is left with its base in the moved-from state
      `leftover`. The same self-assignment caveat applies. */
  function MoveAssign<T>(c: Chunk<T>, other: Chunk<T>, leftover: T): (r: (Chunk<T>, Chunk<T>))
    ensures r.0.base == other.base && r.0.status == other.status
    ensures r.1.base == leftover && r.1.status == other.status
  {
    (other, other.(base := leftover))
  }

  /** Move assignment leaves the target as copy assignment does and the source as the move
      constructor does; the chunk it produces is the one the move constructor produces. */
  lemma MoveAssignLaws<T>(c: Chunk<T>, other: Chunk<T>, leftover: T)
    ensures MoveAssign(c, other, leftover).0 == Assign(c, other) == MoveOf(other, leftover).0
    ensures MoveAssign(c, other, leftover).1 == MoveOf(other, leftover).1
    ensures MoveAssign(c, other, leftover).1 == AssignValue(other, leftover)
  {
  }

  /** set_status(s): only the status changes. */
  function SetStatus<T>(c: Chunk<T>, s: Status): (r: Chunk<T>)
    ensures r.status == s && r.base == c.base
  {
    c.(status := s)
  }

  /** status() reads back what set_status wrote, the last write wins, a move keeps the status
      while a copy resets it to f, and only a move preserves a chunk exactly. Assignment, unlike
      the copy constructor, carries the status over, and assigning a value leaves it alone. */
  lemma StatusLaws<T>(c: Chunk<T>, s: Status, t: Status, leftover: T)
    ensures SetStatus(c, s).status == s
    ensures SetStatus(SetStatus(c, s), t) == SetStatus(c, t)
    ensures MoveOf(SetStatus(c, s), leftover).0.status == s
    ensures CopyOf(SetStatus(c, s)).status == F
    ensures CopyOf(c) == c <==> c.status == F
    ensures Assign(c, SetStatus(c, s)).status == s && AssignValue(SetStatus(c, s), leftover).status == s
    ensures Assign(Default(leftover), c) == MoveOf(c, leftover).0
  {
  }
}
