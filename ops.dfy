/** The point-to-point operations of the lowest layer: the id check, the choice of role in
    send_recv and async_send_recv, and barrier. A communicator is reduced to its task count and the
    calling task's id; the MPI calls are replaced by their outcomes, and `mpi` says which build
    is modelled. A task's memory is one flat byte array indexed by address. */
module Ops {
  import opened Common
  import opened Utility

  datatype Comm = Comm(numTasks: int, taskId: int)

  /** What the calling task does in a transfer from src_id to dest_id. */
  datatype Role = SelfCopy | Sender | Receiver | Bystander

  /** The ids pass the check: each must be below num_tasks. Negative ids are not rejected. */
  predicate IdsValid(comm: Comm, destId: int, srcId: int)
  {
    destId < comm.numTasks && srcId < comm.numTasks
  }

  /** The id check followed by the branch chain of the MPI build: an invalid id ends the process
      (exit(1)); otherwise the calling task copies locally, sends, receives or stands by. */
  function SelectRole(comm: Comm, destId: int, srcId: int): (r: Lookup<Role>)
    ensures r == Terminated <==> !IdsValid(comm, destId, srcId)
    ensures r == Found(SelfCopy) <==>
      IdsValid(comm, destId, srcId) && srcId == destId == comm.taskId
    ensures r == Found(Sender) <==>
      IdsValid(comm, destId, srcId) && comm.taskId == srcId && destId != srcId
    ensures r == Found(Receiver) <==>
      IdsValid(comm, destId, srcId) && comm.taskId == destId && comm.taskId != srcId
    ensures r == Found(Bystander) <==>
      IdsValid(comm, destId, srcId) && comm.taskId != srcId && comm.taskId != destId
  {
    if destId >= comm.numTasks then Terminated
    else if srcId >= comm.numTasks then Terminated
    else if srcId == destId && comm.taskId == srcId then Found(SelfCopy)
    else if comm.taskId == srcId then Found(Sender)
    else if comm.taskId == destId then Found(Receiver)
    else Found(Bystander)
  }

  /** Ids below zero pass the check whenever the communicator has a task count of zero or more. */
  lemma NegativeIdsPass(comm: Comm, destId: int, srcId: int)
    requires destId < 0 && srcId < 0 && comm.numTasks >= 0
    ensures SelectRole(comm, destId, srcId).Found?
  {
  }

  /** barrier(comm): BEO_SUCCESS without MPI; with MPI, MPI_Barrier's outcome. */
  function Barrier(mpi: bool, barrierOk: bool): (r: int)
    ensures r == SUCCESS || r == FAIL
    ensures !mpi ==> r == SUCCESS
    ensures r == FAIL <==> mpi && !barrierOk
  {
    if mpi then (if barrierOk then SUCCESS else FAIL) else SUCCESS
  }

  /** How a call of send_recv ends: it returns a status, the process exits (exit(1)), or the
      call never returns. */
  datatype Completion = Returns(status: int) | Exits | Hangs

  /** Whether the calling task copies the bytes itself: always without MPI, and with MPI only
      when it is both the source and the destination. */
  predicate CopiesLocally(mpi: bool, comm: Comm, destId: int, srcId: int)
  {
    !mpi || SelectRole(comm, destId, srcId) == Found(SelfCopy)
  }

  /** send_recv: after the id check, the build without MPI always copies with beo::memmove; the
      MPI build copies locally only when the task is both ends, and otherwise sends (src is only
      read), receives `incoming` into dest (when MPI_Recv succeeds), or does nothing.
      `transferOk` is the outcome of MPI_Send or MPI_Recv. The local copy is beo::memmove as
      written, so it never returns when dest != src and the two ranges can alias. */
  method SendRecv(mpi: bool, comm: Comm, mem: array<bv8>, dest: Size, src: Size, bytes: Size,
                  destId: int, srcId: int, transferOk: bool, incoming: seq<bv8>)
    returns (r: Completion)
    requires dest + bytes <= mem.Length && src + bytes <= mem.Length && |incoming| == bytes
    modifies mem
    ensures !IdsValid(comm, destId, srcId) ==> r == Exits && mem[..] == old(mem[..])
    ensures IdsValid(comm, destId, srcId) && CopiesLocally(mpi, comm, destId, srcId) ==>
      (r == Hangs <==> !MemmoveReturns(dest, src, bytes))
    ensures IdsValid(comm, destId, srcId) && CopiesLocally(mpi, comm, destId, srcId) &&
            MemmoveReturns(dest, src, bytes) ==>
      r == Returns(SUCCESS) && mem[dest..dest + bytes] == old(mem[src..src + bytes]) &&
      mem[..dest] == old(mem[..dest]) && mem[dest + bytes..] == old(mem[dest + bytes..])
    ensures r == Hangs ==> mem[..] == old(mem[..])
    ensures mpi && SelectRole(comm, destId, srcId) == Found(Sender) ==>
      r == Returns(if transferOk then SUCCESS else FAIL) && mem[..] == old(mem[..])
    ensures mpi && SelectRole(comm, destId, srcId) == Found(Receiver) ==>
      r == Returns(if transferOk then SUCCESS else FAIL) &&
      mem[..dest] == old(mem[..dest]) && mem[dest + bytes..] == old(mem[dest + bytes..]) &&
      mem[dest..dest + bytes] == (if transferOk then incoming else old(mem[dest..dest + bytes]))
    ensures mpi && SelectRole(comm, destId, srcId) == Found(Bystander) ==>
      r == Returns(SUCCESS) && mem[..] == old(mem[..])
  {
    var role := SelectRole(comm, destId, srcId);
    if role == Terminated {
      return Exits;
    }
    if !mpi || role == Found(SelfCopy) {
      var status := MemmoveOnMemory(mem, dest, src, bytes);
      return if status.Some? then Returns(status.value) else Hangs;
    }
    if role == Found(Sender) {
      r := Returns(if transferOk then SUCCESS else FAIL);
    } else if role == Found(Receiver) {
      if transferOk {
        forall i | dest <= i < dest + bytes {
          mem[i] := incoming[i - dest];
        }
      }
      r := Returns(if transferOk then SUCCESS else FAIL);
    } else {
      r := Returns(SUCCESS);
    }
  }

  /** The build without MPI, one task, a copy of 8 bytes from address 0 to address 4: the
      ranges overlap, so send_recv never returns. */
  lemma OverlappingLocalCopyHangs()
    ensures CopiesLocally(false, Comm(1, 0), 0, 0) && IdsValid(Comm(1, 0), 0, 0)
    ensures !MemmoveReturns(4, 0, 8)
    ensures forall fuel: nat :: MemmoveAsWritten(fuel, 4, 0, 8) == None
  {
  }

  /** What a request returned by async_send_recv stands for. */
  datatype Transfer = Send | Receive | LocalCopy
  datatype Request = NullRequest | Pending(transfer: Transfer)

  /** async_send_recv: the same id check; without MPI a request for the memmove launched with
      std::async; with MPI a null request when the task is both ends or a bystander, and a
      pending Isend or Irecv otherwise, a failed post (`postOk` false) ending the process. */
  function AsyncSendRecv(mpi: bool, comm: Comm, destId: int, srcId: int, postOk: bool): (r: Lookup<Request>)
    ensures !IdsValid(comm, destId, srcId) ==> r == Terminated
    ensures IdsValid(comm, destId, srcId) && !mpi ==> r == Found(Pending(LocalCopy))
    ensures mpi ==> (r == Found(NullRequest) <==>
      SelectRole(comm, destId, srcId) == Found(SelfCopy) ||
      SelectRole(comm, destId, srcId) == Found(Bystander))
    ensures mpi && SelectRole(comm, destId, srcId) == Found(Sender) ==>
      r == if postOk then Found(Pending(Send)) else Terminated
    ensures mpi && SelectRole(comm, destId, srcId) == Found(Receiver) ==>
      r == if postOk then Found(Pending(Receive)) else Terminated
  {
    match SelectRole(comm, destId, srcId)
    case Terminated => Terminated
    case Found(role) =>
      if !mpi then Found(Pending(LocalCopy))
      else match role
        case SelfCopy => Found(NullRequest)
        case Sender => if postOk then Found(Pending(Send)) else Terminated
        case Receiver => if postOk then Found(Pending(Receive)) else Terminated
        case Bystander => Found(NullRequest)
  }

  /** In the MPI build with successful posts the asynchronous call ends the process exactly when
      the blocking one does, and leaves a transfer pending exactly for the sender and the
      receiver, in the same direction the blocking call would move the bytes. */
  lemma AsyncMatchesBlocking(comm: Comm, destId: int, srcId: int)
    ensures AsyncSendRecv(true, comm, destId, srcId, true).Terminated? <==>
      SelectRole(comm, destId, srcId).Terminated?
    ensures AsyncSendRecv(true, comm, destId, srcId, true) == Found(Pending(Send)) <==>
      SelectRole(comm, destId, srcId) == Found(Sender)
    ensures AsyncSendRecv(true, comm, destId, srcId, true) == Found(Pending(Receive)) <==>
      SelectRole(comm, destId, srcId) == Found(Receiver)
  {
  }
}
