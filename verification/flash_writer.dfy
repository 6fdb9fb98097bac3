/**
 The firmware-update writer task (firmware/src/tasks/flash_writer.rs).

 `Step` says what one received command does to the writer and to the DFU partition;
 class `FlashWriterTask` is the firmware task itself, and its methods are proved against `Step`.
 Every flash operation may fail: a `FlashEnv` says which do, and a failed operation
 leaves arbitrary bytes (`debris`) in the region it was working on.
 */
module FlashWriter {
  import opened Common

  /** FLASH_WRITE_BLOCK_SIZE and FLASH_ERASE_BLOCK_SIZE */
  const BLOCK: nat := 4096
  const ERASED: Byte := 0xFF

  datatype UpdateState = Idle | Preparing | Updating | ReadyToCommit | WriteError | ProtocolError | Complete

  datatype Command =
    | StartUpdate(totalSize: U32)
    | WriteBlock(blockNum: U16, data: seq<Byte>)
    | Commit
    | Abort

  /** The state kept by the boot loader; `OtherState` stands for anything that is not a booted state. */
  datatype BootState = Boot | DfuDetach | Revert | Swap | OtherState

  /** The counters are u16 and u32 in the source; `FlashWriterRuns.CountersStayInRange` shows they never wrap. */
  datatype Status = Status(
    state: UpdateState,
    blocksReceived: nat,
    offset: nat,
    totalSize: U32,
    totalNumBlocks: U16,
    errorDetails: Option<string>)

  datatype FlashEnv = FlashEnv(
    bootState: Option<BootState>,  // None: the state could not be read
    eraseFailsAt: nat,             // index of the first erase chunk that fails
    writeOk: bool,
    markOk: bool,
    debris: int -> Byte)

  /** `marks` logs the outcome of every call of mark_updated; `panicked` is set when a slice index is out of range. */
  datatype World = World(status: Status, flash: seq<Byte>, marks: seq<bool>, panicked: bool)

  const IDLE: Status := Status(Idle, 0, 0, 0, 0, None)

  /** total_size.div_ceil(4096) as u16: the cast drops the high bits. */
  function NumBlocks(totalSize: U32): U16 {
    (totalSize + BLOCK - 1) / BLOCK % 0x1_0000
  }

  /** Bitwise and of two numbers of `bits` bits. */
  function And(bits: nat, a: nat, b: nat): (r: nat)
    ensures r <= b
  {
    if bits == 0 then 0
    else 2 * And(bits - 1, a / 2, b / 2) + (if a % 2 == 1 then b % 2 else 0)
  }

  /** Programming NOR flash can only clear bits. */
  function Program(cell: Byte, b: Byte): Byte {
    And(8, cell, b)
  }

  function Pow2(bits: nat): nat {
    if bits == 0 then 1 else 2 * Pow2(bits - 1)
  }

  lemma {:induction false} AndAllOnes(bits: nat, b: nat)
    requires b < Pow2(bits)
    ensures And(bits, Pow2(bits) - 1, b) == b
  {
    if bits > 0 {
      var half := Pow2(bits - 1);
      assert (2 * half - 1) / 2 == half - 1 && (2 * half - 1) % 2 == 1;
      assert b == 2 * (b / 2) + b % 2;
      AndAllOnes(bits - 1, b / 2);
    }
  }

  lemma {:induction false} ProgramErased(b: Byte)
    ensures Program(ERASED, b) == b
  {
    assert Pow2(8) == 256;
    AndAllOnes(8, b);
  }

  function Debris(env: FlashEnv, i: int): Byte {
    env.debris(i)
  }

  // ---------------------------------------------------------------- flash operations

  predicate PrepareOk(capacity: nat, env: FlashEnv) {
    && env.bootState.Some?
    && !env.bootState.value.OtherState?
    && capacity <= env.eraseFailsAt * BLOCK
  }

  function EraseError(env: FlashEnv): string {
    if env.bootState.None? then "Failed to get firmware state"
    else if env.bootState.value.OtherState? then "Firmware is not in a booted state"
    else "Flash erase failed"
  }

  /** The partition after the chunk-wise erase: erased up to the failing chunk, debris there, untouched beyond. */
  function Erase(flash: seq<Byte>, env: FlashEnv): (r: seq<Byte>)
    ensures |r| == |flash|
  {
    if env.bootState.None? || env.bootState.value.OtherState? then
      flash
    else
      seq<Byte>(|flash|, i requires 0 <= i < |flash| =>
        if i / BLOCK < env.eraseFailsAt then ERASED
        else if i / BLOCK == env.eraseFailsAt then Debris(env, i)
        else flash[i])
  }

  predicate InPartition(capacity: nat, blockNum: U16) {
    BLOCK * blockNum + BLOCK <= capacity
  }

  /** Byte `i` of the zero-filled 4096-byte write buffer. */
  function Padded(data: seq<Byte>, i: nat): Byte {
    if i < |data| then data[i] else 0
  }

  function ProgramBlock(flash: seq<Byte>, blockNum: U16, data: seq<Byte>): (r: seq<Byte>)
    ensures |r| == |flash|
  {
    seq<Byte>(|flash|, i requires 0 <= i < |flash| =>
      if BLOCK * blockNum <= i < BLOCK * blockNum + BLOCK
      then Program(flash[i], Padded(data, i - BLOCK * blockNum))
      else flash[i])
  }

  function ScatterDebris(flash: seq<Byte>, blockNum: U16, env: FlashEnv): (r: seq<Byte>)
    ensures |r| == |flash|
  {
    seq<Byte>(|flash|, i requires 0 <= i < |flash| =>
      if BLOCK * blockNum <= i < BLOCK * blockNum + BLOCK then Debris(env, i) else flash[i])
  }

  // ---------------------------------------------------------------- one command

  function Start(w: World, totalSize: U32, env: FlashEnv): World {
    var status := Status(Preparing, 0, 0, totalSize, NumBlocks(totalSize), None);
    w.(flash := Erase(w.flash, env),
       status := if PrepareOk(|w.flash|, env) then status.(state := Updating)
                 else status.(state := WriteError, errorDetails := Some(EraseError(env))))
  }

  function Reject(w: World, details: string): World {
    w.(status := w.status.(state := ProtocolError, errorDetails := Some(details)))
  }

  function AcceptBlock(w: World, blockNum: U16, data: seq<Byte>, env: FlashEnv): World {
    if BLOCK < |data| then w.(panicked := true)
    else if !InPartition(|w.flash|, blockNum) then
      w.(status := w.status.(state := WriteError, errorDetails := Some("Flash write failed")))
    else if !env.writeOk then
      w.(flash := ScatterDebris(w.flash, blockNum, env),
         status := w.status.(state := WriteError, errorDetails := Some("Flash write failed")))
    else
      var received := w.status.blocksReceived + 1;
      w.(flash := ProgramBlock(w.flash, blockNum, data),
         status := w.status.(
           blocksReceived := received,
           offset := w.status.offset + |data|,
           state := if received >= w.status.totalNumBlocks then ReadyToCommit else Updating))
  }

  /** The caller of commit_update sets Complete whatever mark_updated returned. */
  function CommitUpdate(w: World, env: FlashEnv): World {
    w.(marks := w.marks + [env.markOk],
       status := if env.markOk then IDLE.(state := Complete)
                 else w.status.(state := Complete, errorDetails := Some("Failed to commit update")))
  }

  function Step(w: World, cmd: Command, env: FlashEnv): World {
    if w.panicked then w
    else match w.status.state
      case Idle | Complete =>
        (match cmd
         case StartUpdate(size) => Start(w, size, env)
         case Abort => w.(status := IDLE)
         case _ => Reject(w, "Invalid request in idle state"))
      case Updating =>
        (match cmd
         case StartUpdate(size) => Start(w, size, env)
         case WriteBlock(num, data) => AcceptBlock(w, num, data, env)
         case Abort => w.(status := IDLE)
         case Commit => Reject(w, "Invalid request in updating state"))
      case ReadyToCommit =>
        (match cmd
         case StartUpdate(size) => Start(w, size, env)
         case Abort => w.(status := IDLE)
         case WriteBlock(_, _) => Reject(w, "Invalid request in ready to commit state")
         case Commit => CommitUpdate(w, env))
      case Preparing | WriteError | ProtocolError =>
        (match cmd
         case StartUpdate(size) => Start(w, size, env)
         case Abort => w.(status := IDLE)
         case _ => Reject(w, "Invalid request in error state"))
  }

  // ---------------------------------------------------------------- the firmware task

  datatype WriteResult = Wrote | WriteFailed(error: string) | SlicePanic

  class FlashWriterTask {
    var status: Status
    var marks: seq<bool>
    var panicked: bool
    const dfu: array<Byte>

    constructor (partition: array<Byte>)
      ensures dfu == partition
      ensures Snapshot() == World(IDLE, partition[..], [], false)
    {
      dfu := partition;
      status, marks, panicked := IDLE, [], false;
    }

    ghost function Snapshot(): World
      reads this, dfu
    {
      World(status, dfu[..], marks, panicked)
    }

    method PrepareUpdate(env: FlashEnv) returns (error: Option<string>)
      modifies dfu
      ensures dfu[..] == Erase(old(dfu[..]), env)
      ensures error == if PrepareOk(dfu.Length, env) then None else Some(EraseError(env))
    {
      if env.bootState.None? {
        return Some("Failed to get firmware state");
      }
      if env.bootState.value.OtherState? {
        return Some("Firmware is not in a booted state");
      }
      var offset, eraseSize := 0, dfu.Length;
      ghost var chunk: nat := 0;
      while eraseSize > 0
        invariant offset + eraseSize == dfu.Length && eraseSize >= 0
        invariant chunk <= env.eraseFailsAt
        invariant offset == chunk * BLOCK || (eraseSize == 0 && offset <= chunk * BLOCK)
        invariant forall i :: 0 <= i < offset ==> dfu[i] == ERASED
        invariant forall i :: 0 <= i < offset ==> i / BLOCK < chunk
        invariant forall i :: offset <= i < dfu.Length ==> dfu[i] == old(dfu[i])
        decreases eraseSize
      {
        var chunkSize := Min(eraseSize, BLOCK);
        assert forall i :: offset <= i < offset + chunkSize ==> i / BLOCK == chunk;
        assert forall i :: offset + chunkSize <= i < dfu.Length ==> i / BLOCK > chunk;
        if offset == env.eraseFailsAt * BLOCK {
          assert chunk == env.eraseFailsAt;
          forall i | offset <= i < offset + chunkSize {
            dfu[i] := Debris(env, i);
          }
          return Some("Flash erase failed");
        }
        forall i | offset <= i < offset + chunkSize {
          dfu[i] := ERASED;
        }
        offset, eraseSize := offset + chunkSize, eraseSize - chunkSize;
        chunk := chunk + 1;
      }
      return None;
    }

    method WriteToPartition(blockNum: U16, data: seq<Byte>, env: FlashEnv) returns (r: WriteResult)
      modifies dfu
      ensures r.SlicePanic? <==> BLOCK < |data|
      ensures r.Wrote? <==> |data| <= BLOCK && InPartition(dfu.Length, blockNum) && env.writeOk
      ensures r.WriteFailed? ==> r.error == "Flash write failed"
      ensures dfu[..] ==
        if r.Wrote? then ProgramBlock(old(dfu[..]), blockNum, data)
        else if r.WriteFailed? && InPartition(dfu.Length, blockNum) then ScatterDebris(old(dfu[..]), blockNum, env)
        else old(dfu[..])
    {
      var offset := BLOCK * blockNum;
      var buf := new Byte[BLOCK](_ => 0);
      if BLOCK < |data| {
        return SlicePanic;
      }
      forall i | 0 <= i < |data| {
        buf[i] := data[i];
      }
      assert forall i :: 0 <= i < BLOCK ==> buf[i] == Padded(data, i);
      if dfu.Length < offset + BLOCK {
        return WriteFailed("Flash write failed");
      }
      if !env.writeOk {
        forall i | offset <= i < offset + BLOCK {
          dfu[i] := Debris(env, i);
        }
        return WriteFailed("Flash write failed");
      }
      forall i | offset <= i < offset + BLOCK {
        dfu[i] := Program(dfu[i], buf[i - offset]);
      }
      return Wrote;
    }

    method StartUpdateSession(totalSize: U32, env: FlashEnv)
      modifies this, dfu
      ensures Snapshot() == Start(old(Snapshot()), totalSize, env)
    {
      status := Status(Preparing, 0, 0, totalSize, NumBlocks(totalSize), None);
      var error := PrepareUpdate(env);
      if error.None? {
        status := status.(state := Updating);
      } else {
        status := status.(state := WriteError, errorDetails := error);
      }
    }

    method HandleCommand(cmd: Command, env: FlashEnv)
      modifies this, dfu
      ensures Snapshot() == Step(old(Snapshot()), cmd, env)
    {
      if panicked {
        return;
      }
      match cmd {
        case StartUpdate(size) =>
          StartUpdateSession(size, env);
        case Abort =>
          status := IDLE;
        case WriteBlock(num, data) =>
          if status.state == Updating {
            var r := WriteToPartition(num, data, env);
            match r {
              case SlicePanic =>
                panicked := true;
              case WriteFailed(error) =>
                status := status.(state := WriteError, errorDetails := Some(error));
              case Wrote =>
                status := status.(blocksReceived := status.blocksReceived + 1);
                status := status.(offset := status.offset + |data|);
                if status.blocksReceived >= status.totalNumBlocks {
                  status := status.(state := ReadyToCommit);
                }
            }
          } else {
            RejectRequest();
          }
        case Commit =>
          if status.state == ReadyToCommit {
            marks := marks + [env.markOk];
            if env.markOk {
              status := IDLE.(state := Complete);
            } else {
              status := status.(state := WriteError, errorDetails := Some("Failed to commit update"));
            }
            status := status.(state := Complete);
          } else {
            RejectRequest();
          }
      }
    }

    method RejectRequest()
      modifies this`status
      ensures status.state == ProtocolError
      ensures status == old(status).(state := ProtocolError, errorDetails := status.errorDetails)
      ensures status.errorDetails == Some(match old(status.state)
        case Idle | Complete => "Invalid request in idle state"
        case Updating => "Invalid request in updating state"
        case ReadyToCommit => "Invalid request in ready to commit state"
        case _ => "Invalid request in error state")
    {
      var details := match status.state
        case Idle | Complete => "Invalid request in idle state"
        case Updating => "Invalid request in updating state"
        case ReadyToCommit => "Invalid request in ready to commit state"
        case _ => "Invalid request in error state";
      status := status.(state := ProtocolError, errorDetails := Some(details));
    }
  }
}
