/**
 The DFU write commands of the I2C task (firmware/src/tasks/i2c_secondary.rs): which frames
 become writer commands, and the two sticky error flags. The checksum algorithm is a parameter.
 */
module DfuFrames {
  import opened Common
  import opened FlashWriter

  type Crc32 = seq<Byte> -> U32

  /** The receive buffer: FLASH_WRITE_BLOCK_SIZE + 10 bytes. */
  const MAX_FRAME: nat := BLOCK + 10

  datatype Flags = Flags(crcError: bool, lengthError: bool)

  const CLEAR := Flags(false, false)

  datatype Handled = Handled(flags: Flags, cmd: Option<Command>)

  /** One write of `frame` to the controller; `cmd` is what is sent to the flash writer. */
  function HandleWrite(crc: Crc32, flags: Flags, frame: seq<Byte>): Handled {
    if |frame| < 2 then Handled(flags, None)
    else if frame[0] == 0x40 then
      if |frame| < 5 then Handled(flags.(lengthError := true), None)
      else Handled(CLEAR, Some(StartUpdate(Be32(frame[1], frame[2], frame[3], frame[4]))))
    else if frame[0] == 0x43 then
      if |frame| < 10 then Handled(flags.(lengthError := true), None)
      else if flags != CLEAR then Handled(flags, None)
      else if crc(frame[5..]) != Be32(frame[1], frame[2], frame[3], frame[4]) then
        Handled(flags.(crcError := true), None)
      else if Be16(frame[7], frame[8]) != |frame[9..]| then Handled(flags.(lengthError := true), None)
      else Handled(flags, Some(WriteBlock(Be16(frame[5], frame[6]), frame[9..])))
    else if frame[0] == 0x44 then
      Handled(flags, if flags == CLEAR then Some(Commit) else None)
    else if frame[0] == 0x45 then Handled(flags, Some(Abort))
    else Handled(flags, None)
  }

  class I2cSecondaryTask {
    var dfuCrcError: bool
    var dataLengthError: bool

    constructor ()
      ensures Flags(dfuCrcError, dataLengthError) == CLEAR
    {
      dfuCrcError, dataLengthError := false, false;
    }

    /** `ping` says whether the write also feeds the host watchdog: `continue` skips the ping. */
    method HandleDfuWrite(crc: Crc32, frame: seq<Byte>) returns (cmd: Option<Command>, ping: bool)
      requires |frame| >= 2 ==> frame[0] in {0x40, 0x43, 0x44, 0x45}
      modifies this
      ensures Handled(Flags(dfuCrcError, dataLengthError), cmd) ==
              HandleWrite(crc, old(Flags(dfuCrcError, dataLengthError)), frame)
      ensures ping <==> cmd.Some?
    {
      cmd, ping := None, false;
      if |frame| < 2 {
        return;
      }
      match frame[0] {
        case 0x40 =>
          if |frame| < 5 {
            dataLengthError := true;
            return;
          }
          dfuCrcError, dataLengthError := false, false;
          cmd := Some(StartUpdate(Be32(frame[1], frame[2], frame[3], frame[4])));
        case 0x43 =>
          if |frame| < 10 {
            dataLengthError := true;
            return;
          }
          if dfuCrcError || dataLengthError {
            return;
          }
          dataLengthError := false;
          var checksum := Be32(frame[1], frame[2], frame[3], frame[4]);
          var blockNum := Be16(frame[5], frame[6]);
          var blockLength := Be16(frame[7], frame[8]);
          var data := frame[9..];
          if crc(frame[5..]) != checksum {
            dfuCrcError := true;
            return;
          }
          dfuCrcError := false;
          if blockLength != |data| {
            dataLengthError := true;
            return;
          }
          cmd := Some(WriteBlock(blockNum, data));
        case 0x44 =>
          if dfuCrcError || dataLengthError {
            return;
          }
          cmd := Some(Commit);
        case 0x45 =>
          cmd := Some(Abort);
      }
      ping := true;
    }
  }

  // ---------------------------------------------------------------- the documented frame layout

  function StartFrame(size: U32): seq<Byte> {
    [0x40] + ToBe32(size)
  }

  function BlockFrame(crc: Crc32, blockNum: U16, data: seq<Byte>): seq<Byte>
    requires |data| <= 0xFFFF
  {
    var payload := ToBe16(blockNum) + ToBe16(|data|) + data;
    [0x43] + ToBe32(crc(payload)) + payload
  }

  lemma {:induction false} StartFrameRoundTrip(crc: Crc32, flags: Flags, size: U32)
    ensures HandleWrite(crc, flags, StartFrame(size)) == Handled(CLEAR, Some(StartUpdate(size)))
  {
  }

  lemma {:induction false} EncodedBlockIsAccepted(crc: Crc32, blockNum: U16, data: seq<Byte>)
    requires 1 <= |data| <= 0xFFFF
    ensures HandleWrite(crc, CLEAR, BlockFrame(crc, blockNum, data)) == Handled(CLEAR, Some(WriteBlock(blockNum, data)))
  {
    var payload := ToBe16(blockNum) + ToBe16(|data|) + data;
    var frame := BlockFrame(crc, blockNum, data);
    assert frame[5..] == payload;
    assert frame[9..] == data;
    assert frame[1..5] == ToBe32(crc(payload));
    assert frame[5..7] == ToBe16(blockNum) && frame[7..9] == ToBe16(|data|);
  }

  lemma {:induction false} AcceptedBlockIsEncoded(crc: Crc32, frame: seq<Byte>, blockNum: U16, data: seq<Byte>)
    requires HandleWrite(crc, CLEAR, frame) == Handled(CLEAR, Some(WriteBlock(blockNum, data)))
    ensures |data| <= 0xFFFF && frame == BlockFrame(crc, blockNum, data)
  {
    Be32RoundTrip(frame[1], frame[2], frame[3], frame[4]);
    Be16RoundTrip(frame[5], frame[6]);
    Be16RoundTrip(frame[7], frame[8]);
    hide ToBe16, ToBe32, Be16, Be32;
    var payload := ToBe16(blockNum) + ToBe16(|data|) + data;
    assert frame[5..] == [frame[5], frame[6]] + [frame[7], frame[8]] + frame[9..];
    assert frame[5..] == payload;
    assert frame == [frame[0]] + [frame[1], frame[2], frame[3], frame[4]] + frame[5..];
  }

  /** With clear flags, a frame is accepted as a block exactly when it is that block's encoding. */
  lemma {:induction false} BlockFrameRoundTrip(crc: Crc32, frame: seq<Byte>, blockNum: U16, data: seq<Byte>)
    requires 1 <= |data| <= 0xFFFF
    ensures HandleWrite(crc, CLEAR, frame) == Handled(CLEAR, Some(WriteBlock(blockNum, data)))
            <==> frame == BlockFrame(crc, blockNum, data)
  {
    EncodedBlockIsAccepted(crc, blockNum, data);
    hide HandleWrite, BlockFrame;
    if HandleWrite(crc, CLEAR, frame) == Handled(CLEAR, Some(WriteBlock(blockNum, data))) {
      AcceptedBlockIsEncoded(crc, frame, blockNum, data);
    }
  }

  /** Every accepted block holds 1 to 4097 bytes, and 4097 exactly when the frame fills the receive buffer. */
  lemma {:induction false} AcceptedBlockSize(crc: Crc32, flags: Flags, frame: seq<Byte>)
    requires |frame| <= MAX_FRAME
    requires var cmd := HandleWrite(crc, flags, frame).cmd; cmd.Some? && cmd.value.WriteBlock?
    ensures var size := |HandleWrite(crc, flags, frame).cmd.value.data|;
            1 <= size <= BLOCK + 1 && (BLOCK < size <==> |frame| == MAX_FRAME)
  {
  }

  // ---------------------------------------------------------------- error quarantine

  predicate GoodStart(frame: seq<Byte>) {
    |frame| >= 5 && frame[0] == 0x40
  }

  predicate GoodBlock(crc: Crc32, frame: seq<Byte>) {
    && |frame| >= 10
    && frame[0] == 0x43
    && crc(frame[5..]) == Be32(frame[1], frame[2], frame[3], frame[4])
    && Be16(frame[7], frame[8]) == |frame| - 9
  }

  predicate Faulty(crc: Crc32, frame: seq<Byte>) {
    && |frame| >= 2
    && ((frame[0] == 0x40 && !GoodStart(frame)) || (frame[0] == 0x43 && !GoodBlock(crc, frame)))
  }

  predicate Simple(frame: seq<Byte>, opcode: Byte) {
    |frame| >= 2 && frame[0] == opcode
  }

  function FlagsAfter(crc: Crc32, flags: Flags, frames: seq<seq<Byte>>): Flags {
    if frames == [] then flags
    else
      var n := |frames| - 1;
      HandleWrite(crc, FlagsAfter(crc, flags, frames[..n]), frames[n]).flags
  }

  /** All commands sent to the flash writer, in order. */
  function Sent(crc: Crc32, flags: Flags, frames: seq<seq<Byte>>): seq<Command> {
    if frames == [] then []
    else
      var n := |frames| - 1;
      var cmd := HandleWrite(crc, FlagsAfter(crc, flags, frames[..n]), frames[n]).cmd;
      Sent(crc, flags, frames[..n]) + (if cmd.Some? then [cmd.value] else [])
  }

  lemma {:induction false} OneMoreFrame(crc: Crc32, flags: Flags, frames: seq<seq<Byte>>, frame: seq<Byte>)
    ensures var h := HandleWrite(crc, FlagsAfter(crc, flags, frames), frame);
            && FlagsAfter(crc, flags, frames + [frame]) == h.flags
            && Sent(crc, flags, frames + [frame]) ==
               Sent(crc, flags, frames) + (if h.cmd.Some? then [h.cmd.value] else [])
  {
    hide HandleWrite;
    var more := frames + [frame];
    assert more[..|more| - 1] == frames;
  }

  predicate StartedAfter(frames: seq<seq<Byte>>, i: int) {
    exists s :: 0 <= s < |frames| && i < s && GoodStart(frames[s])
  }

  /** Every faulty frame, and any error present at the outset, has been followed by a well-formed start. */
  predicate Forgiven(crc: Crc32, flags: Flags, frames: seq<seq<Byte>>) {
    && (flags == CLEAR || StartedAfter(frames, -1))
    && forall i :: 0 <= i < |frames| && Faulty(crc, frames[i]) ==> StartedAfter(frames, i)
  }

  lemma {:induction false} HandleWriteOutcome(crc: Crc32, flags: Flags, frame: seq<Byte>)
    ensures var h := HandleWrite(crc, flags, frame);
            && (h.flags == CLEAR <==> GoodStart(frame) || (flags == CLEAR && !Faulty(crc, frame)))
            && (h.cmd.Some? <==> GoodStart(frame) || Simple(frame, 0x45)
                                 || (flags == CLEAR && (GoodBlock(crc, frame) || Simple(frame, 0x44))))
  {
  }

  lemma {:induction false} FlagsClearIffForgiven(crc: Crc32, flags: Flags, frames: seq<seq<Byte>>)
    ensures FlagsAfter(crc, flags, frames) == CLEAR <==> Forgiven(crc, flags, frames)
  {
    if frames != [] {
      var n := |frames| - 1;
      var pre, last := frames[..n], frames[n];
      FlagsClearIffForgiven(crc, flags, pre);
      HandleWriteOutcome(crc, FlagsAfter(crc, flags, pre), last);
      hide HandleWrite, GoodStart, Faulty;
      if GoodStart(last) {
        GoodStartIsNotFaulty(crc, last);
        assert forall i :: i < n ==> StartedAfter(frames, i);
      } else {
        forall i ensures StartedAfter(frames, i) <==> StartedAfter(pre, i) {
          if s :| 0 <= s < |frames| && i < s && GoodStart(frames[s]) {
            assert GoodStart(pre[s]);
          }
          if s :| 0 <= s < |pre| && i < s && GoodStart(pre[s]) {
            assert GoodStart(frames[s]);
          }
        }
        assert !StartedAfter(frames, n);
        assert forall i :: 0 <= i < n ==> frames[i] == pre[i];
        assert Forgiven(crc, flags, frames) <==> Forgiven(crc, flags, pre) && !Faulty(crc, last);
      }
    }
  }

  lemma {:induction false} GoodStartIsNotFaulty(crc: Crc32, frame: seq<Byte>)
    requires GoodStart(frame)
    ensures !Faulty(crc, frame)
  {
  }

  /**
   Quarantine: frame `k` is passed on exactly when it is a well-formed start or an abort, or it is a
   well-formed block or a commit and every earlier fault has been followed by a well-formed start.
   */
  lemma {:induction false} Quarantine(crc: Crc32, flags: Flags, frames: seq<seq<Byte>>, k: nat)
    requires k < |frames|
    ensures HandleWrite(crc, FlagsAfter(crc, flags, frames[..k]), frames[k]).cmd.Some? <==>
            || GoodStart(frames[k])
            || Simple(frames[k], 0x45)
            || ((GoodBlock(crc, frames[k]) || Simple(frames[k], 0x44)) && Forgiven(crc, flags, frames[..k]))
  {
    FlagsClearIffForgiven(crc, flags, frames[..k]);
    HandleWriteOutcome(crc, FlagsAfter(crc, flags, frames[..k]), frames[k]);
  }

  lemma {:induction false} CommandOfFrame(crc: Crc32, flags: Flags, frame: seq<Byte>, size: U32)
    ensures var cmd := HandleWrite(crc, flags, frame).cmd;
            && (cmd == Some(Abort) <==> Simple(frame, 0x45))
            && (cmd == Some(Commit) <==> Simple(frame, 0x44) && flags == CLEAR)
            && (cmd == Some(StartUpdate(size)) <==> StartFrame(size) <= frame)
  {
    if |frame| >= 5 {
      Be32RoundTrip(frame[1], frame[2], frame[3], frame[4]);
      var head := [frame[1], frame[2], frame[3], frame[4]];
      assert StartFrame(size) <= frame <==> frame[0] == 0x40 && ToBe32(size) == head;
    }
    hide ToBe32, Be32;
  }

  lemma {:induction false} BlockNeedsClearFlags(crc: Crc32, flags: Flags, frame: seq<Byte>)
    requires HandleWrite(crc, flags, frame).cmd.Some? && HandleWrite(crc, flags, frame).cmd.value.WriteBlock?
    ensures flags == CLEAR
  {
  }

  /**
   Which command frame `k` sends, for each of the four, whatever came before: an abort or a start by its opcode alone, a
   commit or a block only if every earlier fault is forgiven.
   */
  lemma {:induction false} WhatIsSent(crc: Crc32, flags: Flags, frames: seq<seq<Byte>>, k: nat,
                                      size: U32, blockNum: U16, data: seq<Byte>)
    requires k < |frames| && 1 <= |data| <= 0xFFFF
    ensures var cmd := HandleWrite(crc, FlagsAfter(crc, flags, frames[..k]), frames[k]).cmd;
            && (cmd == Some(Abort) <==> Simple(frames[k], 0x45))
            && (cmd == Some(Commit) <==> Simple(frames[k], 0x44) && Forgiven(crc, flags, frames[..k]))
            && (cmd == Some(StartUpdate(size)) <==> StartFrame(size) <= frames[k])
            && (cmd == Some(WriteBlock(blockNum, data)) <==>
                  frames[k] == BlockFrame(crc, blockNum, data) && Forgiven(crc, flags, frames[..k]))
  {
    var before := FlagsAfter(crc, flags, frames[..k]);
    FlagsClearIffForgiven(crc, flags, frames[..k]);
    CommandOfFrame(crc, before, frames[k], size);
    BlockFrameRoundTrip(crc, frames[k], blockNum, data);
    if HandleWrite(crc, before, frames[k]).cmd == Some(WriteBlock(blockNum, data)) {
      BlockNeedsClearFlags(crc, before, frames[k]);
    }
    ClearFlagsAndBlocks(crc, frames[k]);
    hide HandleWrite, Forgiven, FlagsAfter, BlockFrame, StartFrame, Simple;
  }

  lemma {:induction false} ClearFlagsAndBlocks(crc: Crc32, frame: seq<Byte>)
    ensures var h := HandleWrite(crc, CLEAR, frame);
            h.cmd.Some? && h.cmd.value.WriteBlock? ==> h.flags == CLEAR
  {
  }

  // ---------------------------------------------------------------- which fault sets which flag

  predicate TooShort(frame: seq<Byte>) {
    |frame| >= 2 && ((frame[0] == 0x40 && |frame| < 5) || (frame[0] == 0x43 && |frame| < 10))
  }

  predicate BadCrc(crc: Crc32, frame: seq<Byte>) {
    |frame| >= 10 && frame[0] == 0x43 && crc(frame[5..]) != Be32(frame[1], frame[2], frame[3], frame[4])
  }

  /** The checksum is right and the length field is not. */
  predicate BadLength(crc: Crc32, frame: seq<Byte>) {
    && |frame| >= 10 && frame[0] == 0x43
    && crc(frame[5..]) == Be32(frame[1], frame[2], frame[3], frame[4])
    && Be16(frame[7], frame[8]) != |frame| - 9
  }

  /** Frame `k` raised the flag, and no well-formed start has followed. Short frames do so in any case. */
  predicate CrcFaultAt(crc: Crc32, flags: Flags, frames: seq<seq<Byte>>, k: nat) {
    && k < |frames| && !StartedAfter(frames, k)
    && BadCrc(crc, frames[k]) && Forgiven(crc, flags, frames[..k])
  }

  predicate LengthFaultAt(crc: Crc32, flags: Flags, frames: seq<seq<Byte>>, k: nat) {
    && k < |frames| && !StartedAfter(frames, k)
    && (TooShort(frames[k]) || (BadLength(crc, frames[k]) && Forgiven(crc, flags, frames[..k])))
  }

  predicate CrcFaultPending(crc: Crc32, flags: Flags, frames: seq<seq<Byte>>) {
    || (flags.crcError && !StartedAfter(frames, -1))
    || exists k :: 0 <= k < |frames| && CrcFaultAt(crc, flags, frames, k)
  }

  predicate LengthFaultPending(crc: Crc32, flags: Flags, frames: seq<seq<Byte>>) {
    || (flags.lengthError && !StartedAfter(frames, -1))
    || exists k :: 0 <= k < |frames| && LengthFaultAt(crc, flags, frames, k)
  }

  lemma {:induction false} FlagsOfFrame(crc: Crc32, flags: Flags, frame: seq<Byte>)
    ensures var r := HandleWrite(crc, flags, frame).flags;
            && (r.crcError <==> !GoodStart(frame) && (flags.crcError || (BadCrc(crc, frame) && flags == CLEAR)))
            && (r.lengthError <==>
                  && !GoodStart(frame)
                  && (flags.lengthError || TooShort(frame) || (BadLength(crc, frame) && flags == CLEAR)))
    ensures GoodStart(frame) ==> !BadCrc(crc, frame) && !BadLength(crc, frame) && !TooShort(frame)
  {
  }

  lemma {:induction false} StartedAfterLast(frames: seq<seq<Byte>>, i: int)
    requires frames != []
    ensures var n := |frames| - 1;
            StartedAfter(frames, i) <==> StartedAfter(frames[..n], i) || (i < n && GoodStart(frames[n]))
  {
    hide GoodStart;
    var n := |frames| - 1;
    if s :| 0 <= s < n && i < s && GoodStart(frames[..n][s]) {
      assert GoodStart(frames[s]);
    }
    if s :| 0 <= s < |frames| && i < s && GoodStart(frames[s]) && s < n {
      assert GoodStart(frames[..n][s]);
    }
  }

  lemma {:induction false} FaultAtLast(crc: Crc32, flags: Flags, frames: seq<seq<Byte>>, k: nat)
    requires k < |frames|
    ensures var n := |frames| - 1;
            var pre, last := frames[..n], frames[n];
            && (CrcFaultAt(crc, flags, frames, k) <==>
                  if k == n then BadCrc(crc, last) && Forgiven(crc, flags, pre)
                  else CrcFaultAt(crc, flags, pre, k) && !GoodStart(last))
            && (LengthFaultAt(crc, flags, frames, k) <==>
                  if k == n then TooShort(last) || (BadLength(crc, last) && Forgiven(crc, flags, pre))
                  else LengthFaultAt(crc, flags, pre, k) && !GoodStart(last))
  {
    var n := |frames| - 1;
    StartedAfterLast(frames, k);
    if k < n {
      assert frames[..n][..k] == frames[..k];
    }
    hide GoodStart, BadCrc, BadLength, TooShort, Forgiven;
  }

  lemma {:induction false} PendingAfterLast(crc: Crc32, flags: Flags, frames: seq<seq<Byte>>)
    requires frames != []
    ensures var n := |frames| - 1;
            var pre, last := frames[..n], frames[n];
            && (CrcFaultPending(crc, flags, frames) <==>
                  || (CrcFaultPending(crc, flags, pre) && !GoodStart(last))
                  || (BadCrc(crc, last) && Forgiven(crc, flags, pre)))
            && (LengthFaultPending(crc, flags, frames) <==>
                  || (LengthFaultPending(crc, flags, pre) && !GoodStart(last))
                  || TooShort(last) || (BadLength(crc, last) && Forgiven(crc, flags, pre)))
  {
    var n := |frames| - 1;
    var pre := frames[..n];
    StartedAfterLast(frames, -1);
    FaultAtLast(crc, flags, frames, n);
    hide GoodStart, BadCrc, BadLength, TooShort, Forgiven, StartedAfter, CrcFaultAt, LengthFaultAt;
    if k :| 0 <= k < |frames| && CrcFaultAt(crc, flags, frames, k) {
      FaultAtLast(crc, flags, frames, k);
    }
    if k :| 0 <= k < n && CrcFaultAt(crc, flags, pre, k) {
      FaultAtLast(crc, flags, frames, k);
    }
    if k :| 0 <= k < |frames| && LengthFaultAt(crc, flags, frames, k) {
      FaultAtLast(crc, flags, frames, k);
    }
    if k :| 0 <= k < n && LengthFaultAt(crc, flags, pre, k) {
      FaultAtLast(crc, flags, frames, k);
    }
  }

  /**
   Over any frames, each flag by itself: it is set exactly if some frame had a fault of its kind and no well-formed
   start has followed. Short frames always count; the other faults are looked for only while nothing is unforgiven.
   */
  lemma {:induction false} FlagsNameTheFault(crc: Crc32, flags: Flags, frames: seq<seq<Byte>>)
    ensures FlagsAfter(crc, flags, frames).crcError <==> CrcFaultPending(crc, flags, frames)
    ensures FlagsAfter(crc, flags, frames).lengthError <==> LengthFaultPending(crc, flags, frames)
  {
    if frames != [] {
      var n := |frames| - 1;
      FlagsNameTheFault(crc, flags, frames[..n]);
      FlagsClearIffForgiven(crc, flags, frames[..n]);
      FlagsOfFrame(crc, FlagsAfter(crc, flags, frames[..n]), frames[n]);
      PendingAfterLast(crc, flags, frames);
      hide HandleWrite, GoodStart, BadCrc, BadLength, TooShort, Forgiven, CrcFaultPending, LengthFaultPending;
    }
  }

  // ---------------------------------------------------------------- one session

  function OnlyBlocks(cmds: seq<Command>): seq<Command> {
    if cmds == [] then []
    else
      var n := |cmds| - 1;
      OnlyBlocks(cmds[..n]) + (if cmds[n].WriteBlock? then [cmds[n]] else [])
  }

  /** The blocks that the well-formed block frames carry. */
  function BlocksIn(crc: Crc32, frames: seq<seq<Byte>>): seq<Command> {
    if frames == [] then []
    else
      var n := |frames| - 1;
      var f := frames[n];
      BlocksIn(crc, frames[..n]) + (if GoodBlock(crc, f) then [WriteBlock(Be16(f[5], f[6]), f[9..])] else [])
  }

  lemma {:induction false} OneMoreBlock(cmds: seq<Command>, c: Command)
    ensures OnlyBlocks(cmds + [c]) == OnlyBlocks(cmds) + (if c.WriteBlock? then [c] else [])
  {
    assert (cmds + [c])[..|cmds|] == cmds;
  }

  lemma {:induction false} BlockSent(crc: Crc32, flags: Flags, frame: seq<Byte>)
    ensures var cmd := HandleWrite(crc, flags, frame).cmd;
            && (cmd.Some? && cmd.value.WriteBlock? <==> flags == CLEAR && GoodBlock(crc, frame))
            && (cmd.Some? && cmd.value.WriteBlock? ==>
                  cmd.value == WriteBlock(Be16(frame[5], frame[6]), frame[9..]))
  {
  }

  /**
   In a session (no further start), the blocks sent to the writer are exactly those that the well-formed block
   frames before the first faulty frame carry, in order.
   */
  lemma {:induction false} SessionSendsBlocksBeforeFirstFault(crc: Crc32, frames: seq<seq<Byte>>, k: nat)
    requires k <= |frames|
    requires forall i :: 0 <= i < |frames| ==> !GoodStart(frames[i])
    requires forall i :: 0 <= i < k ==> !Faulty(crc, frames[i])
    requires k < |frames| ==> Faulty(crc, frames[k])
    ensures OnlyBlocks(Sent(crc, CLEAR, frames)) == BlocksIn(crc, frames[..k])
    ensures FlagsAfter(crc, CLEAR, frames) == CLEAR <==> k == |frames|
    decreases |frames|
  {
    hide HandleWrite, GoodStart, GoodBlock, Faulty;
    if frames == [] {
      assert frames[..k] == [];
    } else {
      var n := |frames| - 1;
      var pre, last := frames[..n], frames[n];
      var before := FlagsAfter(crc, CLEAR, pre);
      SessionSendsBlocksBeforeFirstFault(crc, pre, if k <= n then k else n);
      HandleWriteOutcome(crc, before, last);
      BlockSent(crc, before, last);
      var cmd := HandleWrite(crc, before, last).cmd;
      if cmd.Some? {
        OneMoreBlock(Sent(crc, CLEAR, pre), cmd.value);
      } else {
        assert Sent(crc, CLEAR, frames) == Sent(crc, CLEAR, pre);
      }
      hide Sent, FlagsAfter, OnlyBlocks;
      if k <= n {
        assert pre[..k] == frames[..k];
        if k == n {
          FaultyIsNoBlock(crc, last);
        }
      } else {
        assert frames[..k] == frames && pre[..n] == pre;
      }
    }
  }

  lemma {:induction false} FaultyIsNoBlock(crc: Crc32, frame: seq<Byte>)
    requires Faulty(crc, frame)
    ensures !GoodBlock(crc, frame)
  {
  }
}
