/** From frames to the status register: which turn a frame becomes, and which code the host then reads. */
module DfuRegister {
  import opened Common
  import opened FlashWriter
  import opened FlashWriterRuns
  import opened FlashWriterStates
  import opened DfuFrames
  import opened DfuPipeline

  // ---------------------------------------------------------------- the turn a frame becomes

  function CommandAt(crc: Crc32, flags: Flags, frames: seq<seq<Byte>>, k: nat): Option<Command>
    requires k < |frames|
  {
    HandleWrite(crc, FlagsAfter(crc, flags, frames[..k]), frames[k]).cmd
  }

  /** The number of the writer's turn that carries out frame `k`, if it is passed on. */
  function TurnOf(crc: Crc32, flags: Flags, frames: seq<seq<Byte>>, k: nat): nat
    requires k <= |frames|
  {
    |Sent(crc, flags, frames[..k])|
  }

  lemma {:induction false} SentAt(crc: Crc32, flags: Flags, frames: seq<seq<Byte>>, k: nat)
    requires k < |frames| && CommandAt(crc, flags, frames, k).Some?
    ensures TurnOf(crc, flags, frames, k) < |Sent(crc, flags, frames)|
    ensures Sent(crc, flags, frames)[TurnOf(crc, flags, frames, k)] == CommandAt(crc, flags, frames, k).value
    decreases |frames|
  {
    hide HandleWrite;
    var n := |frames| - 1;
    if k < n {
      assert frames[..n][..k] == frames[..k];
      SentAt(crc, flags, frames[..n], k);
    }
  }

  /** Under any schedule, the writer's turn number TurnOf(k) carries out the command that frame `k` sent. */
  lemma {:induction false} FrameIsCarriedOut(crc: Crc32, p: Pipeline, schedule: seq<Action>, k: nat)
    requires Fresh(p)
    requires Exec(crc, p, schedule).Some?
    requires k < |Frames(schedule)| && CommandAt(crc, p.flags, Frames(schedule), k).Some?
    requires TurnOf(crc, p.flags, Frames(schedule), k) < |Exec(crc, p, schedule).value.log|
    ensures Exec(crc, p, schedule).value.log[TurnOf(crc, p.flags, Frames(schedule), k)].cmd ==
            CommandAt(crc, p.flags, Frames(schedule), k).value
  {
    var r := Exec(crc, p, schedule).value;
    var i := TurnOf(crc, p.flags, Frames(schedule), k);
    PipelineRefinesSequentialRun(crc, p, schedule);
    SentAt(crc, p.flags, Frames(schedule), k);
    hide Exec, Frames, Sent, CommandAt, TurnOf;
    assert Pending(r)[i] == r.log[i].cmd;
  }

  /**
   Once the writer has carried out an abort frame, and until its next turn, it is idle with all counters cleared, and
   neither the partition nor the marks have changed, whatever faults and sessions came before.
   */
  lemma {:induction false} AbortFrameAborts(crc: Crc32, p: Pipeline, schedule: seq<Action>, k: nat)
    requires Fresh(p)
    requires Exec(crc, p, schedule).Some? && !Exec(crc, p, schedule).value.world.panicked
    requires k < |Frames(schedule)| && Simple(Frames(schedule)[k], 0x45)
    requires |Exec(crc, p, schedule).value.log| == TurnOf(crc, p.flags, Frames(schedule), k) + 1
    ensures var r := Exec(crc, p, schedule).value;
            var before := Run(p.world, r.log[..|r.log| - 1]);
            && r.world.status == IDLE
            && r.world.flash == before.flash && r.world.marks == before.marks
  {
    var r := Exec(crc, p, schedule).value;
    var n := |r.log| - 1;
    CommandOfFrame(crc, FlagsAfter(crc, p.flags, Frames(schedule)[..k]), Frames(schedule)[k], 0);
    FrameIsCarriedOut(crc, p, schedule, k);
    PipelineRefinesSequentialRun(crc, p, schedule);
    hide Exec, Frames, Simple, HandleWrite, FlagsAfter, TurnOf;
    assert r.log[n].cmd == Abort;
    AbortStep(Run(p.world, r.log[..n]), r.log[n]);
  }

  lemma {:induction false} AbortStep(w: World, t: Turn)
    requires t.cmd.Abort?
    requires !Step(w, t.cmd, t.env).panicked
    ensures Step(w, t.cmd, t.env) == w.(status := IDLE)
  {
  }

  // ---------------------------------------------------------------- the code the host reads

  /**
   The error flags at the register, over any frames and any schedule: a CRC error exactly if a wrong checksum is
   pending, a length error exactly if only a wrong length is.
   */
  lemma {:induction false} RegisterNamesTheFault(crc: Crc32, p: Pipeline, schedule: seq<Action>)
    requires Fresh(p)
    requires Exec(crc, p, schedule).Some?
    ensures var code, frames := StatusRegister(Exec(crc, p, schedule).value), Frames(schedule);
            && (code == DfuCrcError <==> CrcFaultPending(crc, p.flags, frames))
            && (code == DfuDataLengthError <==>
                  LengthFaultPending(crc, p.flags, frames) && !CrcFaultPending(crc, p.flags, frames))
  {
    PipelineRefinesSequentialRun(crc, p, schedule);
    FlagsNameTheFault(crc, p.flags, Frames(schedule));
    hide Exec, Frames, FlagsAfter, Pending, Run, CrcFaultPending, LengthFaultPending;
  }

  /**
   The other codes, with no fault pending and no start in hand: what the host reads after the writer's last turn is
   idle after an abort or the commit of a complete session, a protocol error exactly after a refused command, a write
   error exactly after a failed one, and otherwise the session it is in.
   */
  lemma {:induction false} RegisterShowsLastTurn(crc: Crc32, p: Pipeline, schedule: seq<Action>)
    requires Fresh(p) && OutsideSession(p.world) && p.world.status.state != Preparing
    requires Exec(crc, p, schedule).Some?
    requires var r := Exec(crc, p, schedule).value;
             r.flags == CLEAR && !StartInFlight(r) && r.log != [] && !r.world.panicked
    ensures var r, capacity := Exec(crc, p, schedule).value, |p.world.flash|;
            var code, n := StatusRegister(r), |r.log| - 1;
            var pre, last := r.log[..n], r.log[n];
            && (code == DfuIdle <==>
                  last.cmd.Abort? || (last.cmd.Commit? && InCompleteSession(capacity, pre)))
            && (code == DfuUpdating || code == DfuQueueFull <==> InOpenSession(capacity, r.log))
            && (code == DfuReadyToCommit <==> InCompleteSession(capacity, r.log))
            && (code == DfuWriteError <==> Failed(capacity, pre, last))
            && (code == DfuProtocolError <==> Refused(capacity, pre, last))
  {
    var r := Exec(crc, p, schedule).value;
    PipelineRefinesSequentialRun(crc, p, schedule);
    WhatEachStateMeans(p.world, r.log);
    RegisterShowsWriter(r);
    hide Exec, Run, StatusRegister, Failed, Refused, InOpenSession, InCompleteSession, OutsideSession, Sent, Pending,
         FlagsAfter, Frames, StartInFlight, Fresh;
  }
}
