/** End to end: a host sends a firmware image through the pipeline. What is in flash when the commit is allowed? */
module DfuEndToEnd {
  import opened Common
  import opened FlashWriter
  import opened FlashWriterRuns
  import opened FirmwareImage
  import opened DfuFrames
  import opened DfuPipeline

  /** The order in which the host sends the blocks of an image: each exactly once. */
  predicate BlockOrder(image: seq<Byte>, order: seq<U16>) {
    && 0 < |image| < 0x1_0000_0000
    && |order| == BlockCount(|image|)
    && (forall i :: 0 <= i < |order| ==> order[i] < BlockCount(|image|))
    && (forall i, j :: 0 <= i < j < |order| ==> order[i] != order[j])
  }

  /** Frame `i` of the host's script: start, every block, commit. */
  function ScriptFrame(crc: Crc32, image: seq<Byte>, order: seq<U16>, i: nat): seq<Byte>
    requires BlockOrder(image, order) && i < |order| + 2
  {
    if i == 0 then StartFrame(|image|)
    else if i <= |order| then BlockFrame(crc, order[i - 1], Chunk(image, order[i - 1]))
    else [0x44, 0]
  }

  function ScriptCommand(image: seq<Byte>, order: seq<U16>, i: nat): Command
    requires BlockOrder(image, order) && i < |order| + 2
  {
    if i == 0 then StartUpdate(|image|)
    else if i <= |order| then WriteBlock(order[i - 1], Chunk(image, order[i - 1]))
    else Commit
  }

  /** The host has got so far with its script. */
  predicate FollowsScript(crc: Crc32, image: seq<Byte>, order: seq<U16>, frames: seq<seq<Byte>>)
    requires BlockOrder(image, order)
  {
    |frames| <= |order| + 2 && forall i :: 0 <= i < |frames| ==> frames[i] == ScriptFrame(crc, image, order, i)
  }

  /** The writer has got so far with it. */
  predicate WriterFollows(image: seq<Byte>, order: seq<U16>, log: seq<Turn>)
    requires BlockOrder(image, order)
  {
    |log| <= |order| + 2 && forall i :: 0 <= i < |log| ==> log[i].cmd == ScriptCommand(image, order, i)
  }

  lemma {:induction false} ScriptFrameIsDecoded(crc: Crc32, flags: Flags, image: seq<Byte>, order: seq<U16>, i: nat)
    requires BlockOrder(image, order) && i < |order| + 2
    requires i > 0 ==> flags == CLEAR
    ensures HandleWrite(crc, flags, ScriptFrame(crc, image, order, i)) ==
            Handled(CLEAR, Some(ScriptCommand(image, order, i)))
  {
    if i == 0 {
      StartFrameRoundTrip(crc, flags, |image|);
    } else if i <= |order| {
      EncodedBlockIsAccepted(crc, order[i - 1], Chunk(image, order[i - 1]));
    }
  }

  lemma {:induction false} ScriptIsSent(crc: Crc32, flags: Flags, image: seq<Byte>, order: seq<U16>,
                                        frames: seq<seq<Byte>>)
    requires BlockOrder(image, order) && FollowsScript(crc, image, order, frames)
    ensures |Sent(crc, flags, frames)| == |frames|
    ensures forall i :: 0 <= i < |frames| ==> Sent(crc, flags, frames)[i] == ScriptCommand(image, order, i)
    ensures frames != [] ==> FlagsAfter(crc, flags, frames) == CLEAR
  {
    hide HandleWrite, ScriptFrame, ScriptCommand, BlockOrder;
    if frames != [] {
      var n := |frames| - 1;
      ScriptIsSent(crc, flags, image, order, frames[..n]);
      ScriptFrameIsDecoded(crc, FlagsAfter(crc, flags, frames[..n]), image, order, n);
    }
  }

  lemma {:induction false} WriterFollowsHost(crc: Crc32, flags: Flags, image: seq<Byte>, order: seq<U16>,
                                             frames: seq<seq<Byte>>, r: Pipeline)
    requires BlockOrder(image, order) && FollowsScript(crc, image, order, frames)
    requires Pending(r) == Sent(crc, flags, frames)
    ensures WriterFollows(image, order, r.log)
  {
    ScriptIsSent(crc, flags, image, order, frames);
    hide Sent, ScriptFrame, ScriptCommand, BlockOrder;
    assert forall i :: 0 <= i < |r.log| ==> Pending(r)[i] == r.log[i].cmd;
  }

  /** The partition holds the image, zero-padded to whole blocks, and is erased beyond it. */
  predicate HoldsImage(w: World, image: seq<Byte>) {
    w.flash == ImagePartition(image, |w.flash|)
  }

  /** The u16 block counter counts the blocks of an image exactly if there are between 1 and 65535 of them. */
  lemma {:induction false} NeededIsBlockCount(size: U32)
    ensures Needed(size) == BlockCount(size) <==> 1 <= BlockCount(size) <= 0xFFFF
  {
    var n := BlockCount(size);
    assert NumBlocks(size) == n % 0x1_0000;
    hide BlockCount, NumBlocks;
  }

  lemma {:induction false} ScriptBlocks(image: seq<Byte>, order: seq<U16>, log: seq<Turn>)
    requires BlockOrder(image, order) && WriterFollows(image, order, log)
    requires 1 <= |log| <= |order| + 1
    ensures CarriesImage(image, log[1..])
  {
    var blocks := log[1..];
    forall i | 0 <= i < |blocks|
      ensures blocks[i].cmd == WriteBlock(order[i], Chunk(image, order[i]))
    {
      assert blocks[i] == log[i + 1];
    }
  }

  /** A complete session of the script leaves the image. */
  lemma {:induction false} CompleteScriptSession(w: World, log: seq<Turn>, image: seq<Byte>, order: seq<U16>)
    requires BlockOrder(image, order) && WriterFollows(image, order, log)
    requires BlockCount(|image|) <= 0xFFFF
    requires !w.panicked
    requires CompleteSession(|w.flash|, log, 0)
    ensures |log| == BlockCount(|image|) + 1
    ensures Run(w, log).status.state == ReadyToCommit
    ensures HoldsImage(Run(w, log), image)
    ensures Run(w, log).status.offset == |image|
  {
    ScriptNeeds(image, order, log);
    ScriptBlocks(image, order, log);
    assert log[..0] == [] && Run(w, []) == w;
    hide Run, Step, Progress, CarriesImage, Session, WriterFollows, BlockOrder, BlockCount, Needed, HoldsImage;
    SessionProgress(w, log, 0);
    ImageFromProgress(Run(w, log), log[1..], image);
  }

  lemma {:induction false} ImageFromProgress(r: World, blocks: seq<Turn>, image: seq<Byte>)
    requires |image| < 0x1_0000_0000
    requires |blocks| == Needed(|image|) == BlockCount(|image|)
    requires CarriesImage(image, blocks)
    requires Progress(r, |image|, blocks)
    ensures r.status.state == ReadyToCommit && HoldsImage(r, image) && r.status.offset == |image|
  {
    hide BlockCount, NumBlocks, CarriesImage, ProgramAll, TotalLength, ImagePartition;
    AllBlocksMakeTheImage(image, blocks, |r.flash|);
  }

  lemma {:induction false} ScriptNeeds(image: seq<Byte>, order: seq<U16>, log: seq<Turn>)
    requires BlockOrder(image, order) && WriterFollows(image, order, log)
    requires BlockCount(|image|) <= 0xFFFF
    requires log != []
    ensures log[0].cmd == StartUpdate(|image|)
    ensures |order| == Needed(|image|) == BlockCount(|image|) > 0
  {
    NeededIsBlockCount(|image|);
    hide Needed;
  }

  lemma {:induction false} SessionStartsTheScript(capacity: nat, log: seq<Turn>, j: int,
                                                  image: seq<Byte>, order: seq<U16>)
    requires BlockOrder(image, order) && WriterFollows(image, order, log)
    requires Session(capacity, log, j)
    ensures j == 0
  {
  }

  lemma {:induction false} NoCommitNoMark(w: World, log: seq<Turn>)
    requires forall i :: 0 <= i < |log| ==> !log[i].cmd.Commit?
    ensures Run(w, log).marks == w.marks
  {
    if log != [] {
      var n := |log| - 1;
      NoCommitNoMark(w, log[..n]);
    }
  }

  lemma {:induction false} CommitKeepsFlash(w: World, t: Turn)
    requires t.cmd.Commit?
    ensures Step(w, t.cmd, t.env).flash == w.flash
  {
  }

  /**
   Safety, whatever the flash does: the host sends a start, every block of an image exactly once in any order, and
   a commit. Whatever the writer was doing before, from its first command on it is ready to commit only with the image,
   and nothing else, in the partition and the image's size in `offset`, under every interleaving; and if mark_updated
   is ever called, it is with that image in place.
   */
  lemma {:induction false} CommittedImageIsComplete(crc: Crc32, p: Pipeline, schedule: seq<Action>,
                                                    image: seq<Byte>, order: seq<U16>)
    requires Fresh(p)
    requires Exec(crc, p, schedule).Some?
    requires BlockOrder(image, order) && BlockCount(|image|) <= 0xFFFF
    requires FollowsScript(crc, image, order, Frames(schedule))
    ensures var r := Exec(crc, p, schedule).value;
            var w := r.world;
            && ((r.log != [] || OutsideSession(p.world)) && w.status.state == ReadyToCommit && !w.panicked ==>
                  HoldsImage(w, image) && w.status.offset == |image|)
            && (w.marks != p.world.marks ==> HoldsImage(w, image))
  {
    var r := Exec(crc, p, schedule).value;
    PipelineRefinesSequentialRun(crc, p, schedule);
    WriterFollowsHost(crc, p.flags, image, order, Frames(schedule), r);
    hide Exec, Frames, FollowsScript, Sent, FlagsAfter, Pending;
    WriterIsSafe(p.world, r.log, image, order);
  }

  lemma {:induction false} WriterIsSafe(w: World, log: seq<Turn>, image: seq<Byte>, order: seq<U16>)
    requires BlockOrder(image, order) && BlockCount(|image|) <= 0xFFFF
    requires WriterFollows(image, order, log)
    requires !w.panicked
    ensures var r := Run(w, log);
            && ((log != [] || OutsideSession(w)) && r.status.state == ReadyToCommit && !r.panicked ==>
                  HoldsImage(r, image) && r.status.offset == |image|)
            && (r.marks != w.marks ==> HoldsImage(r, image))
  {
    var r := Run(w, log);
    hide Step, HoldsImage;
    if (log != [] || OutsideSession(w)) && r.status.state == ReadyToCommit && !r.panicked {
      var j := ActiveOnlyInSession(w, log);
      SessionStartsTheScript(|w.flash|, log, j, image, order);
      CompleteScriptSession(w, log, image, order);
    }
    if r.marks != w.marks {
      if |log| <= |order| + 1 {
        NoCommitNoMark(w, log);
        assert false;
      }
      CommitSeesImage(w, log, image, order);
    }
  }

  lemma {:induction false} CommitSeesImage(w: World, log: seq<Turn>, image: seq<Byte>, order: seq<U16>)
    requires !w.panicked
    requires BlockOrder(image, order) && BlockCount(|image|) <= 0xFFFF
    requires WriterFollows(image, order, log)
    requires |log| == |order| + 2
    requires Run(w, log).marks != w.marks
    ensures HoldsImage(Run(w, log), image)
  {
    var k := |log| - 1;
    var pre := log[..k];
    NoCommitNoMark(w, pre);
    StepCallsMarkUpdated(Run(w, pre), log[k]);
    CommitKeepsFlash(Run(w, pre), log[k]);
    StepMarks(Run(w, pre), log[k]);
    hide Step;
    var j := ActiveOnlyInSession(w, pre);
    SessionStartsTheScript(|w.flash|, pre, j, image, order);
    CompleteScriptSession(w, pre, image, order);
  }

  lemma {:induction false} StepMarks(w: World, t: Turn)
    ensures Step(w, t.cmd, t.env).marks == w.marks || |Step(w, t.cmd, t.env).marks| > |w.marks|
  {
  }

  // ---------------------------------------------------------------- when the flash works

  /** The environment lets every flash operation succeed. */
  predicate FlashWorks(capacity: nat, env: FlashEnv) {
    PrepareOk(capacity, env) && env.writeOk
  }

  predicate AllFlashWorks(capacity: nat, schedule: seq<Action>) {
    forall i :: 0 <= i < |schedule| && schedule[i].Finish? ==> FlashWorks(capacity, schedule[i].env)
  }

  lemma {:induction false} LogComesFromSchedule(crc: Crc32, p: Pipeline, schedule: seq<Action>)
    requires Fresh(p)
    requires Exec(crc, p, schedule).Some?
    requires AllFlashWorks(|p.world.flash|, schedule)
    ensures forall i :: 0 <= i < |Exec(crc, p, schedule).value.log| ==>
              FlashWorks(|p.world.flash|, Exec(crc, p, schedule).value.log[i].env)
  {
    hide HandleWrite, Step, FlashWorks;
    if schedule != [] {
      LogComesFromSchedule(crc, p, schedule[..|schedule| - 1]);
    }
  }

  /** The script, while the flash works, is one session. */
  lemma {:induction false} ScriptIsASession(capacity: nat, log: seq<Turn>, image: seq<Byte>, order: seq<U16>)
    requires BlockOrder(image, order) && WriterFollows(image, order, log)
    requires BlockCount(|image|) * BLOCK <= capacity
    requires 1 <= |log| <= |order| + 1
    requires forall i :: 0 <= i < |log| ==> FlashWorks(capacity, log[i].env)
    ensures Session(capacity, log, 0)
  {
    forall i | 1 <= i < |log| ensures BlockWritten(capacity, log[i]) {
      var k := order[i - 1];
      assert BLOCK * k + BLOCK <= BlockCount(|image|) * BLOCK;
    }
  }

  /**
   Progress, while the flash works and from whatever state the writer was in: it is ready to commit exactly
   when it has finished the last block, and after the commit it is complete, with one call of mark_updated.
   */
  lemma {:induction false} WorkingFlashGetsTheImage(crc: Crc32, p: Pipeline, schedule: seq<Action>,
                                                    image: seq<Byte>, order: seq<U16>)
    requires Fresh(p)
    requires Exec(crc, p, schedule).Some?
    requires BlockOrder(image, order) && BlockCount(|image|) <= 0xFFFF
    requires BlockCount(|image|) * BLOCK <= |p.world.flash|
    requires FollowsScript(crc, image, order, Frames(schedule))
    requires AllFlashWorks(|p.world.flash|, schedule)
    ensures var r := Exec(crc, p, schedule).value;
            var n := BlockCount(|image|);
            && !r.world.panicked
            && |r.log| <= n + 2
            && (0 < |r.log| <= n ==> r.world.status.state == Updating && r.world.marks == p.world.marks)
            && (|r.log| == n + 1 ==>
                  && r.world.status.state == ReadyToCommit && r.world.marks == p.world.marks
                  && HoldsImage(r.world, image) && r.world.status.offset == |image|)
            && (|r.log| == n + 2 ==>
                  && r.world.status.state == Complete
                  && HoldsImage(r.world, image)
                  && r.world.marks == p.world.marks + [r.log[n + 1].env.markOk])
  {
    var r := Exec(crc, p, schedule).value;
    PipelineRefinesSequentialRun(crc, p, schedule);
    LogComesFromSchedule(crc, p, schedule);
    WriterFollowsHost(crc, p.flags, image, order, Frames(schedule), r);
    hide Exec, Frames, FollowsScript, Sent, FlagsAfter, Pending;
    WriterGetsThere(p.world, r.log, image, order);
  }

  lemma {:induction false} WriterGetsThere(w: World, log: seq<Turn>, image: seq<Byte>, order: seq<U16>)
    requires !w.panicked
    requires BlockOrder(image, order) && BlockCount(|image|) <= 0xFFFF
    requires BlockCount(|image|) * BLOCK <= |w.flash|
    requires WriterFollows(image, order, log)
    requires forall i :: 0 <= i < |log| ==> FlashWorks(|w.flash|, log[i].env)
    ensures var r := Run(w, log);
            var n := BlockCount(|image|);
            && !r.panicked
            && |log| <= n + 2
            && (0 < |log| <= n ==> r.status.state == Updating && r.marks == w.marks)
            && (|log| == n + 1 ==>
                  && r.status.state == ReadyToCommit && r.marks == w.marks
                  && HoldsImage(r, image) && r.status.offset == |image|)
            && (|log| == n + 2 ==>
                  && r.status.state == Complete
                  && HoldsImage(r, image)
                  && r.marks == w.marks + [log[n + 1].env.markOk])
  {
    var n := BlockCount(|image|);
    hide Step, HoldsImage, FlashWorks, BlockCount;
    if log != [] && |log| <= n + 1 {
      ScriptProgress(w, log, image, order);
    } else if log != [] {
      var pre := log[..n + 1];
      ScriptProgress(w, pre, image, order);
      assert log[n + 1].cmd == Commit;
      CommitStep(Run(w, pre), log[n + 1]);
      HoldsImageLooksAtFlash(Run(w, pre), Run(w, log), image);
    }
  }

  lemma {:induction false} HoldsImageLooksAtFlash(w: World, w': World, image: seq<Byte>)
    requires w.flash == w'.flash
    ensures HoldsImage(w, image) <==> HoldsImage(w', image)
  {
  }

  lemma {:induction false} CommitStep(w: World, t: Turn)
    requires !w.panicked && w.status.state == ReadyToCommit && t.cmd == Commit
    ensures var r := Step(w, t.cmd, t.env);
            && r.status.state == Complete && !r.panicked
            && r.flash == w.flash
            && r.marks == w.marks + [t.env.markOk]
  {
  }

  lemma {:induction false} ScriptProgress(w: World, log: seq<Turn>, image: seq<Byte>, order: seq<U16>)
    requires !w.panicked
    requires BlockOrder(image, order) && BlockCount(|image|) <= 0xFFFF
    requires BlockCount(|image|) * BLOCK <= |w.flash|
    requires WriterFollows(image, order, log)
    requires 1 <= |log| <= |order| + 1
    requires forall i :: 0 <= i < |log| ==> FlashWorks(|w.flash|, log[i].env)
    ensures var r := Run(w, log);
            && !r.panicked && r.marks == w.marks
            && r.status.state == (if |log| == BlockCount(|image|) + 1 then ReadyToCommit else Updating)
            && (r.status.state == ReadyToCommit ==> HoldsImage(r, image) && r.status.offset == |image|)
  {
    ScriptNeeds(image, order, log);
    ScriptIsASession(|w.flash|, log, image, order);
    assert log[..0] == [];
    hide Step, BlockCount, Needed, FlashWorks, HoldsImage, TotalLength, ProgramAll, WriterFollows, BlockOrder;
    SessionProgress(w, log, 0);
    if |log| == |order| + 1 {
      CompleteScriptSession(w, log, image, order);
    }
  }
}
