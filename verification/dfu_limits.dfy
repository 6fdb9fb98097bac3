/** The limits of the update pipeline: the frame that panics the writer, the image that is too long to count. */
module DfuLimits {
  import opened Common
  import opened FlashWriter
  import opened FlashWriterRuns
  import opened FirmwareImage
  import opened DfuFrames
  import opened DfuPipeline
  import opened DfuEndToEnd

  // ---------------------------------------------------------------- one frame at a time

  /** A frame arrives, the writer takes its command and finishes it. */
  function Deliver(frame: seq<Byte>, env: FlashEnv): seq<Action> {
    [Receive(frame), Take, Finish(env)]
  }

  predicate Quiet(p: Pipeline) {
    p.queue == [] && p.inflight.None?
  }

  lemma {:induction false} OneMoreAction(crc: Crc32, p: Pipeline, schedule: seq<Action>, a: Action)
    ensures Exec(crc, p, schedule + [a]) ==
            var before := Exec(crc, p, schedule);
            if before.Some? && Enabled(crc, before.value, a) then Some(Next(crc, before.value, a)) else None
    ensures Frames(schedule + [a]) == Frames(schedule) + (if a.Receive? then [a.frame] else [])
  {
    hide Enabled, Next;
    assert (schedule + [a])[..|schedule|] == schedule;
  }

  lemma {:induction false} NothingRun(crc: Crc32, p: Pipeline)
    ensures Exec(crc, p, []) == Some(p) && Frames([]) == []
  {
  }

  lemma {:induction false} DeliverRunsOneTurn(crc: Crc32, p: Pipeline, schedule: seq<Action>,
                                              frame: seq<Byte>, env: FlashEnv, cmd: Command)
    requires var before := Exec(crc, p, schedule);
             && before.Some? && Quiet(before.value) && !before.value.world.panicked
             && HandleWrite(crc, before.value.flags, frame) == Handled(CLEAR, Some(cmd))
    ensures var before := Exec(crc, p, schedule).value;
            Exec(crc, p, schedule + Deliver(frame, env)) ==
            Some(Pipeline(CLEAR, [], None, Step(before.world, cmd, env), before.log + [Turn(cmd, env)]))
    ensures Frames(schedule + Deliver(frame, env)) == Frames(schedule) + [frame]
  {
    hide HandleWrite, Step, Exec, Frames;
    var s1 := schedule + [Receive(frame)];
    var s2 := s1 + [Take];
    assert s2 + [Finish(env)] == schedule + Deliver(frame, env);
    OneMoreAction(crc, p, schedule, Receive(frame));
    OneMoreAction(crc, p, s1, Take);
    OneMoreAction(crc, p, s2, Finish(env));
  }

  /** A start and one block, each finished before the next frame arrives. */
  function StartAndBlock(crc: Crc32, size: U32, blockNum: U16, data: seq<Byte>, env: FlashEnv): seq<Action>
    requires |data| <= 0xFFFF
  {
    Deliver(StartFrame(size), env) + Deliver(BlockFrame(crc, blockNum, data), env)
  }

  lemma {:induction false} StartIsUpdating(w: World, size: U32, env: FlashEnv)
    requires !w.panicked && PrepareOk(|w.flash|, env)
    ensures var r := Step(w, StartUpdate(size), env);
            r.status.state == Updating && !r.panicked && |r.flash| == |w.flash|
  {
    hide Erase, PrepareOk;
  }

  lemma {:induction false} StartAndBlockRuns(crc: Crc32, p: Pipeline, size: U32, blockNum: U16, data: seq<Byte>,
                                             env: FlashEnv)
    requires Fresh(p) && PrepareOk(|p.world.flash|, env)
    requires 1 <= |data| <= 0xFFFF
    ensures var started := Step(p.world, StartUpdate(size), env);
            && started.status.state == Updating && !started.panicked
            && Exec(crc, p, StartAndBlock(crc, size, blockNum, data, env)) ==
               Some(Pipeline(CLEAR, [], None, Step(started, WriteBlock(blockNum, data), env),
                             [Turn(StartUpdate(size), env), Turn(WriteBlock(blockNum, data), env)]))
    ensures Frames(StartAndBlock(crc, size, blockNum, data, env)) ==
            [StartFrame(size), BlockFrame(crc, blockNum, data)]
  {
    var first := Deliver(StartFrame(size), env);
    assert [] + first == first;
    hide HandleWrite, Step, Exec, Frames, Deliver, PrepareOk, StartFrame, BlockFrame;
    NothingRun(crc, p);
    StartFrameRoundTrip(crc, p.flags, size);
    EncodedBlockIsAccepted(crc, blockNum, data);
    StartIsUpdating(p.world, size, env);
    DeliverRunsOneTurn(crc, p, [], StartFrame(size), env, StartUpdate(size));
    DeliverRunsOneTurn(crc, p, first, BlockFrame(crc, blockNum, data), env, WriteBlock(blockNum, data));
    var t1, t2 := Turn(StartUpdate(size), env), Turn(WriteBlock(blockNum, data), env);
    assert p.log + [t1] + [t2] == [t1, t2];
    assert Frames([]) + [StartFrame(size)] + [BlockFrame(crc, blockNum, data)] ==
           [StartFrame(size), BlockFrame(crc, blockNum, data)];
  }

  // ---------------------------------------------------------------- the frame that panics the writer

  /** A panic stops the whole controller: no schedule goes on after it. */
  lemma {:induction false} NothingAfterPanic(crc: Crc32, p: Pipeline, schedule: seq<Action>, a: Action)
    requires Exec(crc, p, schedule + [a]).Some?
    ensures Exec(crc, p, schedule).Some? && !Exec(crc, p, schedule).value.world.panicked
  {
    OneMoreAction(crc, p, schedule, a);
    hide Exec, Next;
  }

  predicate FramesUpTo(schedule: seq<Action>, limit: nat) {
    forall i :: 0 <= i < |schedule| && schedule[i].Receive? ==> |schedule[i].frame| <= limit
  }

  lemma {:induction false} StartAndBlockFrames(crc: Crc32, size: U32, blockNum: U16, data: seq<Byte>, env: FlashEnv)
    requires |data| <= 0xFFFF
    ensures |BlockFrame(crc, blockNum, data)| == |data| + 9
    ensures FramesUpTo(StartAndBlock(crc, size, blockNum, data, env), Max(5, |data| + 9))
  {
  }

  /** A start followed by a block frame that fills the receive buffer panics the writer. */
  lemma {:induction false} FullFramePanics(crc: Crc32, p: Pipeline, size: U32, blockNum: U16, data: seq<Byte>,
                                           env: FlashEnv)
    requires Fresh(p) && PrepareOk(|p.world.flash|, env)
    requires |data| == BLOCK + 1
    ensures |BlockFrame(crc, blockNum, data)| == MAX_FRAME
    ensures FramesUpTo(StartAndBlock(crc, size, blockNum, data, env), MAX_FRAME)
    ensures var r := Exec(crc, p, StartAndBlock(crc, size, blockNum, data, env));
            r.Some? && r.value.world.panicked
  {
    StartAndBlockFrames(crc, size, blockNum, data, env);
    hide HandleWrite, Exec, PrepareOk, Start, StartAndBlock, BlockFrame;
    StartAndBlockRuns(crc, p, size, blockNum, data, env);
  }

  /** Under any schedule, the writer has panicked exactly if it was handed an oversized block inside an open session. */
  lemma {:induction false} PipelinePanicsIff(crc: Crc32, p: Pipeline, schedule: seq<Action>)
    requires Fresh(p) && OutsideSession(p.world)
    requires Exec(crc, p, schedule).Some?
    ensures var r := Exec(crc, p, schedule).value;
            r.world.panicked <==> exists k :: OversizedBlock(p.world, r.log, k)
  {
    PipelineRefinesSequentialRun(crc, p, schedule);
    PanicOnlyOnOversizedBlock(p.world, Exec(crc, p, schedule).value.log);
  }

  /** No schedule of frames of at most `limit` bytes panics the writer. */
  ghost predicate SafeLimit(crc: Crc32, p: Pipeline, limit: nat) {
    forall schedule :: Exec(crc, p, schedule).Some? && FramesUpTo(schedule, limit) ==>
                         !Exec(crc, p, schedule).value.world.panicked
  }

  /** Any limit below the size of the receive buffer keeps the writer from panicking; the size itself does not. */
  lemma {:induction false} BufferIsOneByteTooLong(crc: Crc32, p: Pipeline, limit: nat)
    requires Fresh(p) && limit <= MAX_FRAME
    ensures SafeLimit(crc, p, limit) <==> limit < MAX_FRAME
  {
    hide Exec, Fresh;
    if limit < MAX_FRAME {
      forall schedule | Exec(crc, p, schedule).Some? && FramesUpTo(schedule, limit)
        ensures !Exec(crc, p, schedule).value.world.panicked
      {
        ShortFramesNeverPanic(crc, p, schedule);
      }
    } else {
      UnsafeLimit(crc, p);
    }
  }

  lemma {:induction false} UnsafeLimit(crc: Crc32, p: Pipeline)
    requires Fresh(p)
    ensures exists schedule :: && Exec(crc, p, schedule).Some? && FramesUpTo(schedule, MAX_FRAME)
                               && Exec(crc, p, schedule).value.world.panicked
  {
    var env := FlashEnv(Some(Boot), |p.world.flash|, true, true, _ => 0);
    var data: seq<Byte> := seq(BLOCK + 1, _ => 0);
    FullFramePanics(crc, p, 0, 0, data, env);
  }

  // ---------------------------------------------------------------- the image that is too long to count

  /** From the script's first command on, the writer is ready to commit only with all of the image received. */
  ghost predicate ReadyMeansWhole(crc: Crc32, p: Pipeline, image: seq<Byte>, order: seq<U16>)
    requires BlockOrder(image, order)
  {
    forall schedule ::
      Exec(crc, p, schedule).Some? && FollowsScript(crc, image, order, Frames(schedule)) ==>
        var r := Exec(crc, p, schedule).value;
        r.log != [] && r.world.status.state == ReadyToCommit && !r.world.panicked ==> r.world.status.offset == |image|
  }

  lemma {:induction false} TooLongMeansNeededIsOne(image: seq<Byte>, order: seq<U16>)
    requires BlockOrder(image, order) && BlockCount(|image|) > 0xFFFF
    ensures NumBlocks(|image|) == 0 && Needed(|image|) == 1
  {
    var nums: seq<nat> := order;
    DistinctBelowCount(nums, Range(0x1_0000));
    assert BlockCount(|image|) == 0x1_0000;
  }

  /** An image of 65536 blocks, all that 16 bits can number, is ready to commit after its first block. */
  lemma {:induction false} TooLongImageIsReadyAtOnce(crc: Crc32, p: Pipeline, image: seq<Byte>, order: seq<U16>,
                                                     env: FlashEnv)
    requires Fresh(p) && FlashWorks(|p.world.flash|, env)
    requires BlockOrder(image, order) && BlockCount(|image|) > 0xFFFF
    requires InPartition(|p.world.flash|, order[0])
    ensures var schedule := StartAndBlock(crc, |image|, order[0], Chunk(image, order[0]), env);
            var r := Exec(crc, p, schedule);
            && FollowsScript(crc, image, order, Frames(schedule))
            && r.Some? && !r.value.world.panicked
            && r.value.log != [] && r.value.world.status.state == ReadyToCommit
            && r.value.world.status.offset == |Chunk(image, order[0])| <= BLOCK < |image|
  {
    TooLongMeansNeededIsOne(image, order);
    var data := Chunk(image, order[0]);
    assert 1 <= |data| <= BLOCK < |image|;
    hide BlockOrder, Chunk, BlockCount;
    StartAndBlockRuns(crc, p, |image|, order[0], data, env);
    hide HandleWrite, Exec, Frames, StartAndBlock, StartFrame, BlockFrame, Erase, ProgramBlock;
  }

  lemma {:induction false} LengthOfFullBlocks(blocks: seq<Turn>)
    requires forall i :: 0 <= i < |blocks| ==> blocks[i].cmd.WriteBlock? && |blocks[i].cmd.data| <= BLOCK
    ensures TotalLength(blocks) <= BLOCK * |blocks|
    ensures (forall i :: 0 <= i < |blocks| ==> |blocks[i].cmd.data| == BLOCK) ==>
              TotalLength(blocks) == BLOCK * |blocks|
  {
    if blocks != [] {
      LengthOfFullBlocks(blocks[..|blocks| - 1]);
    }
  }

  /**
   Whatever size is announced: a size of more than 65535 blocks is ready to commit before that many bytes can have
   arrived. With full blocks the announced size has been covered exactly if its blocks can be counted in 16 bits.
   */
  lemma {:induction false} ReadyBeforeAllArrived(w: World, turns: seq<Turn>, j: int)
    requires CompleteSession(|w.flash|, turns, j)
    requires !Run(w, turns[..j]).panicked
    ensures var status, size := Run(w, turns).status, turns[j].cmd.totalSize;
            && status.state == ReadyToCommit
            && (BlockCount(size) > 0xFFFF ==> status.offset < size)
            && ((forall i :: j < i < |turns| ==> |turns[i].cmd.data| == BLOCK) ==>
                  (status.offset >= size <==> BlockCount(size) <= 0xFFFF))
  {
    var blocks, size := turns[j + 1..], turns[j].cmd.totalSize;
    SessionProgress(w, turns, j);
    LengthOfFullBlocks(blocks);
    NeededCovers(size);
    hide Run, Step, ProgramAll, TotalLength, Needed, BlockCount;
  }

  lemma {:induction false} NeededCovers(size: U32)
    ensures size <= BLOCK * Needed(size) <==> BlockCount(size) <= 0xFFFF
  {
    var n := BlockCount(size);
    assert NumBlocks(size) == n % 0x1_0000;
    assert size <= BLOCK * n < size + BLOCK;
  }

  /** The same at the status register, under any schedule. */
  lemma {:induction false} ReadyRegisterAndSize(crc: Crc32, p: Pipeline, schedule: seq<Action>) returns (j: int)
    requires Fresh(p)
    requires Exec(crc, p, schedule).Some?
    requires var r := Exec(crc, p, schedule).value;
             FromOutside(p.world, r.log) && StatusRegister(r) == DfuReadyToCommit && !r.world.panicked
    ensures var r := Exec(crc, p, schedule).value;
            && CompleteSession(|p.world.flash|, r.log, j)
            && (BlockCount(r.log[j].cmd.totalSize) > 0xFFFF ==> r.world.status.offset < r.log[j].cmd.totalSize)
  {
    var log := Exec(crc, p, schedule).value.log;
    PipelineRefinesSequentialRun(crc, p, schedule);
    j := ReadyRegisterMeansCompleteSession(crc, p, schedule);
    hide Exec, StatusRegister, Run;
    SessionNotPanicked(p.world, log, j);
    ReadyBeforeAllArrived(p.world, log, j);
  }

  /**
   The exact condition under which ready-to-commit means that the whole image has arrived: its blocks can be counted
   in 16 bits (or the first one sent does not even fit into the partition).
   */
  lemma {:induction false} ReadyMeansWholeIff(crc: Crc32, p: Pipeline, image: seq<Byte>, order: seq<U16>)
    requires Fresh(p)
    requires BlockOrder(image, order)
    ensures ReadyMeansWhole(crc, p, image, order) <==>
            BlockCount(|image|) <= 0xFFFF || !InPartition(|p.world.flash|, order[0])
  {
    if BlockCount(|image|) <= 0xFFFF {
      forall schedule | Exec(crc, p, schedule).Some? && FollowsScript(crc, image, order, Frames(schedule))
        ensures var r := Exec(crc, p, schedule).value;
                r.log != [] && r.world.status.state == ReadyToCommit && !r.world.panicked ==>
                  r.world.status.offset == |image|
      {
        CommittedImageIsComplete(crc, p, schedule, image, order);
      }
    } else if !InPartition(|p.world.flash|, order[0]) {
      forall schedule | Exec(crc, p, schedule).Some? && FollowsScript(crc, image, order, Frames(schedule))
        ensures var r := Exec(crc, p, schedule).value;
                r.log != [] && r.world.status.state == ReadyToCommit ==> r.world.panicked
      {
        NeverReadyWithoutFirstBlock(crc, p, schedule, image, order);
      }
    } else {
      var env := FlashEnv(Some(Boot), |p.world.flash|, true, true, _ => 0);
      TooLongImageIsReadyAtOnce(crc, p, image, order, env);
    }
  }

  lemma {:induction false} NeverReadyWithoutFirstBlock(crc: Crc32, p: Pipeline, schedule: seq<Action>,
                                                       image: seq<Byte>, order: seq<U16>)
    requires Fresh(p)
    requires BlockOrder(image, order) && !InPartition(|p.world.flash|, order[0])
    requires Exec(crc, p, schedule).Some? && FollowsScript(crc, image, order, Frames(schedule))
    ensures var r := Exec(crc, p, schedule).value;
            r.log != [] && r.world.status.state == ReadyToCommit ==> r.world.panicked
  {
    var r := Exec(crc, p, schedule).value;
    PipelineRefinesSequentialRun(crc, p, schedule);
    WriterFollowsHost(crc, p.flags, image, order, Frames(schedule), r);
    hide Exec, Frames, FollowsScript, Sent, FlagsAfter, Pending;
    if r.log != [] && r.world.status.state == ReadyToCommit && !r.world.panicked {
      var j := ActiveOnlyInSession(p.world, r.log);
      SessionStartsTheScript(|p.world.flash|, r.log, j, image, order);
      NoSessionWithoutFirstBlock(|p.world.flash|, r.log, image, order);
    }
  }

  lemma {:induction false} NoSessionWithoutFirstBlock(capacity: nat, log: seq<Turn>, image: seq<Byte>, order: seq<U16>)
    requires BlockOrder(image, order) && WriterFollows(image, order, log)
    requires Session(capacity, log, 0) && |log| > 1
    ensures InPartition(capacity, order[0])
  {
    assert BlockWritten(capacity, log[1]);
  }
}
