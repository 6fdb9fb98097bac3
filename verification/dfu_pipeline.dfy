/**
 The update pipeline: I2C task, four-slot queue and writer task, under every interleaving.

 The I2C task blocks while the queue is full; the writer takes a command, works on it for a
 while (a status read can fall into that time), and finishes it with some flash outcome.
 */
module DfuPipeline {
  import opened Common
  import opened FlashWriter
  import opened FlashWriterRuns
  import opened DfuFrames

  /** MAX_FLASH_WRITE_QUEUE_DEPTH */
  const QUEUE_DEPTH: nat := 4

  datatype Pipeline = Pipeline(
    flags: Flags,
    queue: seq<Command>,
    inflight: Option<Command>,
    world: World,
    log: seq<Turn>)  // the turns the writer has finished

  datatype Action = Receive(frame: seq<Byte>) | Take | Finish(env: FlashEnv)

  predicate Enabled(crc: Crc32, p: Pipeline, a: Action) {
    && !p.world.panicked
    && match a
       case Receive(frame) => HandleWrite(crc, p.flags, frame).cmd.Some? ==> |p.queue| < QUEUE_DEPTH
       case Take => p.inflight.None? && p.queue != []
       case Finish(_) => p.inflight.Some?
  }

  function Next(crc: Crc32, p: Pipeline, a: Action): Pipeline
    requires Enabled(crc, p, a)
  {
    match a
    case Receive(frame) =>
      var h := HandleWrite(crc, p.flags, frame);
      p.(flags := h.flags, queue := p.queue + (if h.cmd.Some? then [h.cmd.value] else []))
    case Take =>
      p.(queue := p.queue[1..], inflight := Some(p.queue[0]))
    case Finish(env) =>
      p.(inflight := None,
         world := Step(p.world, p.inflight.value, env),
         log := p.log + [Turn(p.inflight.value, env)])
  }

  /** The pipeline after a schedule, or None if the schedule asks for something that cannot happen. */
  function Exec(crc: Crc32, p: Pipeline, schedule: seq<Action>): Option<Pipeline> {
    if schedule == [] then Some(p)
    else
      var n := |schedule| - 1;
      var before := Exec(crc, p, schedule[..n]);
      if before.Some? && Enabled(crc, before.value, schedule[n]) then Some(Next(crc, before.value, schedule[n]))
      else None
  }

  function Frames(schedule: seq<Action>): seq<seq<Byte>> {
    if schedule == [] then []
    else
      var n := |schedule| - 1;
      Frames(schedule[..n]) + (if schedule[n].Receive? then [schedule[n].frame] else [])
  }

  function Commands(log: seq<Turn>): (cmds: seq<Command>)
    ensures |cmds| == |log|
  {
    seq(|log|, i requires 0 <= i < |log| => log[i].cmd)
  }

  /** Everything the I2C task has sent: finished, being worked on, or waiting. */
  function Pending(p: Pipeline): seq<Command> {
    Commands(p.log) + (if p.inflight.Some? then [p.inflight.value] else []) + p.queue
  }

  predicate Fresh(p: Pipeline) {
    p.queue == [] && p.inflight.None? && p.log == [] && !p.world.panicked
  }

  // ---------------------------------------------------------------- every interleaving is the sequential run

  lemma {:induction false} NextKeepsOrder(crc: Crc32, p: Pipeline, a: Action)
    requires Enabled(crc, p, a)
    ensures Pending(Next(crc, p, a)) == Pending(p) +
            (if a.Receive? && HandleWrite(crc, p.flags, a.frame).cmd.Some?
             then [HandleWrite(crc, p.flags, a.frame).cmd.value] else [])
  {
    hide HandleWrite, Step;
    match a {
      case Receive(frame) =>
      case Take =>
        assert p.queue == [p.queue[0]] + p.queue[1..];
      case Finish(env) =>
        var p' := Next(crc, p, a);
        assert Commands(p'.log) == Commands(p.log) + [p.inflight.value];
    }
  }

  /**
   Whatever the schedule, the writer works through exactly what the I2C task sent, in order: the
   concurrent pipeline refines decoding all frames first and running the writer on the result.
   */
  lemma {:induction false} PipelineRefinesSequentialRun(crc: Crc32, p: Pipeline, schedule: seq<Action>)
    requires Fresh(p)
    requires Exec(crc, p, schedule).Some?
    ensures var r := Exec(crc, p, schedule).value;
            && r.flags == FlagsAfter(crc, p.flags, Frames(schedule))
            && Pending(r) == Sent(crc, p.flags, Frames(schedule))
            && r.world == Run(p.world, r.log)
            && |r.queue| <= QUEUE_DEPTH
  {
    hide HandleWrite, Step;
    if schedule == [] {
      assert Pending(p) == [];
    } else {
      var n := |schedule| - 1;
      PipelineRefinesSequentialRun(crc, p, schedule[..n]);
      var before := Exec(crc, p, schedule[..n]).value;
      NextKeepsOrder(crc, before, schedule[n]);
      hide Pending, Sent, FlagsAfter;
      assert !schedule[n].Receive? ==> Frames(schedule) == Frames(schedule[..n]);
      match schedule[n] {
        case Receive(frame) =>
          OneMoreFrame(crc, p.flags, Frames(schedule[..n]), frame);
        case Take =>
        case Finish(env) =>
          var log := Exec(crc, p, schedule).value.log;
          assert log[..|log| - 1] == before.log;
      }
    }
  }

  // ---------------------------------------------------------------- the DFU status register

  datatype DfuState =
    | DfuIdle | DfuPreparing | DfuUpdating | DfuQueueFull | DfuReadyToCommit
    | DfuCrcError | DfuDataLengthError | DfuWriteError | DfuProtocolError

  /** What a status read sees: an update being started shows as Preparing until its erase is over. */
  function VisibleState(p: Pipeline): UpdateState {
    if p.inflight.Some? && p.inflight.value.StartUpdate? then Preparing else p.world.status.state
  }

  function StatusRegister(p: Pipeline): DfuState {
    if p.flags.crcError then DfuCrcError
    else if p.flags.lengthError then DfuDataLengthError
    else match VisibleState(p)
      case ProtocolError => DfuProtocolError
      case Idle | Complete => DfuIdle
      case Preparing => DfuPreparing
      case WriteError => DfuWriteError
      case Updating => if |p.queue| >= QUEUE_DEPTH then DfuQueueFull else DfuUpdating
      case ReadyToCommit => DfuReadyToCommit
  }

  /**
   Any schedule, any frames, any flash outcomes: when the status register reads ready-to-commit, every
   fault has been forgiven, exactly the announced number of blocks has been written since the last
   start, and the partition is the erased partition programmed with those blocks and nothing else.
   */
  lemma {:induction false} ReadyRegisterMeansCompleteSession(crc: Crc32, p: Pipeline, schedule: seq<Action>)
    returns (j: int)
    requires Fresh(p)
    requires Exec(crc, p, schedule).Some?
    requires FromOutside(p.world, Exec(crc, p, schedule).value.log)
    requires StatusRegister(Exec(crc, p, schedule).value) == DfuReadyToCommit
    requires !Exec(crc, p, schedule).value.world.panicked
    ensures var r := Exec(crc, p, schedule).value;
            && Forgiven(crc, p.flags, Frames(schedule))
            && CompleteSession(|p.world.flash|, r.log, j)
            && Commands(r.log) <= Sent(crc, p.flags, Frames(schedule))
            && r.world.flash == ProgramAll(ErasedPartition(|p.world.flash|), r.log[j + 1..])
            && r.world.status.offset == TotalLength(r.log[j + 1..])
  {
    var r := Exec(crc, p, schedule).value;
    PipelineRefinesSequentialRun(crc, p, schedule);
    FlagsClearIffForgiven(crc, p.flags, Frames(schedule));
    PartitionKeepsItsSize(p.world, r.log);
    j := ActiveOnlyInSession(p.world, r.log);
    SessionProgress(p.world, r.log, j);
  }

  /** As long as no frame fills the receive buffer completely, the writer task cannot panic. */
  lemma {:induction false} ShortFramesNeverPanic(crc: Crc32, p: Pipeline, schedule: seq<Action>)
    requires Fresh(p)
    requires Exec(crc, p, schedule).Some?
    requires forall i :: 0 <= i < |schedule| && schedule[i].Receive? ==> |schedule[i].frame| < MAX_FRAME
    ensures var r := Exec(crc, p, schedule).value;
            && !r.world.panicked
            && forall i :: 0 <= i < |Pending(r)| && Pending(r)[i].WriteBlock? ==> |Pending(r)[i].data| <= BLOCK
  {
    if schedule != [] {
      var n := |schedule| - 1;
      ShortFramesNeverPanic(crc, p, schedule[..n]);
      var before := Exec(crc, p, schedule[..n]).value;
      NextKeepsOrder(crc, before, schedule[n]);
      match schedule[n] {
        case Receive(frame) =>
          var cmd := HandleWrite(crc, before.flags, frame).cmd;
          if cmd.Some? && cmd.value.WriteBlock? {
            AcceptedBlockSize(crc, before.flags, frame);
          }
        case Take =>
        case Finish(env) =>
          assert Pending(before)[|before.log|] == before.inflight.value;
      }
    }
  }

  predicate StartInFlight(p: Pipeline) {
    p.inflight.Some? && p.inflight.value.StartUpdate?
  }

  /**
   What the host can conclude from the register, at any point of any schedule: an error code exactly while a fault
   is unforgiven, preparing exactly while a start is being carried out, and otherwise the state of the writer.
   */
  lemma {:induction false} RegisterIsTruthful(crc: Crc32, p: Pipeline, schedule: seq<Action>)
    requires Fresh(p) && p.world.status.state != Preparing
    requires Exec(crc, p, schedule).Some?
    ensures var r := Exec(crc, p, schedule).value;
            var code, state := StatusRegister(r), r.world.status.state;
            && (code == DfuCrcError || code == DfuDataLengthError <==> !Forgiven(crc, p.flags, Frames(schedule)))
            && (Forgiven(crc, p.flags, Frames(schedule)) ==>
                  && (code == DfuPreparing <==> StartInFlight(r))
                  && (!StartInFlight(r) ==>
                        && (code == DfuIdle <==> state == Idle || state == Complete)
                        && (code == DfuUpdating || code == DfuQueueFull <==> state == Updating)
                        && (code == DfuReadyToCommit <==> state == ReadyToCommit)
                        && (code == DfuWriteError <==> state == WriteError)
                        && (code == DfuProtocolError <==> state == ProtocolError)))
  {
    var r := Exec(crc, p, schedule).value;
    PipelineRefinesSequentialRun(crc, p, schedule);
    FlagsClearIffForgiven(crc, p.flags, Frames(schedule));
    NeverLeftPreparing(p.world, r.log);
    RegisterShowsWriter(r);
    hide Exec, Forgiven, Frames, Run, FlagsAfter, Sent, Pending, Commands, StatusRegister;
  }

  lemma {:induction false} RegisterShowsWriter(r: Pipeline)
    requires r.world.status.state != Preparing
    ensures var code, state := StatusRegister(r), r.world.status.state;
            && (code == DfuCrcError || code == DfuDataLengthError <==> r.flags != CLEAR)
            && (r.flags == CLEAR ==>
                  && (code == DfuPreparing <==> StartInFlight(r))
                  && (!StartInFlight(r) ==>
                        && (code == DfuIdle <==> state == Idle || state == Complete)
                        && (code == DfuUpdating || code == DfuQueueFull <==> state == Updating)
                        && (code == DfuReadyToCommit <==> state == ReadyToCommit)
                        && (code == DfuWriteError <==> state == WriteError)
                        && (code == DfuProtocolError <==> state == ProtocolError)))
  {
  }

  /**
   A host that reads `updating` can send its next frame at once. Inside a session with clear flags, the
   register reads queue-full exactly when the next well-formed block would have to wait.
   */
  lemma {:induction false} QueueFullMeansWait(crc: Crc32, p: Pipeline, frame: seq<Byte>)
    requires !p.world.panicked && |p.queue| <= QUEUE_DEPTH
    requires p.flags == CLEAR && VisibleState(p) == Updating
    requires GoodBlock(crc, frame)
    ensures StatusRegister(p) == DfuUpdating <==> Enabled(crc, p, Receive(frame))
    ensures StatusRegister(p) == DfuQueueFull <==> !Enabled(crc, p, Receive(frame))
  {
    HandleWriteOutcome(crc, p.flags, frame);
    hide HandleWrite, GoodBlock;
  }
}
