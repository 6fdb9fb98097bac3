# HALPI2 controller firmware: a verified model

The HALPI2 controller firmware manages the power of a Raspberry Pi Compute Module, takes firmware updates over
I2C, keeps its settings in flash and drives five LEDs. These Dafny files model that behaviour and prove properties of
it. `dafny verify dfyconfig.toml` checks them.

| file | models |
|---|---|
| `flash_writer.dfy`, `flash_writer_runs.dfy` | the update writer: one command, and every run |
| `flash_writer_states.dfy` | what each of the seven states says about its run; refused and failed commands |
| `firmware_image.dfy` | what a set of block writes leaves in an erased partition |
| `dfu_frames.dfy` | the DFU write frames of the I2C interface and their sticky error flags |
| `dfu_pipeline.dfy`, `dfu_end_to_end.dfy` | I2C task, queue and writer under every interleaving; a host sending an image |
| `dfu_register.dfy` | from a frame to its turn and to the code in the status register |
| `dfu_limits.dfy` | the frame that panics the writer, the image that is too long to count |
| `power_machine.dfy` | the hierarchical power state machine and its 50 ms cycle |
| `power_diagram.dfy` | the state diagram of README.md as a flat list of arrows |
| `power_effects.dfy`, `power_safety.dfy` | what holds in every reachable state |
| `power_alarm.dfy` | the overvoltage alarm: how long its flag and its light last |
| `power_startup.dfy` | reaching and leaving startup, leaving standby |
| `power_timing.dfy`, `power_deadlines.dfy` | clock and timers; the two-sided deadlines of watchdog and solo blackout |
| `power_runs.dfy` | what in a run caused the rail, the timer and the power state it ends with |
| `config_manager.dfy` | the runtime configuration and its flash copy |
| `led_pattern.dfy`, `led_override.dfy`, `led_blinker.dfy` | patterns, overrides, and the renderer that combines them |
| `led_blinker_runs.dfy` | the renderer's clock arithmetic, and how long overrides are in force |
| `led_frames.dfy`, `led_timeline.dfy` | what a frame shows of pattern, modifiers and overrides; each of them over whole runs |
| `averaged_input.dfy`, `version_parser.dfy` | the sliding average of an analog input; the version parser |
| `common.dfy` | machine integers and big-endian fields |

How the models are built: each operation has a specification function on values, and where the firmware updates
fields, arrays or lists step by step, a class or a loop whose contract is equality with that function. The lemmas
are about the functions and about runs of them. What a function reads from outside (flash outcomes, inputs, settings,
clock) is a parameter: `FlashEnv`, `Env`, `CycleInput`, `faults`. A failed flash operation leaves arbitrary bytes.
Panics and resets are outcomes (`panicked`, `None`), not preconditions.

## Where the code and its documentation disagree

The models follow the code.

- README.md:118 and README.md:126 draw EnteringStandby under powered_on. It has no superstate: an Off event is
  ignored there, and ComputeModuleOff leads to Standby only. `PowerDiagram.MachineFollowsDiagram` shows the diagram
  right for every other state and event, `PowerDiagram.StandbyIsMisdrawn` shows it wrong for these two.
- README.md:145 says that only LED 5 is red before charging. The entry action of PowerOff sends no pattern, so that
  pattern is never shown (`PowerSafety.LedMatchesState`).
- firmware/src/tasks/state_machine.rs:409 calls the overvoltage light persistent. The flag is; the light is not: some run from
  power-up loses it while the flag stays set (`PowerAlarm.AlarmLightIsLost`). It lasts exactly until an arrow of the diagram
  leads away from the state it was lit in (`PowerAlarm.LightLastsUntilArrow`).
- firmware/src/tasks/state_machine.rs:748 says that a change of input power resets a controller in PoweredDownBlackout. Only
  the timeout and the power button do (`PowerDiagram.MachineFollowsDiagram`, on resets).
- The state Complete does not mean that the commit succeeded (firmware/src/tasks/flash_writer.rs:208-213, 316-318); it does
  exactly if the block counter reads 0 (`FlashWriterRuns.CompleteMeansCommittedIffCounterZero`).
- The block counter is 16 bits wide: an announced size of 65536 blocks or more is cut off, and the writer is ready to commit
  before that many bytes can have arrived (`DfuEndToEnd.NeededIsBlockCount`, exact condition in
  `DfuLimits.ReadyBeforeAllArrived`). An image of 65536 blocks, the longest that u16 block numbers can name, is ready after its
  first block (`DfuLimits.TooLongImageIsReadyAtOnce`, `DfuLimits.ReadyMeansWholeIff`).
- A frame that fills the receive buffer carries 4097 bytes, one more than the writer's buffer, and inside a session it panics
  the writer (`DfuLimits.FullFramePanics`, exact conditions in `DfuLimits.PipelinePanicsIff` and
  `DfuLimits.BufferIsOneByteTooLong`).
- A compute module that is already on when SystemStartup is entered is never noticed (`PowerStartup.EarlyModuleIsMissed`,
  exact condition in `PowerStartup.StartupWaitsForRisingEdge`).
- That a state under powered_on means a compute module sampled on holds after every cycle, but not inside a batch
  (`PowerSafety.CmInconsistentMidBatch`, exact condition in `PowerSafety.CmConsistentMidBatchIff`).
- The three correction scales are stored but not loaded at startup (`ConfigManager.RebootForgetsScales`), and a setting
  changed before initialization is overwritten in RAM (`ConfigManager.SetBeforeInitIsLost`).

## Model

| member | source | states |
|---|---|---|
| FlashWriter.FlashWriterTask.HandleCommand | firmware/src/tasks/flash_writer.rs:217-346 | the status, partition, marks and panic flag after any command in any state, for any flash outcome |
| FlashWriter.FlashWriterTask.StartUpdateSession | firmware/src/tasks/flash_writer.rs:157-181 | a start resets the counters and leaves Updating or WriteError according to the erase |
| FlashWriter.FlashWriterTask.PrepareUpdate | firmware/src/tasks/flash_writer.rs:72-127 | the chunk-wise erase: all erased on success; erased up to the failing chunk, debris there and untouched beyond on failure |
| FlashWriter.FlashWriterTask.WriteToPartition | firmware/src/tasks/flash_writer.rs:129-155 | exactly one zero-padded 4096-byte block is programmed, or the write fails in or out of bounds, or a slice index panics |
| FlashWriterRuns.CountersStayInRange | firmware/src/tasks/flash_writer.rs:264-272 | over all runs the u16 and u32 counters never overflow, and Updating keeps the block count below what is needed |
| FlashWriterRuns.SessionProgress | firmware/src/tasks/flash_writer.rs:250-281 | from any earlier state, a start with successful writes counts the blocks, sums the lengths, and programs exactly those blocks into an erased partition |
| FlashWriterRuns.ActiveOnlyInSession | firmware/src/tasks/flash_writer.rs:225-345 | the converse, for runs from outside a session or beginning with a start: Updating is exactly an open session, ReadyToCommit exactly a complete one |
| FlashWriterRuns.AlwaysRecoverable | firmware/src/tasks/flash_writer.rs:322-344 | abort and start are accepted in all seven states, with fresh counters; a start ends in WriteError exactly if it could not erase |
| FlashWriterRuns.CommitGate | firmware/src/tasks/flash_writer.rs:296-320 | mark_updated is called if and only if a Commit directly follows a full erase and exactly max(1, announced) successful writes |
| FlashWriterRuns.PanicOnlyOnOversizedBlock | firmware/src/tasks/flash_writer.rs:138-141 | the writer panics if and only if a block above 4096 bytes arrives in an open session |
| FlashWriterRuns.CompleteMeansCommittedIffCounterZero | firmware/src/tasks/flash_writer.rs:193-215 | in every reachable Complete state the last commit succeeded if and only if the block counter is 0 |
| FlashWriterRuns.CompleteAfterFailedCommit | firmware/src/tasks/flash_writer.rs:314-319 | a run that ends in Complete after a failed mark_updated |
| FlashWriterStates.WhatEachStateMeans | firmware/src/tasks/flash_writer.rs:217-346 | over all runs, each of the seven states is equivalent to a fact about the run: abort, open session, complete session, failed turn, refused turn, commit of a complete session |
| FlashWriterStates.RefusalKeepsTheRest | firmware/src/tasks/flash_writer.rs:238-347 | a block outside an open session or a commit outside a complete one changes only the state and names the state that refused it; counters, flash and marks stay |
| FlashWriterStates.FailureKeepsTheRest | firmware/src/tasks/flash_writer.rs:72-181 | a failed block keeps all counters and every byte outside its block; a failed start has erased just what lies before the failing chunk; the error text names the cause |
| FlashWriterStates.CommitOutcome | firmware/src/tasks/flash_writer.rs:193-215 | a commit keeps the flash, logs its outcome, and clears the counters if and only if it succeeded |
| FirmwareImage.ReceivedBlocksAreInFlash | firmware/src/tasks/flash_writer.rs:258-262 | after distinct blocks in any order each byte is image, padding or erased, according to whether its block has arrived |
| FirmwareImage.AllBlocksMakeTheImage | firmware/src/tasks/flash_writer.rs:258-273 | as many distinct blocks as the image has leave the padded image and an erased rest, and their lengths add up to its size |
| DfuFrames.I2cSecondaryTask.HandleDfuWrite | firmware/src/tasks/i2c_secondary.rs:333-423 | flags and command for every DFU write; the watchdog is fed exactly if a command is sent |
| DfuFrames.BlockFrameRoundTrip | firmware/src/tasks/i2c_secondary.rs:80-84 | a frame is accepted as a block if and only if it is that block's documented encoding, for any checksum function |
| DfuFrames.AcceptedBlockSize | firmware/src/tasks/i2c_secondary.rs:350-366 | an accepted block has 1 to 4097 bytes, and 4097 exactly if the frame fills the buffer |
| DfuFrames.FlagsClearIffForgiven | firmware/src/tasks/i2c_secondary.rs:334-397 | over any frames, both flags are clear if and only if every fault has been followed by a well-formed start |
| DfuFrames.Quarantine | firmware/src/tasks/i2c_secondary.rs:334-423 | frame k is passed on if and only if it is a start, an abort, or a good block or commit with no unforgiven fault before it |
| DfuFrames.WhatIsSent | firmware/src/tasks/i2c_secondary.rs:334-423 | over any frames, frame k sends Abort, Commit, a start of a given size or a given block if and only if it is that frame, for commit and block with every earlier fault forgiven |
| DfuFrames.FlagsNameTheFault | firmware/src/tasks/i2c_secondary.rs:334-397 | over any frames, the CRC flag and the length flag are each set if and only if a fault of that kind was noticed and no start has followed |
| DfuFrames.SessionSendsBlocksBeforeFirstFault | firmware/src/tasks/i2c_secondary.rs:350-404 | the blocks sent in a session are exactly those of the well-formed frames before the first faulty one, in order |
| DfuPipeline.PipelineRefinesSequentialRun | firmware/src/tasks/flash_writer.rs:63-70 | under every interleaving with the four-slot queue the writer processes exactly what was sent, in order |
| DfuPipeline.ReadyRegisterMeansCompleteSession | firmware/src/tasks/i2c_secondary.rs:115-136 | for any frames, schedule and flash outcomes, once a start has been processed or no session was open, a ready-to-commit status read means no unforgiven fault, a complete session, and a partition programmed with just its blocks |
| DfuPipeline.RegisterIsTruthful | firmware/src/tasks/i2c_secondary.rs:115-136 | at any point of any schedule the register shows an error code exactly while a fault is unforgiven, preparing exactly while a start is carried out, and otherwise the writer's state |
| DfuRegister.FrameIsCarriedOut | firmware/src/tasks/i2c_secondary.rs:333-423 | under every schedule, the command that frame k sends is the writer turn whose number is the count of commands sent before it |
| DfuRegister.AbortFrameAborts | firmware/src/tasks/flash_writer.rs:282-286 | once an abort frame has been carried out the writer is idle with cleared counters, and flash and marks are unchanged |
| DfuRegister.RegisterNamesTheFault | firmware/src/tasks/i2c_secondary.rs:115-136 | the register reads CRC error if and only if a CRC fault is pending, length error if and only if only a length fault is |
| DfuRegister.RegisterShowsLastTurn | firmware/src/tasks/i2c_secondary.rs:115-136 | without pending faults, each remaining code is equivalent to a fact about the turns: protocol error to a refused last command, write error to a failed one |
| DfuPipeline.QueueFullMeansWait | firmware/src/tasks/i2c_secondary.rs:88-93 | inside a session the register reads updating if and only if the next block can be sent at once, and queue-full otherwise |
| DfuPipeline.ShortFramesNeverPanic | firmware/src/tasks/i2c_secondary.rs:158-181 | the safe half: if no frame fills the receive buffer the writer never panics, under any schedule |
| DfuLimits.FullFramePanics | firmware/src/tasks/flash_writer.rs:138-141 | the failing half: for any checksum and any earlier writer state, a start that can erase and then a block frame of MAX_FRAME bytes panic the writer |
| DfuLimits.BufferIsOneByteTooLong | firmware/src/tasks/i2c_secondary.rs:158-181 | a limit on the frame length keeps the writer from panicking under all schedules if and only if it is below the size of the receive buffer |
| DfuLimits.PipelinePanicsIff | firmware/src/tasks/flash_writer.rs:138-141 | under any schedule of the pipeline the writer has panicked if and only if it took an oversized block inside an open session |
| DfuLimits.NothingAfterPanic | firmware/src/tasks/flash_writer.rs:138-141 | no schedule goes on after a panic |
| DfuEndToEnd.CommittedImageIsComplete | firmware/src/tasks/flash_writer.rs:129-319 | start, each block once in any order, commit: from any earlier state, open sessions included, under every interleaving and any flash failures, ready-to-commit (from the first command on) and mark_updated are reached only with exactly the image in the partition |
| DfuEndToEnd.WorkingFlashGetsTheImage | firmware/src/tasks/flash_writer.rs:157-319 | with a working flash and from any earlier state the writer is ready exactly after the last block and complete after the commit, with one call of mark_updated |
| DfuEndToEnd.NeededIsBlockCount | firmware/src/tasks/flash_writer.rs:234 | the truncated count equals the number of blocks if and only if that is between 1 and 65535 |
| DfuLimits.ReadyBeforeAllArrived | firmware/src/tasks/flash_writer.rs:234-281 | for every announced size, a complete session of more than 65535 blocks is ready with fewer bytes than announced; with full blocks the announced size is covered if and only if it has at most 65535 |
| DfuLimits.ReadyRegisterAndSize | firmware/src/tasks/i2c_secondary.rs:115-136 | under any schedule, a ready-to-commit status read for a size above 65535 blocks means that fewer bytes than announced have arrived |
| DfuLimits.TooLongImageIsReadyAtOnce | firmware/src/tasks/flash_writer.rs:234-281 | an image of 65536 blocks, the longest with distinct u16 block numbers, is ready to commit after its first block, with at most 4096 bytes received |
| DfuLimits.ReadyMeansWholeIff | firmware/src/tasks/flash_writer.rs:234-281 | for images whose blocks have distinct u16 numbers: ready-to-commit implies that the whole image was received, under all schedules of the script and from any earlier state, if and only if it has at most 65535 blocks (or its first block does not fit the partition) |
| PowerMachine.StateMachineTask.HandleWithContext | firmware/src/tasks/state_machine.rs:285-298 | one event climbs from the state through its superstates until one handles it; a transition runs the entry action; a reset is reported |
| PowerMachine.StateMachineTask.Enter | firmware/src/tasks/state_machine.rs:325-329 | the entry action of each state: rails, USB request, LED pattern, watchdog and entry time |
| PowerMachine.StateMachineTask.CollectEvents | firmware/src/tasks/state_machine.rs:996-1046 | the batch: queued events, compute-module edge, overvoltage, Tick; the edge is recorded at once |
| PowerMachine.StateMachineTask.RunCycle | firmware/src/tasks/state_machine.rs:992-1057 | one cycle handles the whole batch in order, or is cut short by a reset |
| PowerDiagram.MachineFollowsDiagram | README.md:63-135 | except for EnteringStandby with ComputeModuleOff or Off, the machine moves along an arrow of the diagram if and only if there is one, and resets exactly on the reset arrows |
| PowerDiagram.StandbyIsMisdrawn | firmware/src/tasks/state_machine.rs:907-925 | for those two events the drawn arrow exists and is not taken |
| PowerSafety.RunKeepsConsistency | firmware/src/tasks/state_machine.rs:112-122 | over all cycles and resets: rails and USB follow the state, cooperative states have a watchdog timeout and solo states none, and the LED shows the state or the alarm |
| PowerSafety.EventsKeepConsistency | firmware/src/tasks/state_machine.rs:1049-1056 | the same in the middle of any batch |
| PowerRuns.CycleRaisesRail | firmware/src/tasks/state_machine.rs:342-364 | a cycle with any queue raises the 5 V rail if and only if it begins in OffCharging and its Tick sees input power and a supercap at the threshold |
| PowerRuns.RailHasACause | firmware/src/tasks/state_machine.rs:342-364 | over all runs with resets, if the rail is up then some cycle had that cause and the rail has been up after every cycle since |
| PowerSafety.PoweredDownUntilReset | firmware/src/tasks/state_machine.rs:749-844 | from a powered-down state nothing but a reset leads out, rails low throughout |
| PowerAlarm.OvervoltageRaises | firmware/src/tasks/state_machine.rs:425-431 | in every state, the overvoltage event sets flag and light and nothing else under powered_on, and does nothing elsewhere |
| PowerAlarm.CycleRaisesAlarmIff | firmware/src/tasks/state_machine.rs:1037-1042 | a cycle with any queue sets a clear flag if and only if the voltage is above the limit and the state before the alarm event is under powered_on |
| PowerAlarm.AlarmLatchesLightDoesNot | firmware/src/tasks/state_machine.rs:425-431 | over any cycles without a reset, the overvoltage flag stays set once it is, and the light stays out once it is out |
| PowerAlarm.LightLastsUntilArrow | firmware/src/tasks/state_machine.rs:425-431 | after any events of a run in which the alarm is lit and no new alarm comes, it is still lit if and only if no event found an arrow of the diagram leading away from the state it met |
| PowerAlarm.AlarmLightIsLost | firmware/src/tasks/state_machine.rs:405-431 | some run from power-up lights the alarm and one cycle without input power later has lost the light, with the flag set and the light out however the run goes on without a reset |
| PowerSafety.CycleKeepsCmConsistent | firmware/src/tasks/state_machine.rs:990-1056 | after a complete cycle with any queue, a state under powered_on implies that the compute module was sampled on |
| PowerSafety.RunKeepsCmConsistent | firmware/src/tasks/state_machine.rs:417-420 | the same over all runs with resets |
| PowerSafety.CmConsistentMidBatchIff | firmware/src/tasks/state_machine.rs:1026-1056 | at every point of a batch the same claim holds if and only if the module is sampled on or the state before the batch is not under powered_on |
| PowerSafety.CmInconsistentMidBatch | firmware/src/tasks/state_machine.rs:1026-1035 | a run from power-up leads to a controller for which every batch with the module sampled off breaks the claim |
| PowerSafety.CmEventsAlternate | firmware/src/tasks/state_machine.rs:1026-1035 | the compute-module events of all batches since power-up alternate, beginning with On |
| PowerRuns.RunEndsVinConsistent | firmware/src/tasks/state_machine.rs:311-397 | after any run, unless the last cycle reset, charging, startup and operational states imply input power at the last Tick, off and blackout states its absence |
| PowerSafety.BlackoutReturnsToItsMode | firmware/src/tasks/state_machine.rs:575-637 | a blackout of any length that ends in operation returns to the mode it interrupted, with the same timeout, at a Tick with input power |
| PowerStartup.StartupWaitsForRisingEdge | firmware/src/tasks/state_machine.rs:383-397 | with input power present the machine is still in SystemStartup if and only if no rising edge of the compute module has been sampled |
| PowerStartup.EarlyModuleIsMissed | firmware/src/tasks/state_machine.rs:383-397 | from power-up, two charged cycles with the module on at the second reach SystemStartup, and while the module stays on and input power present the machine never leaves it |
| PowerStartup.StandbyWaitsForRisingEdge | firmware/src/tasks/state_machine.rs:949-955 | whatever the inputs, Standby lasts through every cycle if and only if no rising edge of the compute module is sampled, and until then nothing changes, the context included |
| PowerStartup.BootReachesSolo | firmware/src/tasks/state_machine.rs:342-397 | some run from power-up reaches solo operation |
| PowerTiming.ElapsedTimesNeverUnderflow | firmware/src/tasks/state_machine.rs:526-531 | with a monotonic clock every elapsed time is computed from an earlier instant |
| PowerRuns.TimerWasSetOnEntry | firmware/src/tasks/state_machine.rs:601-605 | in any run that comes from another state, the present state was entered by one event, has lasted since, and its timer is the instant of that event |
| PowerTiming.SoloShutdownNeedsUnbrokenBlackout | firmware/src/tasks/state_machine.rs:575-605 | BlackoutSolo turns into shutdown if and only if a Tick without input power lies more than the timeout read then after the beginning of an unbroken blackout |
| PowerTiming.DoubleClicksCountSoloShutdowns | firmware/src/tasks/state_machine.rs:587-594 | the button is double-clicked once per such step and never otherwise |
| PowerTiming.WhatFeedsTheWatchdog | firmware/src/tasks/state_machine.rs:421-424 | the ping time changes exactly on a ping under powered_on or on entering cooperative mode from solo; the timeout only where set, or to 0 on entering solo |
| PowerDeadlines.SilentRunIsCountdown | firmware/src/tasks/state_machine.rs:518-532 | with a silent host, from any cooperative state, the run is exactly the three-stage countdown driven by the Ticks: operation, unresponsive, powered down, reset |
| PowerDeadlines.CountdownOnSchedule | firmware/src/tasks/state_machine.rs:863-885 | under bounded Tick gaps, the stage of a countdown and its entry time are bounded on both sides at every Tick |
| PowerDeadlines.WatchdogDeadline | firmware/src/tasks/state_machine.rs:863-885 | from any cooperative state: power goes down strictly after the later of ping expiry and begin of the silence, plus 5 s, and at most two Tick gaps later; the reset follows within 5 s and one gap |
| PowerDeadlines.OutageRunIsCountdown | firmware/src/tasks/state_machine.rs:575-605 | a solo blackout in which only Ticks happen is exactly the same countdown, with the two configured timeouts and one double click |
| PowerDeadlines.BlackoutDeadline | firmware/src/tasks/state_machine.rs:575-680 | such a blackout takes power down strictly after timeout plus shutdown wait and at most two Tick gaps later; the reset follows within 5 s and one gap |
| ConfigManager.ConfigManagerTask.InitConfigManager | firmware/src/tasks/config_manager.rs:488-578 | nine settings are loaded, with defaults for missing or unreadable items |
| ConfigManager.ConfigManagerTask.Set | firmware/src/tasks/config_manager.rs:400-486 | a setter waits for the lock without effect, or changes RAM and then queues the same value, or keeps the lock while the queue is full |
| ConfigManager.ConfigManagerTask.ResumeSet | firmware/src/tasks/config_manager.rs:400-486 | a waiting setter sends and releases the lock if and only if there is room |
| ConfigManager.ConfigManagerTask.HandleEvent | firmware/src/tasks/config_manager.rs:600-710 | the manager waits for an event and stores the oldest one, the hardware version only in test mode; it panics if the store fails |
| ConfigManager.CacheStaysCoherent | firmware/src/tasks/config_manager.rs:400-479 | under every interleaving, failed stores included, RAM equals flash with everything on its way there applied in order |
| ConfigManager.RebootRestoresSettings | firmware/src/tasks/config_manager.rs:495-575 | drain, reboot and initialize give back every loaded setting; the hardware version if the manager was in test mode |
| ConfigManager.RebootAtAnyMoment | firmware/src/tasks/config_manager.rs:488-578 | a power failure or panic at any point keeps a loaded setting if and only if no differing write of it is still on its way |
| ConfigManager.FlashHoldsLastStored | firmware/src/tasks/config_manager.rs:600-690 | until a store fails, the flash holds for every setting the last value the manager finished, for the hardware version only those in test mode, or what it held before |
| ConfigManager.HardwareVersionIsLocked | firmware/src/tasks/config_manager.rs:673-686 | outside test mode the hardware version in flash never changes, failed stores or not |
| ConfigManager.RebootRestoresHardwareVersion | firmware/src/tasks/config_manager.rs:673-686 | reboot and initialization bring back the last hardware version finished in test mode, otherwise the one stored before |
| ConfigManager.RebootAfterPanic | firmware/src/tasks/config_manager.rs:488-578 | after the panic of a failed store a reboot reads what it left of its setting, and all other settings unchanged |
| ConfigManager.RebootRecovers | firmware/src/tasks/config_manager.rs:488-578 | from any state a reboot leads to a running system with nothing on its way and coherent settings |
| ConfigManager.EventsArriveInOrder | firmware/src/tasks/config_manager.rs:594-606 | events, USB requests included, are received in the order they were queued, none lost, with at most eight waiting |
| ConfigManager.RebootForgetsScales | firmware/src/tasks/config_manager.rs:565-574 | a correction scale survives a reboot if and only if it was at its default |
| ConfigManager.InitMakesCoherent | firmware/src/tasks/config_manager.rs:565-574 | initialization makes a setting coherent if and only if no different value of it is queued |
| ConfigManager.SetBeforeInitIsLost | firmware/src/tasks/config_manager.rs:445-451 | a setter that runs before initialization leaves RAM and flash different |
| LedPatterns.UpdatePattern | firmware/src/tasks/led_blinker.rs:378-408 | the update loop ends, stays in bounds, and moves the cursor as specified for repeating and one-shot patterns |
| LedPatterns.WalkIsCursorAt | firmware/src/tasks/led_blinker.rs:386-401 | the walk equals the closed form (elapsed - 1) mod total duration |
| LedPatterns.WalkComposes | firmware/src/tasks/led_blinker.rs:391-401 | walking to t1 and then to t2 is walking to t2 |
| LedPatterns.ScheduleIndependence | firmware/src/tasks/led_blinker.rs:378-408 | whatever the update times in between, fragment and start time depend only on the first stamp and the last update |
| LedPatterns.ShowsFragmentAt | firmware/src/tasks/led_blinker.rs:403-407 | whatever the update times, a repeating pattern paints the fragment the arithmetic gives, with the time since it began, within its duration |
| LedPatterns.AliveUntilEndTime | firmware/src/tasks/led_blinker.rs:391-398 | a one-shot pattern is alive if and only if its end time, which updates do not change, is not past |
| LedPatterns.OneShotShowsFragment | firmware/src/tasks/led_blinker.rs:403-407 | a one-shot pattern paints its current fragment, within its duration, if alive, and nothing otherwise |
| LedOverrides.InterpolateBetween | firmware/src/tasks/led_blinker.rs:101-108 | interpolation with truncating division stays between its ends, needs no clamp, and equals the target only at the end |
| LedOverrides.TransitionStaysInHull | firmware/src/tasks/led_blinker.rs:70-137 | over any retargets and ticks the remaining time never exceeds the total and levels stay in the hull of 0 and all targets |
| LedOverrides.RetargetIsSmooth | firmware/src/tasks/led_blinker.rs:111-136 | a retarget of 10 ms or more causes no jump, a shorter one is immediate |
| LedOverrides.TickApproachesTarget | firmware/src/tasks/led_blinker.rs:72-76 | a tick never increases the distance to the target |
| LedOverrides.TargetReachedOnTime | firmware/src/tasks/led_blinker.rs:111-136 | after n ticks a level is at its target if and only if n is at least ceil(T / 10), or it began there |
| LedOverrides.ProductFitsI32 | firmware/src/tasks/led_blinker.rs:105-107 | the i32 product cannot overflow |
| LedOverrides.Blend | firmware/src/tasks/led_blinker.rs:529-539 | blending fits u16, lies between its two colours, and is exact at alpha 0 and 255 |
| LedOverrides.BlendIsRoundedMix | firmware/src/tasks/led_blinker.rs:529-539 | blending is the linear mix in proportion of alpha, rounded down |
| LedBlinkers.LedBlinker.UpdateFrame | firmware/src/tasks/led_blinker.rs:473-490 | one frame before gamma correction: pattern, modifiers, overrides |
| LedBlinkers.LedBlinker.UpdateBase | firmware/src/tasks/led_blinker.rs:473-487 | pattern, then modifiers, into the frame buffer, before overrides |
| LedBlinkers.LedBlinker.UpdateModifiers | firmware/src/tasks/led_blinker.rs:479-487 | the loop with in-place removal updates each modifier once and keeps those still alive, in order |
| LedBlinkers.LedBlinker.BlendOverrides | firmware/src/tasks/led_blinker.rs:506-541 | expired overrides are cleared, others advance and are blended in place |
| LedBlinkers.LedBlinker.Override | firmware/src/tasks/led_blinker.rs:462-467 | all five overrides are retargeted and time-stamped |
| LedBlinkers.LedBlinker.SetPattern | firmware/src/tasks/led_blinker.rs:451-460 | a new pattern clears all overrides |
| LedBlinkers.ModifiersAreFiltered | firmware/src/tasks/led_blinker.rs:479-487 | which modifiers remain does not depend on what is painted |
| LedBlinkers.SurvivesUntilDeadline | firmware/src/tasks/led_blinker.rs:386-401 | a modifier survives a frame if and only if its deadline is not past, and frames do not move the deadline |
| LedBlinkers.SurvivorsDependOnLastFrame | firmware/src/tasks/led_blinker.rs:479-487 | two frames leave the modifiers that the later one alone would leave |
| LedBlinkers.LastModifierWins | firmware/src/tasks/led_blinker.rs:12-14 | the last modifier, if alive and covering all LEDs, decides the frame whatever lies below |
| LedFrames.PatternShows | firmware/src/tasks/led_blinker.rs:473-490 | with no modifier alive the frame, overrides aside, is the colours of the pattern |
| LedFrames.OneMoreModifierShows | firmware/src/tasks/led_blinker.rs:479-490 | a modifier added last paints over exactly what the frame shows without it |
| LedFrames.LastModifierShows | firmware/src/tasks/led_blinker.rs:12-14 | a last modifier that is alive and covers all LEDs is all the frame shows |
| LedFrames.ModifiersDoNotLeak | firmware/src/tasks/led_blinker.rs:473-490 | dropping all modifiers from any run changes neither pattern, base colours nor overrides, nor any frame that no modifier survives |
| LedFrames.EachLedHasItsOverride | firmware/src/tasks/led_blinker.rs:462-541 | over any run, the override of LED i is the single override driven by command i of each override command and the frames since the last clearing |
| LedTimeline.PatternFollowsFrames | firmware/src/tasks/led_blinker.rs:451-490 | over any run, the pattern is the one set last, updated at the times of the frames since; the brightness is the one set last |
| LedTimeline.NextFrameStartsFromPattern | firmware/src/tasks/led_blinker.rs:473-476 | the colours that the next frame starts from are those of the pattern alone |
| LedTimeline.EachModifierByItself | firmware/src/tasks/led_blinker.rs:469-487 | over any run, the modifiers are those added, in order, each reduced by the frames that followed it alone |
| LedTimeline.LivesForItsDuration | firmware/src/tasks/led_blinker.rs:386-401 | a modifier lives through its frames if and only if the last is no later than the first plus its whole duration |
| LedBlinkers.OverridesDoNotLeak | firmware/src/tasks/led_blinker.rs:473-490 | dropping all override commands from any run changes neither pattern, base colours nor modifiers, nor any frame without active overrides |
| LedBlinkerRuns.OverridesInForce | firmware/src/tasks/led_blinker.rs:451-515 | over any run, overrides set at t are in force if and only if the last override command came at t, no pattern change followed, and no later frame was more than 5 s away |
| LedBlinkers.TransitionsStaySound | firmware/src/tasks/led_blinker.rs:97-99 | over any run of the renderer no override has more time left than its total, so the u16 subtraction is safe |
| LedBlinkerRuns.ElapsedTimesNeverUnderflow | firmware/src/tasks/led_blinker.rs:378-404 | over any run with a monotonic clock, patterns handed over as LEDPattern::new makes them, every instant the renderer subtracts from the clock lies in the past, before and after each frame, so the u64 subtractions are safe |
| LedBlinkers.BlendStaysBetween | firmware/src/tasks/led_blinker.rs:517-540 | every channel of an overridden frame is the alpha mix of base frame and override, rounded down, and lies between them |
| AveragedInputs.AveragedInput.AddSample | firmware/src/tasks/gpio_input.rs:76-87 | count, index, ring contents and sum are those of the last ten samples after any history |
| AveragedInputs.AveragedInput.Average | firmware/src/tasks/gpio_input.rs:89-95 | the average of that window, 0 without samples |
| AveragedInputs.WindowSlides | firmware/src/tasks/gpio_input.rs:82-84 | adding the new sample and subtracting the overwritten one keeps the sum of the window |
| AveragedInputs.AverageBetween | firmware/src/tasks/gpio_input.rs:93 | the average lies between any bounds of the samples in the window |
| VersionParser.ParseVersion | firmware/src/config.rs:76-114 | the four loops compute the specified version, in bounds, None on u8 overflow |
| VersionParser.NumberAcceptedIff | firmware/src/config.rs:80-108 | a number is read with its exact value if and only if no byte lies below the digit 0 and the value fits a byte; otherwise the u8 arithmetic overflows |
| VersionParser.StableRoundTrip | firmware/src/config.rs:75-113 | "x.y.z" parses to [x, y, z, 255] for all bytes |
| VersionParser.AlphaRoundTrip | firmware/src/config.rs:75-113 | "x.y.z-aN" parses to [x, y, z, N] for all bytes |
| VersionParser.AnySuffix | firmware/src/config.rs:99-110 | whatever follows three numbers and a dash, the alpha number is read only after "-a" with at least one more byte, an error in it is an error, anything else is ignored |
| VersionParser.OnlyAlpha255LooksStable | firmware/src/config.rs:70-72 | an alpha release reads as stable if and only if its number is 255 |

## Left out

- Drivers, executor and logging: ADC, GPIO, PIO, I2C and defmt appear as input values and output fields.
- The boot loader, embassy-boot and the on-flash format of sequential-storage are not part of this model; flash is an array of
  bytes that programming can only clear, respectively a map from keys to values.
- The CRC-32 algorithm: any function from bytes to a 32-bit value.
- Floating point: voltages and samples are reals, so scaling of thresholds and the drift of the running sum are not covered.
- FlashWriter.FlashWriterTask.HandleCommand: one command is one step; that a status read can fall into an erase is modelled by
  the in-flight command of the pipeline, other awaits inside a command are not visible.
- I2C commands other than the DFU writes: they touch neither the DFU flags nor the flash queue.
- PowerMachine.StateMachineTask.RunCycle: waiting for room in the LED, USB and button channels is not modelled; only the last LED
  pattern and USB request sent are kept.
- LedBlinkers.LedBlinker.UpdateFrame: all clock readings of one frame are taken to be equal.
- What the five kinds of pattern fragment paint, gamma correction and brightness: a fragment paints by an arbitrary function.
- ConfigManager.ConfigManagerTask.HandleEvent: the effect of the USB events on the port pins is not modelled; a failed store
  affects no other key.
- Button pulses, temperature sensor, watchdog feeder, booted mark, packaging: straight-line code.
- Freedom from deadlock between mutexes and channels.
