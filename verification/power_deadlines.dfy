/**
 How long the way from operation to a reset takes: the watchdog of a silent host, and a solo blackout. Both are a
 countdown of three stages, driven by the Ticks alone; `Countdown` is its specification.
 */
module PowerDeadlines {
  import opened Common
  import opened PowerMachine
  import opened PowerAlarm

  // ---------------------------------------------------------------- the countdown

  /** Running until a first expiry, waiting with power on, powered down, restarted. */
  datatype Stage = Running | Waiting(entered: nat) | Down(entered: nat) | Restarted

  const OFF: nat := OFF_STATE_DURATION_MS * MS

  function NextStage(s: Stage, t: Env, expiry: nat, wait: nat): Stage {
    match s
    case Running => if t.check > expiry then Waiting(t.made) else s
    case Waiting(entered) => if t.check > entered + wait then Down(t.made) else s
    case Down(entered) => if t.check > entered + OFF then Restarted else s
    case Restarted => s
  }

  /** The stage after the Ticks of the given cycles. */
  function Countdown(inputs: seq<CycleInput>, expiry: nat, wait: nat): Stage {
    if inputs == [] then Running
    else
      var n := |inputs| - 1;
      NextStage(Countdown(inputs[..n], expiry, wait), inputs[n].tick, expiry, wait)
  }

  /** Ticks at most `gap` apart, starting from `start`, each taking at most `latency` to act. */
  predicate Paced(inputs: seq<CycleInput>, start: nat, gap: nat, latency: nat) {
    && (forall i :: 0 <= i < |inputs| ==>
          inputs[i].tick.check <= inputs[i].tick.made <= inputs[i].tick.check + latency)
    && (forall i :: 0 <= i < |inputs| ==>
          LastTick(inputs, start, i) <= inputs[i].tick.check <= LastTick(inputs, start, i) + gap)
  }

  /** The time of the last Tick among the first `i` cycles. */
  function LastTick(inputs: seq<CycleInput>, start: nat, i: nat): nat
    requires i <= |inputs|
  {
    if i == 0 then start else inputs[i - 1].tick.check
  }

  /**
   Where the countdown is by the time `t` of the last Tick. It begins at the expiry, or with the cycles
   themselves if they begin later.
   */
  predicate OnSchedule(s: Stage, t: nat, start: nat, expiry: nat, wait: nat, gap: nat, latency: nat) {
    var begin := Max(expiry, start);
    match s
    case Running => t == start || start <= t <= expiry
    case Waiting(entered) =>
      && begin <= entered <= begin + gap + latency
      && begin <= t <= entered + wait
      && expiry < t
    case Down(entered) =>
      && begin + wait < entered <= begin + wait + 2 * gap + 2 * latency
      && begin + wait < t <= entered + OFF
    case Restarted => t > begin + wait + OFF
  }

  lemma {:induction false} TickKeepsSchedule(s: Stage, last: nat, tick: Env, start: nat, expiry: nat, wait: nat,
                                             gap: nat, latency: nat)
    requires OnSchedule(s, last, start, expiry, wait, gap, latency)
    requires last <= tick.check <= last + gap
    requires tick.check <= tick.made <= tick.check + latency
    ensures OnSchedule(NextStage(s, tick, expiry, wait), tick.check, start, expiry, wait, gap, latency)
  {
  }

  lemma {:induction false} PacedPrefix(inputs: seq<CycleInput>, start: nat, gap: nat, latency: nat)
    requires inputs != [] && Paced(inputs, start, gap, latency)
    ensures var n := |inputs| - 1;
            && Paced(inputs[..n], start, gap, latency)
            && LastTick(inputs[..n], start, n) <= inputs[n].tick.check <= LastTick(inputs[..n], start, n) + gap
            && inputs[n].tick.check <= inputs[n].tick.made <= inputs[n].tick.check + latency
            && LastTick(inputs, start, n + 1) == inputs[n].tick.check
  {
    var n := |inputs| - 1;
    assert forall i :: 0 <= i <= n ==> LastTick(inputs[..n], start, i) == LastTick(inputs, start, i);
  }

  lemma {:induction false} CountdownOnSchedule(inputs: seq<CycleInput>, start: nat, expiry: nat, wait: nat,
                                               gap: nat, latency: nat)
    requires Paced(inputs, start, gap, latency)
    ensures OnSchedule(Countdown(inputs, expiry, wait), LastTick(inputs, start, |inputs|), start, expiry, wait,
                       gap, latency)
  {
    if inputs != [] {
      hide OnSchedule;
      var n := |inputs| - 1;
      PacedPrefix(inputs, start, gap, latency);
      hide Paced, LastTick;
      CountdownOnSchedule(inputs[..n], start, expiry, wait, gap, latency);
      TickKeepsSchedule(Countdown(inputs[..n], expiry, wait), LastTick(inputs[..n], start, n), inputs[n].tick,
                        start, expiry, wait, gap, latency);
    }
  }

  // ---------------------------------------------------------------- cycles without requests

  lemma {:induction false} QuietPrelude(c: Controller, input: CycleInput)
    requires c.machine.initialized
    requires input.queued == [] && input.cmOn == c.prevCmOn
    ensures var r := RunEvents(c.machine, Prelude(c, input), input.envs);
            && r.Some?
            && r.value == c.machine.(ctx :=
                 c.machine.ctx.(led := r.value.ctx.led, alarmActive := r.value.ctx.alarmActive))
  {
    hide Handle;
    var prelude := Prelude(c, input);
    assert prelude == [] || prelude == [SupercapOvervoltage];
    if prelude != [] {
      assert prelude[..0] == [];
      OvervoltageRaises(c.machine, input.envs(0));
    }
  }

  function MachineOf(r: Option<Controller>): Option<Machine> {
    if r.Some? then Some(r.value.machine) else None
  }

  predicate PoweredDown(m: Option<Machine>) {
    m.Some? && m.value.state.PoweredDownBlackout?
  }

  /**
   By the time `t` of the last Tick: power is still on up to the deadline; it went down after the deadline, at most two
   Tick gaps and two reaction times later; and the reset (None) followed within 5 s and one more of each.
   */
  predicate MeetsDeadline(m: Option<Machine>, t: nat, deadline: nat, gap: nat, latency: nat) {
    && (t <= deadline ==> m.Some? && !PoweredDown(m))
    && (PoweredDown(m) ==> deadline < m.value.state.entryTime <= deadline + 2 * gap + 2 * latency)
    && (t > deadline + gap + latency ==> m.None? || PoweredDown(m))
    && (t <= deadline + 5000 * MS ==> m.Some?)
    && (t > deadline + 5000 * MS + 2 * gap + 2 * latency ==> m.None?)
  }

  lemma {:induction false} ScheduleMeetsDeadline(m: Option<Machine>, s: Stage, t: nat, start: nat,
                                                 expiry: nat, wait: nat, gap: nat, latency: nat)
    requires OnSchedule(s, t, start, expiry, wait, gap, latency)
    requires s.Restarted? <==> m.None?
    requires s.Down? <==> PoweredDown(m)
    requires s.Down? ==> m.value.state.entryTime == s.entered
    ensures MeetsDeadline(m, t, Max(expiry, start) + wait, gap, latency)
  {
  }

  // ---------------------------------------------------------------- the watchdog of a silent host

  /** Nothing from the host, no change of the compute module, input power present. */
  predicate Silent(c: Controller, inputs: seq<CycleInput>) {
    forall i :: 0 <= i < |inputs| ==>
      inputs[i].queued == [] && inputs[i].cmOn == c.prevCmOn && VinAvailable(inputs[i].tick)
  }

  function PingExpiry(c: Controller): nat {
    c.machine.ctx.lastPing + c.machine.ctx.watchdogMs * MS
  }

  predicate WatchdogAt(m: Option<Machine>, c: Controller, s: Stage) {
    match s
    case Running =>
      && m.Some? && m.value.initialized && m.value.state.OperationalCoOp?
      && m.value.ctx.lastPing == c.machine.ctx.lastPing && m.value.ctx.watchdogMs == c.machine.ctx.watchdogMs
    case Waiting(entered) => m.Some? && m.value.initialized && m.value.state == HostUnresponsive(entered)
    case Down(entered) => m.Some? && m.value.initialized && m.value.state == PoweredDownBlackout(entered)
    case Restarted => m.None?
  }

  lemma {:induction false} WatchdogTick(m: Machine, t: Env, c: Controller, s: Stage)
    requires WatchdogAt(Some(m), c, s) && VinAvailable(t)
    ensures WatchdogAt(Handle(m, Tick, t), c, NextStage(s, t, PingExpiry(c), HOST_WATCHDOG_REBOOT_DURATION_MS * MS))
  {
  }

  lemma {:induction false} WatchdogCycle(before: Controller, input: CycleInput, c: Controller, s: Stage)
    requires WatchdogAt(Some(before.machine), c, s)
    requires input.queued == [] && input.cmOn == before.prevCmOn && VinAvailable(input.tick)
    ensures var r := Cycle(before, input);
            && WatchdogAt(MachineOf(r), c,
                          NextStage(s, input.tick, PingExpiry(c), HOST_WATCHDOG_REBOOT_DURATION_MS * MS))
            && (r.Some? ==> r.value.prevCmOn == before.prevCmOn)
  {
    hide Handle, RunEvents, Prelude, NextStage;
    QuietPrelude(before, input);
    WatchdogTick(RunEvents(before.machine, Prelude(before, input), input.envs).value, input.tick, c, s);
  }

  /** From any cooperative state, a silent host leaves the machine at exactly the stage the countdown gives. */
  lemma {:induction false} SilentRunIsCountdown(c: Controller, inputs: seq<CycleInput>)
    requires c.machine.initialized && c.machine.state.OperationalCoOp?
    requires Silent(c, inputs)
    ensures var r := CycleRun(c, inputs);
            && WatchdogAt(MachineOf(r), c, Countdown(inputs, PingExpiry(c), HOST_WATCHDOG_REBOOT_DURATION_MS * MS))
            && (r.Some? ==> r.value.prevCmOn == c.prevCmOn)
  {
    hide Cycle, NextStage;
    if inputs != [] {
      hide WatchdogAt;
      var n := |inputs| - 1;
      SilentRunIsCountdown(c, inputs[..n]);
      var before := CycleRun(c, inputs[..n]);
      var s := Countdown(inputs[..n], PingExpiry(c), HOST_WATCHDOG_REBOOT_DURATION_MS * MS);
      if before.Some? {
        WatchdogCycle(before.value, inputs[n], c, s);
      } else {
        WatchdogRestarted(c, s, inputs[n].tick);
      }
    }
  }

  lemma {:induction false} WatchdogRestarted(c: Controller, s: Stage, t: Env)
    requires WatchdogAt(None, c, s)
    ensures WatchdogAt(None, c, NextStage(s, t, PingExpiry(c), HOST_WATCHDOG_REBOOT_DURATION_MS * MS))
  {
  }

  lemma {:induction false} WatchdogAtMeans(m: Option<Machine>, c: Controller, s: Stage)
    requires WatchdogAt(m, c, s)
    ensures s.Restarted? <==> m.None?
    ensures s.Down? <==> PoweredDown(m)
    ensures s.Down? ==> m.value.state.entryTime == s.entered
    ensures m.Some? && !PoweredDown(m) ==> m.value.state.OperationalCoOp? || m.value.state.HostUnresponsive?
  {
  }

  /**
   The two-sided watchdog deadline. From `start` on let the host be silent in cooperative mode, with input power
   present and Ticks at most `gap` apart. The deadline is 5 s after the ping expires (after `start`, if it had
   expired by then, as it can have during a blackout).
   */
  lemma {:induction false} WatchdogDeadline(c: Controller, inputs: seq<CycleInput>, start: nat, gap: nat, latency: nat)
    requires c.machine.initialized && c.machine.state.OperationalCoOp?
    requires inputs != [] && Silent(c, inputs) && Paced(inputs, start, gap, latency)
    ensures var m := MachineOf(CycleRun(c, inputs));
            var t := inputs[|inputs| - 1].tick.check;
            var deadline := Max(c.machine.ctx.lastPing + c.machine.ctx.watchdogMs * MS, start) + 5000 * MS;
            && MeetsDeadline(m, t, deadline, gap, latency)
            && (m.Some? && !PoweredDown(m) ==> m.value.state.OperationalCoOp? || m.value.state.HostUnresponsive?)
  {
    var wait := HOST_WATCHDOG_REBOOT_DURATION_MS * MS;
    var m, s := MachineOf(CycleRun(c, inputs)), Countdown(inputs, PingExpiry(c), wait);
    SilentRunIsCountdown(c, inputs);
    CountdownOnSchedule(inputs, start, PingExpiry(c), wait, gap, latency);
    hide CycleRun, Countdown, OnSchedule, MeetsDeadline, WatchdogAt, Silent, Paced;
    WatchdogAtMeans(m, c, s);
    ScheduleMeetsDeadline(m, s, LastTick(inputs, start, |inputs|), start, PingExpiry(c), wait, gap, latency);
  }

  // ---------------------------------------------------------------- a solo blackout

  /** No request, no change of the compute module, no input power, and the two timeouts unchanged. */
  predicate Outage(c: Controller, inputs: seq<CycleInput>, timeoutMs: U32, waitMs: U32) {
    forall i :: 0 <= i < |inputs| ==>
      && inputs[i].queued == [] && inputs[i].cmOn == c.prevCmOn && !VinAvailable(inputs[i].tick)
      && inputs[i].tick.soloTimeoutMs == timeoutMs && inputs[i].tick.shutdownWaitMs == waitMs
  }

  function SoloExpiry(c: Controller, timeoutMs: U32): nat
    requires c.machine.state.BlackoutSolo?
  {
    c.machine.state.entryTime + timeoutMs * MS
  }

  function InTicks(ms: U32): nat {
    ms * MS
  }

  /** The button is double-clicked once, when the blackout turns into a shutdown. */
  predicate BlackoutAt(m: Option<Machine>, c: Controller, s: Stage) {
    match s
    case Running =>
      && m.Some? && m.value.initialized && m.value.state == c.machine.state
      && m.value.ctx.doubleClicks == c.machine.ctx.doubleClicks
    case Waiting(entered) =>
      && m.Some? && m.value.initialized && m.value.state == BlackoutShutdown(entered)
      && m.value.ctx.doubleClicks == c.machine.ctx.doubleClicks + 1
    case Down(entered) =>
      && m.Some? && m.value.initialized && m.value.state == PoweredDownBlackout(entered)
      && m.value.ctx.doubleClicks == c.machine.ctx.doubleClicks + 1
    case Restarted => m.None?
  }

  lemma {:induction false} BlackoutTick(m: Machine, t: Env, c: Controller, s: Stage)
    requires c.machine.state.BlackoutSolo?
    requires BlackoutAt(Some(m), c, s) && !VinAvailable(t)
    ensures BlackoutAt(Handle(m, Tick, t), c,
                       NextStage(s, t, SoloExpiry(c, t.soloTimeoutMs), InTicks(t.shutdownWaitMs)))
  {
  }

  lemma {:induction false} BlackoutCycle(before: Controller, input: CycleInput, c: Controller, s: Stage)
    requires c.machine.state.BlackoutSolo?
    requires BlackoutAt(Some(before.machine), c, s)
    requires input.queued == [] && input.cmOn == before.prevCmOn && !VinAvailable(input.tick)
    ensures var r := Cycle(before, input);
            var expiry := SoloExpiry(c, input.tick.soloTimeoutMs);
            && BlackoutAt(MachineOf(r), c, NextStage(s, input.tick, expiry, InTicks(input.tick.shutdownWaitMs)))
            && (r.Some? ==> r.value.prevCmOn == before.prevCmOn)
  {
    hide Handle, RunEvents, Prelude, NextStage, SoloExpiry, InTicks;
    QuietPrelude(before, input);
    BlackoutTick(RunEvents(before.machine, Prelude(before, input), input.envs).value, input.tick, c, s);
  }

  /** A solo blackout that is left alone takes the machine to exactly the stage the countdown gives. */
  lemma {:induction false} OutageRunIsCountdown(c: Controller, inputs: seq<CycleInput>, timeoutMs: U32, waitMs: U32)
    requires c.machine.initialized && c.machine.state.BlackoutSolo?
    requires Outage(c, inputs, timeoutMs, waitMs)
    ensures var r := CycleRun(c, inputs);
            && BlackoutAt(MachineOf(r), c, Countdown(inputs, SoloExpiry(c, timeoutMs), InTicks(waitMs)))
            && (r.Some? ==> r.value.prevCmOn == c.prevCmOn)
  {
    hide Cycle, NextStage;
    if inputs != [] {
      hide BlackoutAt;
      var n := |inputs| - 1;
      OutageRunIsCountdown(c, inputs[..n], timeoutMs, waitMs);
      var before := CycleRun(c, inputs[..n]);
      var expiry, wait := SoloExpiry(c, timeoutMs), InTicks(waitMs);
      var s := Countdown(inputs[..n], expiry, wait);
      if before.Some? {
        BlackoutCycle(before.value, inputs[n], c, s);
      } else {
        BlackoutRestarted(c, s, inputs[n].tick, expiry, wait);
      }
    }
  }

  lemma {:induction false} BlackoutRestarted(c: Controller, s: Stage, t: Env, expiry: nat, wait: nat)
    requires BlackoutAt(None, c, s)
    ensures BlackoutAt(None, c, NextStage(s, t, expiry, wait))
  {
  }

  lemma {:induction false} BlackoutAtMeans(m: Option<Machine>, c: Controller, s: Stage)
    requires c.machine.state.BlackoutSolo? && BlackoutAt(m, c, s)
    ensures s.Restarted? <==> m.None?
    ensures s.Down? <==> PoweredDown(m)
    ensures s.Down? ==> m.value.state.entryTime == s.entered
    ensures m.Some? && !PoweredDown(m) ==> m.value.state.BlackoutSolo? || m.value.state.BlackoutShutdown?
    ensures m.Some? ==> m.value.ctx.doubleClicks ==
                        c.machine.ctx.doubleClicks + (if m.value.state.BlackoutSolo? then 0 else 1)
  {
  }

  lemma {:induction false} BlackoutMeetsDeadline(c: Controller, m: Option<Machine>, inputs: seq<CycleInput>,
                                                 start: nat, expiry: nat, wait: nat, gap: nat, latency: nat)
    requires c.machine.state.BlackoutSolo? && BlackoutAt(m, c, Countdown(inputs, expiry, wait))
    requires Paced(inputs, start, gap, latency)
    ensures MeetsDeadline(m, LastTick(inputs, start, |inputs|), Max(expiry, start) + wait, gap, latency)
  {
    hide *;
    CountdownOnSchedule(inputs, start, expiry, wait, gap, latency);
    var s := Countdown(inputs, expiry, wait);
    BlackoutAtMeans(m, c, s);
    ScheduleMeetsDeadline(m, s, LastTick(inputs, start, |inputs|), start, expiry, wait, gap, latency);
  }

  /**
   The two-sided deadline of a solo blackout in which, from `start` on, nothing happens but Ticks at most `gap` apart.
   The deadline is the shutdown wait after the end of the solo timeout (after `start`, if it had ended by then).
   */
  lemma {:induction false} BlackoutDeadline(c: Controller, inputs: seq<CycleInput>, timeoutMs: U32, waitMs: U32,
                                            start: nat, gap: nat, latency: nat)
    requires c.machine.initialized && c.machine.state.BlackoutSolo?
    requires inputs != [] && Outage(c, inputs, timeoutMs, waitMs) && Paced(inputs, start, gap, latency)
    ensures var m := MachineOf(CycleRun(c, inputs));
            var t := inputs[|inputs| - 1].tick.check;
            var deadline := Max(SoloExpiry(c, timeoutMs), start) + InTicks(waitMs);
            && MeetsDeadline(m, t, deadline, gap, latency)
            && (m.Some? && !PoweredDown(m) ==> m.value.state.BlackoutSolo? || m.value.state.BlackoutShutdown?)
            && (m.Some? ==> m.value.ctx.doubleClicks ==
                            c.machine.ctx.doubleClicks + (if m.value.state.BlackoutSolo? then 0 else 1))
  {
    var expiry, wait := SoloExpiry(c, timeoutMs), InTicks(waitMs);
    var m := MachineOf(CycleRun(c, inputs));
    LastTickIs(inputs, start);
    OutageRunIsCountdown(c, inputs, timeoutMs, waitMs);
    hide *;
    BlackoutMeetsDeadline(c, m, inputs, start, expiry, wait, gap, latency);
    BlackoutAtMeans(m, c, Countdown(inputs, expiry, wait));
  }

  lemma {:induction false} LastTickIs(inputs: seq<CycleInput>, start: nat)
    requires inputs != []
    ensures LastTick(inputs, start, |inputs|) == inputs[|inputs| - 1].tick.check
  {
  }
}
