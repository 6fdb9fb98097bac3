/**
 The power state machine (firmware/src/tasks/state_machine.rs): 14 states under three superstates,
 their entry actions, and the 50 ms cycle that feeds it.

 One event is handled by the state's own handler, then by its superstates as long as they answer
 `Super`; a transition runs the entry action of its target. `Handle` is one event, `Cycle` one batch,
 and class `StateMachineTask` is the firmware task, proved against them.
 */
module PowerMachine {
  import opened Common

  /** Instants and durations are counted in timer ticks. */
  const MS: nat := 1000

  const VIN_POWER_THRESHOLD: real := 9.0
  const VSCAP_MAX_ALARM: real := 10.6
  const OFF_STATE_DURATION_MS: nat := 5000
  const HOST_WATCHDOG_REBOOT_DURATION_MS: nat := 5000

  datatype State =
    | PowerOff
    | OffCharging
    | SystemStartup
    | OperationalSolo
    | OperationalCoOp
    | BlackoutSolo(entryTime: nat)
    | BlackoutCoOp(entryTime: nat)
    | BlackoutShutdown(entryTime: nat)
    | ManualShutdown(entryTime: nat)
    | PoweredDownBlackout(entryTime: nat)
    | PoweredDownManual(entryTime: nat)
    | HostUnresponsive(entryTime: nat)
    | EnteringStandby(entryTime: nat)
    | Standby

  /** state_as_u8: the numbering is part of the I2C interface. */
  function StateNumber(s: State): Byte {
    match s
    case PowerOff => 0
    case OffCharging => 1
    case SystemStartup => 2
    case OperationalSolo => 3
    case OperationalCoOp => 4
    case BlackoutSolo(_) => 5
    case BlackoutCoOp(_) => 6
    case BlackoutShutdown(_) => 7
    case ManualShutdown(_) => 8
    case PoweredDownBlackout(_) => 9
    case PoweredDownManual(_) => 10
    case HostUnresponsive(_) => 11
    case EnteringStandby(_) => 12
    case Standby => 13
  }

  datatype Superstate = PoweredOn | Operational | Blackout

  datatype Event =
    | Tick
    | SupercapOvervoltage
    | ComputeModuleOn
    | ComputeModuleOff
    | Shutdown
    | StandbyShutdown
    | Off
    | SetWatchdogTimeout(ms: U16)
    | WatchdogPing
    | PowerButtonPress

  /** What other tasks can put into the event channel. */
  predicate External(e: Event) {
    !e.Tick? && !e.SupercapOvervoltage? && !e.ComputeModuleOn? && !e.ComputeModuleOff?
  }

  type Request = e: Event | External(e) witness Off

  datatype LedPattern = StatePattern(number: Byte) | AlarmPattern

  /** `led` and `usbOn` are the last pattern and USB power request sent; en3v3 is active low. */
  datatype Context = Context(
    en5v: bool,
    en3v3High: bool,
    pcieSleep: bool,
    watchdogMs: U16,
    lastPing: nat,
    alarmActive: bool,
    led: Option<LedPattern>,
    usbOn: Option<bool>,
    doubleClicks: nat)

  /**
   What one event can read: inputs, settings, and the clock, read up to three times: for the
   timeout checks, when the target state is made, and in the entry action.
   */
  datatype Env = Env(
    vin: real,
    vscap: real,
    powerOnThreshold: real,
    soloTimeoutMs: U32,
    shutdownWaitMs: U32,
    autoRestart: bool,
    check: nat,
    made: nat,
    entered: nat)

  predicate VinAvailable(env: Env) {
    env.vin > VIN_POWER_THRESHOLD
  }

  predicate Expired(env: Env, since: nat, ms: nat) {
    env.check - since > ms * MS
  }

  datatype Outcome = Handled | Super | Transition(target: State) | Reset

  // ---------------------------------------------------------------- handlers

  function StateHandler(s: State, e: Event, c: Context, env: Env): (Outcome, Context) {
    match s
    case PowerOff =>
      if e.Tick? && VinAvailable(env) then (Transition(OffCharging), c) else (Super, c)
    case OffCharging =>
      if !e.Tick? then (Super, c)
      else if !VinAvailable(env) then (Transition(PowerOff), c)
      else if env.vscap >= env.powerOnThreshold then (Transition(SystemStartup), c)
      else (Super, c)
    case SystemStartup =>
      if e.ComputeModuleOn? then (Transition(OperationalSolo), c)
      else if e.Tick? && !VinAvailable(env) then (Transition(PowerOff), c)
      else (Super, c)
    case OperationalSolo =>
      if e.Tick? && !VinAvailable(env) then (Transition(BlackoutSolo(env.made)), c)
      else if e.SetWatchdogTimeout? && e.ms > 0 then
        (Transition(OperationalCoOp), c.(watchdogMs := e.ms, lastPing := env.check))
      else (Super, c)
    case OperationalCoOp =>
      if e.Tick? then
        if !VinAvailable(env) then (Transition(BlackoutCoOp(env.made)), c)
        else if Expired(env, c.lastPing, c.watchdogMs) then (Transition(HostUnresponsive(env.made)), c)
        else (Super, c)
      else if e.SetWatchdogTimeout? then
        if e.ms == 0 then (Transition(OperationalSolo), c.(watchdogMs := 0))
        else (Super, c.(watchdogMs := e.ms))
      else (Super, c)
    case BlackoutSolo(entryTime) =>
      if !e.Tick? then (Super, c)
      else if VinAvailable(env) then (Transition(OperationalSolo), c)
      else if Expired(env, entryTime, env.soloTimeoutMs) then
        (Transition(BlackoutShutdown(env.made)), c.(doubleClicks := c.doubleClicks + 1))
      else (Super, c)
    case BlackoutCoOp(_) =>
      if e.Tick? && VinAvailable(env) then (Transition(OperationalCoOp), c)
      else if e.Shutdown? then (Transition(BlackoutShutdown(env.made)), c)
      else (Super, c)
    case BlackoutShutdown(entryTime) =>
      if (e.Tick? && Expired(env, entryTime, env.shutdownWaitMs)) || e.ComputeModuleOff? then
        (Transition(PoweredDownBlackout(env.made)), c)
      else (Super, c)
    case ManualShutdown(entryTime) =>
      if (e.Tick? && Expired(env, entryTime, env.shutdownWaitMs)) || e.ComputeModuleOff? then
        (Transition(PoweredDownManual(env.made)), c)
      else (Super, c)
    case PoweredDownBlackout(entryTime) =>
      if (e.Tick? && Expired(env, entryTime, OFF_STATE_DURATION_MS)) || e.PowerButtonPress? then (Reset, c)
      else (Super, c)
    case PoweredDownManual(entryTime) =>
      if e.Tick? then
        if !VinAvailable(env) then (Reset, c)
        else if Expired(env, entryTime, OFF_STATE_DURATION_MS) && env.autoRestart then (Reset, c)
        else (Super, c)
      else if e.PowerButtonPress? then (Reset, c)
      else (Super, c)
    case HostUnresponsive(entryTime) =>
      if e.Tick? && Expired(env, entryTime, HOST_WATCHDOG_REBOOT_DURATION_MS) then
        (Transition(PoweredDownBlackout(env.made)), c)
      else if e.WatchdogPing? then (Transition(OperationalCoOp), c.(lastPing := env.check))
      else (Super, c)
    case EnteringStandby(entryTime) =>
      if (e.Tick? && Expired(env, entryTime, env.shutdownWaitMs)) || e.ComputeModuleOff? then
        (Transition(Standby), c)
      else (Super, c)
    case Standby =>
      if e.ComputeModuleOn? then (Transition(OperationalSolo), c) else (Super, c)
  }

  function SuperHandler(s: Superstate, e: Event, c: Context, env: Env): (Outcome, Context) {
    match s
    case PoweredOn =>
      (match e
       case ComputeModuleOff => (Transition(PoweredDownManual(env.made)), c)
       case Off => (Transition(PoweredDownManual(env.made)), c)
       case WatchdogPing => (Handled, c.(lastPing := env.check))
       case SupercapOvervoltage => (Handled, c.(alarmActive := true, led := Some(AlarmPattern)))
       case _ => (Super, c))
    case Operational =>
      (match e
       case Shutdown => (Transition(ManualShutdown(env.made)), c)
       case StandbyShutdown => (Transition(EnteringStandby(env.made)), c)
       case _ => (Super, c))
    case Blackout => (Super, c)
  }

  function Parent(s: State): Option<Superstate> {
    match s
    case OperationalSolo | OperationalCoOp => Some(Operational)
    case BlackoutSolo(_) | BlackoutCoOp(_) => Some(Blackout)
    case HostUnresponsive(_) => Some(PoweredOn)
    case _ => None
  }

  function Grandparent(s: Superstate): Option<Superstate> {
    if s.PoweredOn? then None else Some(PoweredOn)
  }

  function Height(s: Option<Superstate>): nat {
    if s.None? then 0 else 1 + (if s.value.PoweredOn? then 0 else 1)
  }

  /** The superstates' answer, from `s` upwards. */
  function Climb(s: Option<Superstate>, e: Event, c: Context, env: Env): (Outcome, Context)
    decreases Height(s)
  {
    if s.None? then (Super, c)
    else
      var (outcome, c') := SuperHandler(s.value, e, c, env);
      if outcome.Super? then Climb(Grandparent(s.value), e, c', env) else (outcome, c')
  }

  predicate UnderPoweredOn(s: State) {
    Parent(s).Some?
  }

  // ---------------------------------------------------------------- entry actions

  function RailsOff(c: Context): Context {
    c.(en5v := false, en3v3High := true, pcieSleep := true, usbOn := Some(false))
  }

  function RailsOn(c: Context): Context {
    c.(en5v := true, en3v3High := false, pcieSleep := false, usbOn := Some(true))
  }

  function Show(c: Context, s: State): Context {
    c.(led := Some(StatePattern(StateNumber(s))))
  }

  /** Three entry actions stamp the entry time again; PowerOff alone sends no LED pattern. */
  function Entry(s: State, c: Context, env: Env): (State, Context) {
    match s
    case PowerOff => (s, RailsOff(c))
    case SystemStartup => (s, Show(RailsOn(c), s))
    case OperationalSolo => (s, Show(c, s).(watchdogMs := 0))
    case BlackoutSolo(_) => (BlackoutSolo(env.entered), Show(c, s))
    case BlackoutCoOp(_) => (BlackoutCoOp(env.entered), Show(c, s))
    case EnteringStandby(_) => (EnteringStandby(env.entered), Show(c, s))
    case PoweredDownBlackout(_) | PoweredDownManual(_) => (s, Show(RailsOff(c), s))
    case _ => (s, Show(c, s))
  }

  // ---------------------------------------------------------------- one event

  /** Before its first event the machine has not run the entry action of its initial state. */
  datatype Machine = Machine(initialized: bool, state: State, ctx: Context)

  function Boot(now: nat): Machine {
    Machine(false, PowerOff, Context(false, true, false, 0, now, false, None, None, 0))
  }

  function Initialize(m: Machine, env: Env): Machine {
    if m.initialized then m
    else
      var (s, c) := Entry(m.state, m.ctx, env);
      Machine(true, s, c)
  }

  /** The state's own handler, then its superstates. */
  function Dispatch(s: State, e: Event, c: Context, env: Env): (Outcome, Context) {
    var (own, c') := StateHandler(s, e, c, env);
    if own.Super? then Climb(Parent(s), e, c', env) else (own, c')
  }

  /** None: the controller resets itself. */
  function Handle(m: Machine, e: Event, env: Env): Option<Machine> {
    var m1 := Initialize(m, env);
    var (outcome, c) := Dispatch(m1.state, e, m1.ctx, env);
    match outcome
    case Reset => None
    case Transition(target) =>
      var (s, c') := Entry(target, c, env);
      Some(Machine(true, s, c'))
    case _ => Some(m1.(ctx := c))
  }

  function RunEvents(m: Machine, events: seq<Event>, envs: nat -> Env): Option<Machine> {
    if events == [] then Some(m)
    else
      var n := |events| - 1;
      var before := RunEvents(m, events[..n], envs);
      if before.None? then None else Handle(before.value, events[n], envs(n))
  }

  // ---------------------------------------------------------------- one cycle

  /** `cmOn` and `vscap` are sampled when the batch is put together; `tick` is what the closing Tick reads. */
  datatype CycleInput = CycleInput(
    queued: seq<Request>,
    cmOn: bool,
    vscap: real,
    envs: nat -> Env,
    tick: Env,
    bootTime: nat)

  datatype Controller = Controller(machine: Machine, prevCmOn: bool)

  function PowerUp(now: nat): Controller {
    Controller(Boot(now), false)
  }

  function CmEdge(prevCmOn: bool, cmOn: bool): seq<Event> {
    if cmOn == prevCmOn then [] else if cmOn then [ComputeModuleOn] else [ComputeModuleOff]
  }

  /** The events handled before the closing Tick. */
  function Prelude(c: Controller, input: CycleInput): seq<Event> {
    input.queued
    + CmEdge(c.prevCmOn, input.cmOn)
    + (if input.vscap > VSCAP_MAX_ALARM && !c.machine.ctx.alarmActive then [SupercapOvervoltage] else [])
  }

  /** None: some event of the batch reset the controller, and the rest of the batch is lost. */
  function Cycle(c: Controller, input: CycleInput): Option<Controller> {
    var before := RunEvents(c.machine, Prelude(c, input), input.envs);
    var after := if before.None? then None else Handle(before.value, Tick, input.tick);
    if after.None? then None else Some(Controller(after.value, input.cmOn))
  }

  /** All cycles so far; a reset powers the controller up again. */
  function Run(c: Controller, inputs: seq<CycleInput>): Controller {
    if inputs == [] then c
    else
      var n := |inputs| - 1;
      var after := Cycle(Run(c, inputs[..n]), inputs[n]);
      if after.None? then PowerUp(inputs[n].bootTime) else after.value
  }

  /** Consecutive cycles up to the first reset. */
  function CycleRun(c: Controller, inputs: seq<CycleInput>): Option<Controller> {
    if inputs == [] then Some(c)
    else
      var n := |inputs| - 1;
      var before := CycleRun(c, inputs[..n]);
      if before.None? then None else Cycle(before.value, inputs[n])
  }

  // ---------------------------------------------------------------- the firmware task

  class StateMachineTask {
    var initialized: bool
    var state: State
    var context: Context
    var prevCmOn: bool

    constructor (now: nat)
      ensures Snapshot() == PowerUp(now)
    {
      initialized, state, context, prevCmOn := false, PowerOff, Boot(now).ctx, false;
    }

    ghost function Snapshot(): Controller
      reads this
    {
      Controller(Machine(initialized, state, context), prevCmOn)
    }

    method Enter(target: State, env: Env)
      modifies this`initialized, this`state, this`context
      ensures initialized
      ensures (state, context) == Entry(target, old(context), env)
    {
      initialized := true;
      state := target;
      match target {
        case PowerOff =>
          context := RailsOff(context);
        case SystemStartup =>
          context := RailsOn(context);
          context := Show(context, target);
        case OperationalSolo =>
          context := Show(context, target);
          context := context.(watchdogMs := 0);
        case BlackoutSolo(_) =>
          state := BlackoutSolo(env.entered);
          context := Show(context, target);
        case BlackoutCoOp(_) =>
          state := BlackoutCoOp(env.entered);
          context := Show(context, target);
        case EnteringStandby(_) =>
          state := EnteringStandby(env.entered);
          context := Show(context, target);
        case PoweredDownBlackout(_) | PoweredDownManual(_) =>
          context := RailsOff(context);
          context := Show(context, target);
        case _ =>
          context := Show(context, target);
      }
    }

    method HandleWithContext(e: Event, env: Env) returns (reset: bool)
      modifies this`initialized, this`state, this`context
      ensures var m := Handle(old(Snapshot()).machine, e, env);
              && (reset <==> m.None?)
              && (!reset ==> Snapshot().machine == m.value)
    {
      if !initialized {
        Enter(state, env);
      }
      hide StateHandler, SuperHandler;
      ghost var s, c := state, context;
      var own := StateHandler(state, e, context, env);
      var outcome := own.0;
      context := own.1;
      var superstate := Parent(state);
      while outcome.Super? && superstate.Some?
        invariant state == s && initialized
        invariant Dispatch(s, e, c, env) ==
                  if outcome.Super? then Climb(superstate, e, context, env) else (outcome, context)
        decreases Height(superstate)
      {
        var answer := SuperHandler(superstate.value, e, context, env);
        outcome, context := answer.0, answer.1;
        superstate := Grandparent(superstate.value);
      }
      if outcome.Reset? {
        return true;
      }
      if outcome.Transition? {
        Enter(outcome.target, env);
      }
      return false;
    }

    method CollectEvents(input: CycleInput) returns (events: seq<Event>)
      modifies this`prevCmOn
      ensures events == Prelude(old(Snapshot()), input) + [Tick]
      ensures prevCmOn == input.cmOn
    {
      events := [];
      var i := 0;
      while i < |input.queued|
        invariant 0 <= i <= |input.queued|
        invariant events == input.queued[..i]
        invariant prevCmOn == old(prevCmOn)
      {
        events := events + [input.queued[i]];
        i := i + 1;
      }
      if input.cmOn != prevCmOn {
        events := events + [if input.cmOn then ComputeModuleOn else ComputeModuleOff];
        prevCmOn := input.cmOn;
      }
      if input.vscap > VSCAP_MAX_ALARM && !context.alarmActive {
        events := events + [SupercapOvervoltage];
      }
      events := events + [Tick];
    }

    method RunCycle(input: CycleInput) returns (reset: bool)
      modifies this
      ensures var c := Cycle(old(Snapshot()), input);
              && (reset <==> c.None?)
              && (!reset ==> Snapshot() == c.value)
    {
      hide Handle;
      ghost var c := Snapshot();
      var events := CollectEvents(input);
      ghost var prelude := Prelude(c, input);
      hide Prelude;
      assert prelude[..0] == [] && prelude[..|prelude|] == prelude;
      var i := 0;
      while i < |events|
        invariant 0 <= i <= |events|
        invariant prevCmOn == input.cmOn
        invariant i <= |prelude| ==> RunEvents(c.machine, prelude[..i], input.envs) == Some(Snapshot().machine)
        invariant i == |events| ==> Cycle(c, input) == Some(Snapshot())
      {
        var r := HandleWithContext(events[i], if i < |events| - 1 then input.envs(i) else input.tick);
        if i < |prelude| {
          assert prelude[..i + 1][..i] == prelude[..i];
          LostBatch(c.machine, prelude, input.envs, i);
        }
        if r {
          return true;
        }
        i := i + 1;
      }
      return false;
    }
  }

  lemma {:induction false} LostBatch(m: Machine, events: seq<Event>, envs: nat -> Env, i: nat)
    ensures i < |events| && RunEvents(m, events[..i + 1], envs).None? ==> RunEvents(m, events, envs).None?
    decreases |events|
  {
    if i < |events| {
      var n := |events| - 1;
      if i < n {
        assert events[..n][..i + 1] == events[..i + 1];
        LostBatch(m, events[..n], envs, i);
      } else {
        assert events[..i + 1] == events;
      }
    }
  }
}
