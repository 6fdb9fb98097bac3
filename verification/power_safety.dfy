/** What holds in every reachable state of the power machine, over all runs, batches and resets. */
module PowerSafety {
  import opened Common
  import opened PowerMachine
  import opened PowerEffects
  import opened PowerDiagram
  import opened PowerStartup

  // ---------------------------------------------------------------- rails, modes and LEDs

  predicate RailsMatchState(m: Machine) {
    if m.initialized then
      && (m.ctx.en5v <==> Powered(m.state))
      && (m.ctx.en3v3High <==> !m.ctx.en5v)
      && (m.ctx.pcieSleep <==> !m.ctx.en5v)
      && m.ctx.usbOn == Some(m.ctx.en5v)
    else
      && m.state == PowerOff && !m.ctx.en5v && m.ctx.en3v3High && !m.ctx.pcieSleep
      && m.ctx.led.None? && m.ctx.usbOn.None? && m.ctx.watchdogMs == 0 && m.ctx.doubleClicks == 0
  }

  predicate ModeMemory(m: Machine) {
    && (m.state.OperationalCoOp? || m.state.BlackoutCoOp? || m.state.HostUnresponsive? ==> m.ctx.watchdogMs > 0)
    && (m.state.OperationalSolo? || m.state.BlackoutSolo? ==> m.ctx.watchdogMs == 0)
  }

  /**
   Outside PowerOff the last pattern sent is that of the state, unless the overvoltage alarm has replaced it,
   which only happens under powered_on. The pattern of PowerOff itself is never sent.
   */
  predicate LedMatchesState(m: Machine) {
    && (m.initialized && !m.state.PowerOff? ==>
          || m.ctx.led == Some(StatePattern(StateNumber(m.state)))
          || (m.ctx.led == Some(AlarmPattern) && m.ctx.alarmActive && UnderPoweredOn(m.state)))
    && m.ctx.led != Some(StatePattern(StateNumber(PowerOff)))
    && (m.ctx.led == Some(AlarmPattern) ==> m.ctx.alarmActive)
  }

  predicate Consistent(m: Machine) {
    RailsMatchState(m) && ModeMemory(m) && LedMatchesState(m)
  }

  lemma {:induction false} BootIsConsistent(now: nat)
    ensures Consistent(Boot(now))
  {
  }

  lemma {:induction false} InitializeFirst(m: Machine, e: Event, env: Env)
    requires Consistent(m)
    ensures Consistent(Initialize(m, env)) && Initialize(m, env).initialized
    ensures Handle(m, e, env) == Handle(Initialize(m, env), e, env)
  {
    hide StateHandler, Climb;
  }

  /** Handlers leave the rails alone; a transition between off and on goes through an entry action that sets them. */
  lemma {:induction false} DispatchLeavesRails(s: State, e: Event, c: Context, env: Env)
    ensures var (o, c') := Dispatch(s, e, c, env);
            && c'.en5v == c.en5v && c'.en3v3High == c.en3v3High && c'.pcieSleep == c.pcieSleep && c'.usbOn == c.usbOn
            && (o.Transition? ==>
                  || (Powered(o.target) <==> Powered(s))
                  || o.target.PowerOff? || o.target.SystemStartup?
                  || o.target.PoweredDownBlackout? || o.target.PoweredDownManual?)
  {
    HandlerEffects(s, e, c, env);
    HandlerTargets(s, e, c, env);
    SuperstateEffects(Parent(s), e, StateHandler(s, e, c, env).1, env);
    hide StateHandler, Climb;
  }

  lemma {:induction false} HandleKeepsRails(m: Machine, e: Event, env: Env)
    requires m.initialized && RailsMatchState(m)
    requires Handle(m, e, env).Some?
    ensures RailsMatchState(Handle(m, e, env).value)
    ensures Handle(m, e, env).value.initialized
  {
    DispatchLeavesRails(m.state, e, m.ctx, env);
    hide Dispatch;
  }

  lemma {:induction false} DispatchKeepsMode(s: State, e: Event, c: Context, env: Env)
    requires ModeMemory(Machine(true, s, c))
    ensures var (o, c') := Dispatch(s, e, c, env);
            if o.Transition? then o.target.OperationalSolo? || ModeMemory(Machine(true, o.target, c'))
            else ModeMemory(Machine(true, s, c'))
  {
    SuperstateEffects(Parent(s), e, StateHandler(s, e, c, env).1, env);
    hide Climb;
  }

  lemma {:induction false} HandleKeepsMode(m: Machine, e: Event, env: Env)
    requires m.initialized && ModeMemory(m)
    requires Handle(m, e, env).Some?
    ensures ModeMemory(Handle(m, e, env).value)
  {
    DispatchKeepsMode(m.state, e, m.ctx, env);
    hide Dispatch;
  }

  lemma {:induction false} DispatchAndLed(s: State, e: Event, c: Context, env: Env)
    ensures var (o, c') := Dispatch(s, e, c, env);
            || (c'.led == c.led && c'.alarmActive == c.alarmActive)
            || (!o.Transition? && UnderPoweredOn(s) && c'.led == Some(AlarmPattern) && c'.alarmActive)
  {
    HandlerEffects(s, e, c, env);
    SuperstateEffects(Parent(s), e, StateHandler(s, e, c, env).1, env);
    hide StateHandler, Climb;
  }

  lemma {:induction false} HandleKeepsLed(m: Machine, e: Event, env: Env)
    requires m.initialized && LedMatchesState(m)
    requires Handle(m, e, env).Some?
    ensures LedMatchesState(Handle(m, e, env).value)
  {
    DispatchAndLed(m.state, e, m.ctx, env);
    hide Dispatch;
  }

  lemma {:induction false} HandleKeepsConsistency(m: Machine, e: Event, env: Env)
    requires Consistent(m)
    requires Handle(m, e, env).Some?
    ensures Consistent(Handle(m, e, env).value)
    ensures Handle(m, e, env).value.initialized
  {
    hide Handle, RailsMatchState, ModeMemory, LedMatchesState;
    InitializeFirst(m, e, env);
    var m1 := Initialize(m, env);
    hide Initialize;
    HandleKeepsRails(m1, e, env);
    HandleKeepsMode(m1, e, env);
    HandleKeepsLed(m1, e, env);
  }

  /** Also in the middle of a batch. */
  lemma {:induction false} EventsKeepConsistency(m: Machine, events: seq<Event>, envs: nat -> Env)
    requires Consistent(m)
    requires RunEvents(m, events, envs).Some?
    ensures Consistent(RunEvents(m, events, envs).value)
  {
    hide Handle, Consistent;
    if events != [] {
      var n := |events| - 1;
      EventsKeepConsistency(m, events[..n], envs);
      HandleKeepsConsistency(RunEvents(m, events[..n], envs).value, events[n], envs(n));
    }
  }

  lemma {:induction false} CycleKeepsConsistency(c: Controller, input: CycleInput)
    requires Consistent(c.machine)
    requires Cycle(c, input).Some?
    ensures Consistent(Cycle(c, input).value.machine)
  {
    hide Handle, Consistent, RunEvents;
    EventsKeepConsistency(c.machine, Prelude(c, input), input.envs);
    HandleKeepsConsistency(RunEvents(c.machine, Prelude(c, input), input.envs).value, Tick, input.tick);
  }

  /** Rails, mode memory and LEDs agree with the state after any number of cycles and resets. */
  lemma {:induction false} RunKeepsConsistency(now: nat, inputs: seq<CycleInput>)
    ensures Consistent(Run(PowerUp(now), inputs).machine)
  {
    hide Handle, Consistent, Cycle;
    BootIsConsistent(now);
    if inputs != [] {
      var n := |inputs| - 1;
      RunKeepsConsistency(now, inputs[..n]);
      var before := Run(PowerUp(now), inputs[..n]);
      BootIsConsistent(inputs[n].bootTime);
      if Cycle(before, inputs[n]).Some? {
        CycleKeepsConsistency(before, inputs[n]);
      }
    }
  }

  /** The 5 V rail rises exactly when a Tick finds a charged supercap and input power in OffCharging. */
  lemma {:induction false} RailRisesOnlyWhenCharged(m: Machine, e: Event, env: Env)
    requires Consistent(m)
    requires Handle(m, e, env).Some?
    ensures !m.ctx.en5v && Handle(m, e, env).value.ctx.en5v <==>
            m.state.OffCharging? && e.Tick? && VinAvailable(env) && env.vscap >= env.powerOnThreshold
  {
  }

  /** Once powered down, the controller stays so, rails low, until it resets. */
  lemma {:induction false} PoweredDownUntilReset(m: Machine, events: seq<Event>, envs: nat -> Env)
    requires Consistent(m)
    requires m.state.PoweredDownBlackout? || m.state.PoweredDownManual?
    requires RunEvents(m, events, envs).Some?
    ensures RunEvents(m, events, envs).value == m
    ensures !m.ctx.en5v && m.ctx.usbOn == Some(false)
  {
    if events != [] {
      PoweredDownUntilReset(m, events[..|events| - 1], envs);
    }
  }

  // ---------------------------------------------------------------- the compute module at the end of a batch

  predicate CmConsistent(c: Controller) {
    UnderPoweredOn(c.machine.state) ==> c.prevCmOn
  }

  lemma {:induction false} OnlyCmOnEnters(m: Machine, e: Event, env: Env)
    requires Handle(m, e, env).Some?
    requires !UnderPoweredOn(m.state) || e.ComputeModuleOff?
    requires !e.ComputeModuleOn?
    ensures !UnderPoweredOn(Handle(m, e, env).value.state)
  {
  }

  /** From event `k` on, without a ComputeModuleOn, the machine stays outside powered_on. */
  lemma {:induction false} StaysOutside(m: Machine, events: seq<Event>, envs: nat -> Env, k: nat)
    requires k <= |events|
    requires RunEvents(m, events, envs).Some?
    requires forall i :: k <= i < |events| ==> !events[i].ComputeModuleOn?
    requires (k < |events| && events[k].ComputeModuleOff?)
             || (RunEvents(m, events[..k], envs).Some? && !UnderPoweredOn(RunEvents(m, events[..k], envs).value.state))
    ensures !UnderPoweredOn(RunEvents(m, events, envs).value.state)
    decreases |events|
  {
    hide Handle;
    if k == |events| {
      assert events[..k] == events;
    } else {
      var n := |events| - 1;
      if k < n || !events[k].ComputeModuleOff? {
        assert events[..n][..k] == events[..k];
        StaysOutside(m, events[..n], envs, k);
      }
      OnlyCmOnEnters(RunEvents(m, events[..n], envs).value, events[n], envs(n));
    }
  }

  /** After a complete cycle, whatever was queued, a state under powered_on means the compute module is on. */
  lemma {:induction false} CycleKeepsCmConsistent(c: Controller, input: CycleInput)
    requires CmConsistent(c)
    requires Cycle(c, input).Some?
    ensures CmConsistent(Cycle(c, input).value)
  {
    if !input.cmOn {
      var prelude := Prelude(c, input);
      assert c.prevCmOn ==> prelude[|input.queued|] == ComputeModuleOff;
      assert forall i :: 0 <= i < |prelude| ==> !prelude[i].ComputeModuleOn? by {
        assert forall i :: 0 <= i < |input.queued| ==> External(input.queued[i]);
      }
      hide Handle, Prelude;
      StaysOutside(c.machine, prelude, input.envs, if c.prevCmOn then |input.queued| else 0);
      OnlyCmOnEnters(RunEvents(c.machine, prelude, input.envs).value, Tick, input.tick);
    }
  }

  lemma {:induction false} RunKeepsCmConsistent(now: nat, inputs: seq<CycleInput>)
    ensures CmConsistent(Run(PowerUp(now), inputs))
  {
    hide Cycle;
    if inputs != [] {
      var n := |inputs| - 1;
      RunKeepsCmConsistent(now, inputs[..n]);
      var before := Run(PowerUp(now), inputs[..n]);
      if Cycle(before, inputs[n]).Some? {
        CycleKeepsCmConsistent(before, inputs[n]);
      }
    }
  }

  /** The claim at every point of a batch: the new sample is recorded before the first event is handled. */
  predicate CmConsistentThroughout(c: Controller, input: CycleInput) {
    forall k :: 0 <= k <= |Prelude(c, input)| && RunEvents(c.machine, Prelude(c, input)[..k], input.envs).Some? ==>
      CmConsistent(Controller(RunEvents(c.machine, Prelude(c, input)[..k], input.envs).value, input.cmOn))
  }

  /**
   In the middle of a batch the claim holds exactly if the module is sampled on, or the state before the
   batch was not under powered_on.
   */
  lemma {:induction false} CmConsistentMidBatchIff(c: Controller, input: CycleInput)
    requires CmConsistent(c)
    ensures CmConsistentThroughout(c, input) <==> input.cmOn || !UnderPoweredOn(c.machine.state)
  {
    var prelude := Prelude(c, input);
    assert prelude[..0] == [] && RunEvents(c.machine, [], input.envs) == Some(c.machine);
    if !input.cmOn && !UnderPoweredOn(c.machine.state) {
      assert forall i :: 0 <= i < |prelude| ==> !prelude[i].ComputeModuleOn? by {
        assert forall i :: 0 <= i < |input.queued| ==> External(input.queued[i]);
      }
      hide Handle, Prelude;
      forall k | 0 <= k <= |prelude| && RunEvents(c.machine, prelude[..k], input.envs).Some?
        ensures !UnderPoweredOn(RunEvents(c.machine, prelude[..k], input.envs).value.state)
      {
        assert prelude[..k][..0] == [];
        StaysOutside(c.machine, prelude[..k], input.envs, 0);
      }
    } else if !input.cmOn {
      hide RunEvents, Prelude;
      assert !CmConsistent(Controller(RunEvents(c.machine, prelude[..0], input.envs).value, input.cmOn));
    }
  }

  /** And it does fail: a run from power-up leads to a controller for which any batch with the module off breaks it. */
  lemma {:induction false} CmInconsistentMidBatch(now: nat, input: CycleInput) returns (inputs: seq<CycleInput>)
    requires !input.cmOn
    ensures CmConsistent(Run(PowerUp(now), inputs))
    ensures !CmConsistentThroughout(Run(PowerUp(now), inputs), input)
  {
    inputs := BootReachesSolo(now);
    RunKeepsCmConsistent(now, inputs);
    CmConsistentMidBatchIff(Run(PowerUp(now), inputs), input);
    hide CmConsistentThroughout, Run;
  }

  function CmOnly(events: seq<Event>): seq<Event> {
    if events == [] then []
    else
      var last := events[|events| - 1];
      CmOnly(events[..|events| - 1]) + (if last.ComputeModuleOn? || last.ComputeModuleOff? then [last] else [])
  }

  /** The compute-module events handled since `c`, in cycles up to the first reset. */
  function CmEvents(c: Controller, inputs: seq<CycleInput>): seq<Event> {
    if inputs == [] then []
    else
      var n := |inputs| - 1;
      var before := CycleRun(c, inputs[..n]);
      CmEvents(c, inputs[..n]) + (if before.Some? then CmOnly(Prelude(before.value, inputs[n])) else [])
  }

  lemma {:induction false} CmOnlyConcat(a: seq<Event>, b: seq<Event>)
    ensures CmOnly(a + b) == CmOnly(a) + CmOnly(b)
  {
    if b == [] {
      assert a + b == a;
    } else {
      var n := |b| - 1;
      CmOnlyConcat(a, b[..n]);
      assert (a + b)[..|a| + n] == a + b[..n];
    }
  }

  lemma {:induction false} RequestsAreNotCm(requests: seq<Request>)
    ensures CmOnly(requests) == []
  {
    if requests != [] {
      RequestsAreNotCm(requests[..|requests| - 1]);
      assert External(requests[|requests| - 1]);
    }
  }

  lemma {:induction false} OneCmEdgePerBatch(c: Controller, input: CycleInput)
    ensures CmOnly(Prelude(c, input)) == CmEdge(c.prevCmOn, input.cmOn)
  {
    var edge := CmEdge(c.prevCmOn, input.cmOn);
    var alarm: seq<Event> :=
      if input.vscap > VSCAP_MAX_ALARM && !c.machine.ctx.alarmActive then [SupercapOvervoltage] else [];
    RequestsAreNotCm(input.queued);
    CmOnlyConcat(input.queued + edge, alarm);
    CmOnlyConcat(input.queued, edge);
    assert edge != [] ==> edge[..0] == [];
    assert alarm != [] ==> alarm[..0] == [];
  }

  /** On, Off, On, and so on. */
  predicate Alternating(events: seq<Event>) {
    forall i :: 0 <= i < |events| ==> events[i] == if i % 2 == 0 then ComputeModuleOn else ComputeModuleOff
  }

  lemma {:induction false} EdgeKeepsAlternating(events: seq<Event>, prevCmOn: bool, cmOn: bool)
    requires Alternating(events) && (|events| % 2 == 1 <==> prevCmOn)
    ensures Alternating(events + CmEdge(prevCmOn, cmOn))
    ensures |events + CmEdge(prevCmOn, cmOn)| % 2 == 1 <==> cmOn
  {
  }

  lemma {:induction false} PrevCmIsLastSample(c: Controller, inputs: seq<CycleInput>)
    requires CycleRun(c, inputs).Some?
    ensures CycleRun(c, inputs).value.prevCmOn == if inputs == [] then c.prevCmOn else inputs[|inputs| - 1].cmOn
  {
    hide Handle, RunEvents, Prelude;
  }

  /** Since power-up they strictly alternate, beginning with On. */
  lemma {:induction false} CmEventsAlternate(now: nat, inputs: seq<CycleInput>)
    requires inputs != [] ==> CycleRun(PowerUp(now), inputs[..|inputs| - 1]).Some?
    ensures var events := CmEvents(PowerUp(now), inputs);
            Alternating(events) && (|events| % 2 == 1 <==> inputs != [] && inputs[|inputs| - 1].cmOn)
  {
    hide Handle, RunEvents, Prelude;
    if inputs != [] {
      var n := |inputs| - 1;
      CmEventsAlternate(now, inputs[..n]);
      var before := CycleRun(PowerUp(now), inputs[..n]).value;
      OneCmEdgePerBatch(before, inputs[n]);
      PrevCmIsLastSample(PowerUp(now), inputs[..n]);
      hide CmOnly, CycleRun, CmEdge;
      EdgeKeepsAlternating(CmEvents(PowerUp(now), inputs[..n]), before.prevCmOn, inputs[n].cmOn);
    }
  }

  // ---------------------------------------------------------------- input power at the end of a batch

  predicate NeedsVin(s: State) {
    s.OffCharging? || s.SystemStartup? || s.OperationalSolo? || s.OperationalCoOp?
  }

  predicate NeedsNoVin(s: State) {
    s.PowerOff? || s.BlackoutSolo? || s.BlackoutCoOp?
  }

  /** After every complete cycle the state agrees with the input power seen by that cycle's Tick. */
  lemma {:induction false} CycleEndsVinConsistent(c: Controller, input: CycleInput)
    requires Cycle(c, input).Some?
    ensures var s := Cycle(c, input).value.machine.state;
            && (NeedsVin(s) ==> VinAvailable(input.tick))
            && (NeedsNoVin(s) ==> !VinAvailable(input.tick))
  {
    TickEndsVinConsistent(RunEvents(c.machine, Prelude(c, input), input.envs).value, input.tick);
    hide Handle;
  }

  lemma {:induction false} TickEndsVinConsistent(m: Machine, env: Env)
    requires Handle(m, Tick, env).Some?
    ensures var s := Handle(m, Tick, env).value.state;
            && (NeedsVin(s) ==> VinAvailable(env))
            && (NeedsNoVin(s) ==> !VinAvailable(env))
  {
  }

  // ---------------------------------------------------------------- blackouts

  predicate InBlackout(s: State) {
    s.BlackoutSolo? || s.BlackoutCoOp?
  }

  lemma {:induction false} StepInsideBlackout(m: Machine, e: Event, env: Env)
    requires m.initialized && InBlackout(m.state)
    requires Handle(m, e, env).Some? && InBlackout(Handle(m, e, env).value.state)
    ensures Handle(m, e, env).value.initialized
    ensures Handle(m, e, env).value.state == m.state
    ensures Handle(m, e, env).value.ctx.watchdogMs == m.ctx.watchdogMs
  {
  }

  /** Inside a blackout neither the mode nor the watchdog timeout changes. */
  lemma {:induction false} BlackoutRemembersMode(m: Machine, events: seq<Event>, envs: nat -> Env)
    requires m.initialized && InBlackout(m.state)
    requires RunEvents(m, events, envs).Some?
    requires forall i :: 0 <= i <= |events| && RunEvents(m, events[..i], envs).Some? ==>
               InBlackout(RunEvents(m, events[..i], envs).value.state)
    ensures var r := RunEvents(m, events, envs).value;
            r.initialized && r.state == m.state && r.ctx.watchdogMs == m.ctx.watchdogMs
  {
    hide Handle;
    if events != [] {
      var n := |events| - 1;
      var pre := events[..n];
      forall i | 0 <= i <= n && RunEvents(m, pre[..i], envs).Some?
        ensures InBlackout(RunEvents(m, pre[..i], envs).value.state)
      {
        assert pre[..i] == events[..i];
      }
      BlackoutRemembersMode(m, pre, envs);
      assert events[..n + 1] == events;
      StepInsideBlackout(RunEvents(m, pre, envs).value, events[n], envs(n));
    }
  }

  /** A blackout that ends in operation returns to the mode it interrupted, with the same timeout. */
  lemma {:induction false} BlackoutReturnsToItsMode(m: Machine, e0: Event, env0: Env, events: seq<Event>,
                                                    envs: nat -> Env, e1: Event, env1: Env)
    requires Consistent(m) && m.initialized
    requires m.state.OperationalSolo? || m.state.OperationalCoOp?
    requires Handle(m, e0, env0).Some? && InBlackout(Handle(m, e0, env0).value.state)
    requires var b := Handle(m, e0, env0).value;
             && RunEvents(b, events, envs).Some?
             && forall i :: 0 <= i <= |events| && RunEvents(b, events[..i], envs).Some? ==>
                  InBlackout(RunEvents(b, events[..i], envs).value.state)
    requires var last := RunEvents(Handle(m, e0, env0).value, events, envs).value;
             && Handle(last, e1, env1).Some?
             && (Handle(last, e1, env1).value.state.OperationalSolo?
                 || Handle(last, e1, env1).value.state.OperationalCoOp?)
    ensures var last := RunEvents(Handle(m, e0, env0).value, events, envs).value;
            var r := Handle(last, e1, env1).value;
            && r.state == m.state
            && r.ctx.watchdogMs == m.ctx.watchdogMs
            && e1.Tick? && VinAvailable(env1)
  {
    var b := Handle(m, e0, env0).value;
    BlackoutRemembersMode(b, events, envs);
    LeavingBlackout(RunEvents(b, events, envs).value, e1, env1);
    EnteringBlackout(m, e0, env0);
    hide Handle, RunEvents;
  }

  lemma {:induction false} EnteringBlackout(m: Machine, e: Event, env: Env)
    requires Consistent(m) && m.initialized
    requires m.state.OperationalSolo? || m.state.OperationalCoOp?
    requires Handle(m, e, env).Some? && InBlackout(Handle(m, e, env).value.state)
    ensures var b := Handle(m, e, env).value;
            && b.initialized
            && (b.state.BlackoutSolo? <==> m.state.OperationalSolo?)
            && b.ctx.watchdogMs == m.ctx.watchdogMs
            && (m.state.OperationalSolo? ==> m.ctx.watchdogMs == 0)
  {
  }

  lemma {:induction false} LeavingBlackout(m: Machine, e: Event, env: Env)
    requires InBlackout(m.state)
    requires Handle(m, e, env).Some?
    requires Handle(m, e, env).value.state.OperationalSolo? || Handle(m, e, env).value.state.OperationalCoOp?
    ensures var r := Handle(m, e, env).value;
            && (r.state.OperationalSolo? <==> m.state.BlackoutSolo?)
            && r.ctx.watchdogMs == (if m.state.BlackoutSolo? then 0 else m.ctx.watchdogMs)
            && e.Tick? && VinAvailable(env)
  {
  }
}
