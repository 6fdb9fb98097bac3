/** The overvoltage alarm: its flag latches until a reset, its light does not outlast the state it was raised in. */
module PowerAlarm {
  import opened Common
  import opened PowerMachine
  import opened PowerEffects
  import opened PowerDiagram
  import opened PowerSafety
  import opened PowerStartup

  predicate Lit(m: Machine) {
    m.ctx.led == Some(AlarmPattern)
  }

  predicate Started(m: Machine) {
    m.initialized || m.state.PowerOff?
  }

  // ---------------------------------------------------------------- only SupercapOvervoltage touches the alarm

  lemma {:induction false} ClimbLeavesAlarm(s: Option<Superstate>, e: Event, c: Context, env: Env)
    requires !e.SupercapOvervoltage?
    ensures var c' := Climb(s, e, c, env).1;
            c'.led == c.led && c'.alarmActive == c.alarmActive
    decreases Height(s)
  {
    if s.Some? {
      ClimbLeavesAlarm(Grandparent(s.value), e, SuperHandler(s.value, e, c, env).1, env);
    }
  }

  lemma {:induction false} DispatchLeavesAlarm(s: State, e: Event, c: Context, env: Env)
    requires !e.SupercapOvervoltage?
    ensures var c' := Dispatch(s, e, c, env).1;
            c'.led == c.led && c'.alarmActive == c.alarmActive
  {
    HandlerEffects(s, e, c, env);
    ClimbLeavesAlarm(Parent(s), e, StateHandler(s, e, c, env).1, env);
    hide StateHandler, Climb;
  }

  lemma {:induction false} EntryLeavesAlarm(s: State, c: Context, env: Env)
    ensures var c' := Entry(s, c, env).1;
            && c'.alarmActive == c.alarmActive
            && (c'.led == Some(AlarmPattern) <==> s.PowerOff? && c.led == Some(AlarmPattern))
  {
  }

  /** Without a SupercapOvervoltage the flag stays as it is, and the light can only go out. */
  lemma {:induction false} HandleLeavesAlarm(m: Machine, e: Event, env: Env)
    requires Started(m) && !e.SupercapOvervoltage?
    requires Handle(m, e, env).Some?
    ensures var r := Handle(m, e, env).value;
            && Started(r)
            && r.ctx.alarmActive == m.ctx.alarmActive
            && (Lit(r) ==> Lit(m))
  {
    var m1 := Initialize(m, env);
    var (o, c) := Dispatch(m1.state, e, m1.ctx, env);
    EntryLeavesAlarm(m.state, m.ctx, env);
    DispatchLeavesAlarm(m1.state, e, m1.ctx, env);
    if o.Transition? {
      EntryLeavesAlarm(o.target, c, env);
    }
    hide Dispatch, Entry;
  }

  predicate NoOvervoltage(events: seq<Event>) {
    forall i :: 0 <= i < |events| ==> !events[i].SupercapOvervoltage?
  }

  lemma {:induction false} EventsLeaveAlarm(m: Machine, events: seq<Event>, envs: nat -> Env)
    requires Started(m) && NoOvervoltage(events)
    requires RunEvents(m, events, envs).Some?
    ensures var r := RunEvents(m, events, envs).value;
            && Started(r)
            && r.ctx.alarmActive == m.ctx.alarmActive
            && (Lit(r) ==> Lit(m))
  {
    hide Handle;
    if events != [] {
      var n := |events| - 1;
      EventsLeaveAlarm(m, events[..n], envs);
      HandleLeavesAlarm(RunEvents(m, events[..n], envs).value, events[n], envs(n));
    }
  }

  lemma {:induction false} OvervoltageIsQueued(c: Controller, input: CycleInput)
    ensures NoOvervoltage(Prelude(c, input)) <==> c.machine.ctx.alarmActive || input.vscap <= VSCAP_MAX_ALARM
  {
    var prelude := Prelude(c, input);
    assert forall i :: 0 <= i < |input.queued| ==> External(input.queued[i]);
    if input.vscap > VSCAP_MAX_ALARM && !c.machine.ctx.alarmActive {
      assert prelude[|prelude| - 1] == SupercapOvervoltage;
    }
  }

  lemma {:induction false} CycleLeavesAlarm(c: Controller, input: CycleInput)
    requires Started(c.machine)
    requires c.machine.ctx.alarmActive || input.vscap <= VSCAP_MAX_ALARM
    requires Cycle(c, input).Some?
    ensures var r := Cycle(c, input).value.machine;
            && Started(r)
            && r.ctx.alarmActive == c.machine.ctx.alarmActive
            && (Lit(r) ==> Lit(c.machine))
  {
    hide Handle, RunEvents, Prelude, Lit;
    OvervoltageIsQueued(c, input);
    EventsLeaveAlarm(c.machine, Prelude(c, input), input.envs);
    HandleLeavesAlarm(RunEvents(c.machine, Prelude(c, input), input.envs).value, Tick, input.tick);
  }

  // ---------------------------------------------------------------- when it is raised

  /** In every state: under powered_on the event sets the flag and the light and nothing else, elsewhere nothing. */
  lemma {:induction false} OvervoltageRaises(m: Machine, env: Env)
    requires m.initialized
    ensures Handle(m, SupercapOvervoltage, env) ==
            Some(if UnderPoweredOn(m.state) then m.(ctx := m.ctx.(led := Some(AlarmPattern), alarmActive := true))
                 else m)
  {
  }

  /** The requests and the compute-module edge: what a batch handles before the overvoltage alarm. */
  function BeforeAlarm(c: Controller, input: CycleInput): seq<Event> {
    input.queued + CmEdge(c.prevCmOn, input.cmOn)
  }

  lemma {:induction false} InitializedByEvents(m: Machine, events: seq<Event>, envs: nat -> Env)
    requires Started(m)
    requires RunEvents(m, events, envs).Some?
    ensures var r := RunEvents(m, events, envs).value;
            Started(r) && (r.initialized || r == m)
  {
    hide Handle;
    if events != [] {
      var n := |events| - 1;
      HandleInitializes(RunEvents(m, events[..n], envs).value, events[n], envs(n));
    }
  }

  lemma {:induction false} OvervoltageFirst(m: Machine, env: Env)
    requires Started(m) && !m.ctx.alarmActive
    ensures var r := Handle(m, SupercapOvervoltage, env);
            && r.Some? && r.value.initialized
            && (r.value.ctx.alarmActive <==> UnderPoweredOn(m.state))
  {
    hide Dispatch;
    if m.initialized {
      OvervoltageRaises(m, env);
    } else {
      OffIgnoresOvervoltage(m, env);
    }
  }

  lemma {:induction false} OffIgnoresOvervoltage(m: Machine, env: Env)
    requires !m.initialized && m.state.PowerOff?
    ensures var r := Handle(m, SupercapOvervoltage, env);
            r.Some? && r.value.initialized && r.value.ctx.alarmActive == m.ctx.alarmActive
  {
  }

  lemma {:induction false} AlarmOfPrelude(c: Controller, input: CycleInput)
    requires Started(c.machine) && !c.machine.ctx.alarmActive
    requires RunEvents(c.machine, Prelude(c, input), input.envs).Some?
    ensures var before := RunEvents(c.machine, BeforeAlarm(c, input), input.envs);
            var after := RunEvents(c.machine, Prelude(c, input), input.envs);
            && before.Some? && Started(after.value)
            && (after.value.ctx.alarmActive <==> input.vscap > VSCAP_MAX_ALARM && UnderPoweredOn(before.value.state))
  {
    var first, prelude := BeforeAlarm(c, input), Prelude(c, input);
    var k := |first|;
    AlarmComesLast(c, input);
    hide Handle, Started, Prelude, BeforeAlarm, NoOvervoltage;
    if input.vscap > VSCAP_MAX_ALARM {
      assert prelude[..k] == first && |prelude| == k + 1 && prelude[k] == SupercapOvervoltage;
      EventsLeaveAlarm(c.machine, first, input.envs);
      InitializedByEvents(c.machine, prelude, input.envs);
      OvervoltageFirst(RunEvents(c.machine, first, input.envs).value, input.envs(k));
    } else {
      EventsLeaveAlarm(c.machine, first, input.envs);
    }
  }

  lemma {:induction false} AlarmComesLast(c: Controller, input: CycleInput)
    requires !c.machine.ctx.alarmActive
    ensures NoOvervoltage(BeforeAlarm(c, input))
    ensures Prelude(c, input) ==
            if input.vscap > VSCAP_MAX_ALARM then BeforeAlarm(c, input) + [SupercapOvervoltage]
            else BeforeAlarm(c, input)
  {
    assert forall i :: 0 <= i < |input.queued| ==> External(input.queued[i]);
  }

  /**
   A whole cycle with the flag clear, whatever is queued: it is set afterwards exactly if the supercap voltage is above
   the limit and the requests and the compute-module edge have left the machine under powered_on.
   */
  lemma {:induction false} CycleRaisesAlarmIff(c: Controller, input: CycleInput)
    requires Started(c.machine) && !c.machine.ctx.alarmActive
    requires Cycle(c, input).Some?
    ensures var before := RunEvents(c.machine, BeforeAlarm(c, input), input.envs);
            && before.Some?
            && (Cycle(c, input).value.machine.ctx.alarmActive <==>
                  input.vscap > 10.6 && UnderPoweredOn(before.value.state))
  {
    hide Handle, RunEvents, Prelude, BeforeAlarm, Started;
    AlarmOfPrelude(c, input);
    HandleLeavesAlarm(RunEvents(c.machine, Prelude(c, input), input.envs).value, Tick, input.tick);
  }

  // ---------------------------------------------------------------- the flag and the light over runs

  /** Over any cycles without a reset: once set, the flag stays set, and once its light has gone, it is gone. */
  lemma {:induction false} AlarmLatchesLightDoesNot(c: Controller, inputs: seq<CycleInput>)
    requires Started(c.machine) && c.machine.ctx.alarmActive
    requires CycleRun(c, inputs).Some?
    ensures var r := CycleRun(c, inputs).value.machine;
            && Started(r)
            && r.ctx.alarmActive
            && (Lit(r) ==> Lit(c.machine))
  {
    hide Cycle, Lit;
    if inputs != [] {
      var n := |inputs| - 1;
      AlarmLatchesLightDoesNot(c, inputs[..n]);
      CycleLeavesAlarm(CycleRun(c, inputs[..n]).value, inputs[n]);
    }
  }

  /** An arrow of the diagram leads away from the machine's state on this event. */
  ghost predicate ArrowAway(m: Machine, e: Event, env: Env) {
    exists t :: !SameState(m.state, t) && Arrow(m.state, t, e, m.ctx, env)
  }

  /** A lit alarm stays lit exactly if no arrow of the diagram leads away. */
  lemma {:induction false} LightStaysWithoutArrow(m: Machine, e: Event, env: Env)
    requires Consistent(m) && m.initialized && !m.state.PowerOff? && Lit(m)
    requires Handle(m, e, env).Some?
    ensures Lit(Handle(m, e, env).value) <==> !ArrowAway(m, e, env)
    ensures !ArrowAway(m, e, env) ==> Handle(m, e, env).value.state == m.state
  {
    var r := Handle(m, e, env).value;
    MovesAreDrawn(m, e, env);
    LightNeedsState(m, e, env);
    hide Handle, Arrow;
    if t :| !SameState(m.state, t) && Arrow(m.state, t, e, m.ctx, env) {
      ArrowsAreTaken(m, e, env, t);
    }
  }

  lemma {:induction false} LightNeedsState(m: Machine, e: Event, env: Env)
    requires Consistent(m) && m.initialized && !m.state.PowerOff? && Lit(m)
    requires Handle(m, e, env).Some?
    ensures UnderPoweredOn(m.state)
    ensures Lit(Handle(m, e, env).value) <==> SameState(Handle(m, e, env).value.state, m.state)
  {
    var (o, c) := Dispatch(m.state, e, m.ctx, env);
    DispatchAndLed(m.state, e, m.ctx, env);
    TransitionsAreDrawn(m.state, e, m.ctx, env);
    if o.Transition? {
      PoweredOnNeverOff(m.state, o.target, e, m.ctx, env);
      EntryLeavesAlarm(o.target, c, env);
      EntryKeepsState(o.target, c, env);
    }
    hide Dispatch, Entry, Arrow;
  }

  lemma {:induction false} PoweredOnNeverOff(s: State, t: State, e: Event, c: Context, env: Env)
    requires UnderPoweredOn(s) && Arrow(s, t, e, c, env)
    ensures !t.PowerOff?
  {
  }

  /** No event of the run finds an arrow of the diagram leading away from the state it meets. */
  ghost predicate NoArrowTaken(m: Machine, events: seq<Event>, envs: nat -> Env) {
    forall i :: 0 <= i < |events| && RunEvents(m, events[..i], envs).Some? ==>
                  !ArrowAway(RunEvents(m, events[..i], envs).value, events[i], envs(i))
  }

  lemma {:induction false} NoArrowTakenBefore(m: Machine, events: seq<Event>, envs: nat -> Env)
    requires events != []
    requires RunEvents(m, events, envs).Some?
    ensures var n := |events| - 1;
            NoArrowTaken(m, events, envs) <==>
              && NoArrowTaken(m, events[..n], envs)
              && !ArrowAway(RunEvents(m, events[..n], envs).value, events[n], envs(n))
  {
    hide Handle, ArrowAway;
    var n := |events| - 1;
    assert forall i :: 0 <= i < n ==> events[..n][..i] == events[..i];
  }

  /**
   How long the light lasts: with the flag set, a lit alarm is still lit after any events exactly if none of them found
   an arrow of the diagram leading away; the state is then the one in which it was lit.
   */
  lemma {:induction false} LightLastsUntilArrow(m: Machine, events: seq<Event>, envs: nat -> Env)
    requires Consistent(m) && m.initialized && !m.state.PowerOff? && Lit(m)
    requires NoOvervoltage(events)
    requires RunEvents(m, events, envs).Some?
    ensures var r := RunEvents(m, events, envs).value;
            && (Lit(r) <==> NoArrowTaken(m, events, envs))
            && (Lit(r) ==> r.state == m.state)
  {
    hide Handle, Consistent, Lit, ArrowAway;
    if events != [] {
      var n := |events| - 1;
      var pre := events[..n];
      var before := RunEvents(m, pre, envs).value;
      LightLastsUntilArrow(m, pre, envs);
      NoArrowTakenBefore(m, events, envs);
      EventsKeepConsistency(m, pre, envs);
      EventsLeaveAlarm(m, pre, envs);
      HandleLeavesAlarm(before, events[n], envs(n));
      if Lit(before) {
        LightStaysWithoutArrow(before, events[n], envs(n));
      }
    }
  }

  // ---------------------------------------------------------------- a light that is lost

  lemma {:induction false} NoAlarmYet(c: Controller, inputs: seq<CycleInput>)
    requires Started(c.machine) && !c.machine.ctx.alarmActive
    requires forall i :: 0 <= i < |inputs| ==> inputs[i].vscap <= VSCAP_MAX_ALARM
    requires CycleRun(c, inputs).Some?
    ensures var r := CycleRun(c, inputs).value.machine;
            Started(r) && !r.ctx.alarmActive
  {
    hide Cycle, Started;
    if inputs != [] {
      var n := |inputs| - 1;
      NoAlarmYet(c, inputs[..n]);
      CycleLeavesAlarm(CycleRun(c, inputs[..n]).value, inputs[n]);
    }
  }

  lemma {:induction false} SoloTick(m: Machine, env: Env)
    requires m.initialized && m.state.OperationalSolo?
    ensures var r := Handle(m, Tick, env);
            && r.Some?
            && if VinAvailable(env) then r.value == m
               else r.value.initialized && r.value.ctx.led == Some(StatePattern(5))
  {
  }

  lemma {:induction false} AlarmCycle(c: Controller, input: CycleInput)
    requires c.machine.initialized && c.machine.state.OperationalSolo? && !c.machine.ctx.alarmActive
    requires input.queued == [] && input.cmOn == c.prevCmOn
    requires input.vscap > VSCAP_MAX_ALARM && VinAvailable(input.tick)
    ensures var r := Cycle(c, input);
            && r.Some? && r.value.prevCmOn == c.prevCmOn
            && r.value.machine.initialized && r.value.machine.state.OperationalSolo?
            && r.value.machine.ctx.alarmActive && Lit(r.value.machine)
  {
    var prelude := Prelude(c, input);
    assert prelude == [SupercapOvervoltage] && prelude[..0] == [];
    OvervoltageRaises(c.machine, input.envs(0));
    hide Handle, Prelude;
    assert RunEvents(c.machine, prelude[..0], input.envs) == Some(c.machine);
    assert RunEvents(c.machine, prelude, input.envs) == Handle(c.machine, SupercapOvervoltage, input.envs(0));
    SoloTick(RunEvents(c.machine, prelude, input.envs).value, input.tick);
  }

  lemma {:induction false} BlackoutCycle(c: Controller, input: CycleInput)
    requires c.machine.initialized && c.machine.state.OperationalSolo? && c.machine.ctx.alarmActive
    requires input.queued == [] && input.cmOn == c.prevCmOn && !VinAvailable(input.tick)
    ensures var r := Cycle(c, input);
            r.Some? && r.value.machine.initialized && !Lit(r.value.machine)
  {
    assert Prelude(c, input) == [];
    SoloTick(c.machine, input.tick);
    hide Handle, Prelude;
  }

  /**
   The light is not persistent: some run from power-up raises the alarm and lights it, and one cycle without input power
   later the light is out. The flag stays set and the light stays out however the run goes on, up to a reset.
   */
  lemma {:induction false} AlarmLightIsLost(now: nat, rest: seq<CycleInput>)
    returns (before: seq<CycleInput>, raise: CycleInput, outage: CycleInput)
    ensures var lit := CycleRun(PowerUp(now), before + [raise]);
            lit.Some? && Lit(lit.value.machine)
    ensures var lost := CycleRun(PowerUp(now), before + [raise] + [outage]);
            lost.Some? && !Lit(lost.value.machine)
    ensures var later := CycleRun(PowerUp(now), before + [raise] + [outage] + rest);
            later.Some? ==> later.value.machine.ctx.alarmActive && !Lit(later.value.machine)
  {
    var env := Env(12.0, 9.0, 8.0, 5000, 60_000, true, now, now, now);
    raise := CycleInput([], true, 11.0, _ => env, env, now);
    outage := raise.(tick := env.(vin := 0.0));
    before := BootReachesSolo(now);
    hide Cycle, Lit;
    NoAlarmYet(PowerUp(now), before);
    OneMoreCycle(PowerUp(now), before, raise);
    AlarmCycle(CycleRun(PowerUp(now), before).value, raise);
    var lit := CycleRun(PowerUp(now), before + [raise]).value;
    OneMoreCycle(PowerUp(now), before + [raise], outage);
    BlackoutCycle(lit, outage);
    CycleLeavesAlarm(lit, outage);
    var lost := CycleRun(PowerUp(now), before + [raise] + [outage]).value;
    RunsCompose(PowerUp(now), before + [raise] + [outage], rest);
    if CycleRun(lost, rest).Some? {
      AlarmLatchesLightDoesNot(lost, rest);
    }
  }

  lemma {:induction false} RunsCompose(c: Controller, first: seq<CycleInput>, rest: seq<CycleInput>)
    requires CycleRun(c, first).Some?
    ensures CycleRun(c, first + rest) == CycleRun(CycleRun(c, first).value, rest)
  {
    hide Cycle;
    if rest == [] {
      assert first + rest == first;
    } else {
      var n := |rest| - 1;
      RunsCompose(c, first, rest[..n]);
      assert (first + rest)[..|first| + n] == first + rest[..n];
    }
  }
}
