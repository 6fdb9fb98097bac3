/** Leaving SystemStartup and Standby: the machine waits for a rising edge of the compute module, not for its level. */
module PowerStartup {
  import opened Common
  import opened PowerMachine

  /** The states before the compute module has come up for the first time. */
  predicate Early(s: State) {
    s.PowerOff? || s.OffCharging? || s.SystemStartup?
  }

  lemma {:induction false} NeverEarlyAgain(m: Machine, e: Event, env: Env)
    requires m.initialized && !Early(m.state)
    requires Handle(m, e, env).Some?
    ensures Handle(m, e, env).value.initialized && !Early(Handle(m, e, env).value.state)
  {
  }

  lemma {:induction false} EventsNeverEarlyAgain(m: Machine, events: seq<Event>, envs: nat -> Env)
    requires m.initialized && !Early(m.state)
    requires RunEvents(m, events, envs).Some?
    ensures RunEvents(m, events, envs).value.initialized && !Early(RunEvents(m, events, envs).value.state)
  {
    hide Handle;
    if events != [] {
      var n := |events| - 1;
      EventsNeverEarlyAgain(m, events[..n], envs);
      NeverEarlyAgain(RunEvents(m, events[..n], envs).value, events[n], envs(n));
    }
  }

  /** The states that wait for the compute module to come up. */
  predicate AwaitsModule(s: State) {
    s.SystemStartup? || s.Standby?
  }

  /** A Tick without input power ends SystemStartup, but not Standby. */
  lemma {:induction false} WaitingIgnores(m: Machine, e: Event, env: Env)
    requires m.initialized && AwaitsModule(m.state)
    ensures !e.ComputeModuleOn? && !(m.state.SystemStartup? && e.Tick? && !VinAvailable(env)) ==>
              Handle(m, e, env) == Some(m)
    ensures e.ComputeModuleOn? ==>
              Handle(m, e, env).Some? && Handle(m, e, env).value.initialized
              && Handle(m, e, env).value.state == OperationalSolo
  {
  }

  lemma {:induction false} SleepsThrough(m: Machine, events: seq<Event>, envs: nat -> Env)
    requires m.initialized && AwaitsModule(m.state)
    requires forall i :: 0 <= i < |events| ==> !events[i].Tick? && !events[i].ComputeModuleOn?
    ensures RunEvents(m, events, envs) == Some(m)
  {
    hide Handle;
    if events != [] {
      var n := |events| - 1;
      SleepsThrough(m, events[..n], envs);
      WaitingIgnores(m, events[n], envs(n));
    }
  }

  lemma {:induction false} SoloKeepsGoing(m: Machine, e: Event, env: Env)
    requires m.initialized && m.state.OperationalSolo?
    requires e.SupercapOvervoltage? || (e.Tick? && VinAvailable(env))
    ensures Handle(m, e, env).Some?
    ensures Handle(m, e, env).value.initialized && Handle(m, e, env).value.state == OperationalSolo
  {
  }

  /** The batch up to and including a rising edge. */
  lemma {:induction false} EdgeEndsWaiting(c: Controller, input: CycleInput)
    requires c.machine.initialized && AwaitsModule(c.machine.state)
    requires input.cmOn && !c.prevCmOn
    ensures var r := RunEvents(c.machine, Prelude(c, input), input.envs);
            r.Some? && r.value.initialized && r.value.state == OperationalSolo
  {
    var prelude := Prelude(c, input);
    var k := |input.queued|;
    assert prelude[..k] == input.queued;
    assert forall i :: 0 <= i < k ==> External(input.queued[i]);
    SleepsThrough(c.machine, prelude[..k], input.envs);
    assert prelude[k] == ComputeModuleOn;
    assert prelude[..k + 1][..k] == prelude[..k];
    WaitingIgnores(c.machine, ComputeModuleOn, input.envs(k));
    var solo := RunEvents(c.machine, prelude[..k + 1], input.envs).value;
    if |prelude| > k + 1 {
      assert prelude[k + 1] == SupercapOvervoltage && |prelude| == k + 2;
      SoloKeepsGoing(solo, SupercapOvervoltage, input.envs(k + 1));
    } else {
      assert prelude[..k + 1] == prelude;
    }
    hide Handle;
  }

  /** With input power present, one cycle leaves SystemStartup exactly on a rising edge, into solo mode. */
  lemma {:induction false} StartupCycle(c: Controller, input: CycleInput)
    requires c.machine.initialized && c.machine.state.SystemStartup?
    requires VinAvailable(input.tick)
    ensures var r := Cycle(c, input);
            && r.Some? && r.value.machine.initialized
            && r.value.machine.state == if input.cmOn && !c.prevCmOn then OperationalSolo else SystemStartup
  {
    var prelude := Prelude(c, input);
    if input.cmOn && !c.prevCmOn {
      EdgeEndsWaiting(c, input);
      SoloKeepsGoing(RunEvents(c.machine, prelude, input.envs).value, Tick, input.tick);
    } else {
      assert forall i :: 0 <= i < |prelude| ==> !prelude[i].Tick? && !prelude[i].ComputeModuleOn? by {
        assert forall i :: 0 <= i < |input.queued| ==> External(input.queued[i]);
      }
      SleepsThrough(c.machine, prelude, input.envs);
      WaitingIgnores(c.machine, Tick, input.tick);
    }
    hide Handle, RunEvents, Prelude;
  }

  predicate RisingEdge(c: Controller, inputs: seq<CycleInput>, i: nat)
    requires i < |inputs|
  {
    inputs[i].cmOn && !(if i == 0 then c.prevCmOn else inputs[i - 1].cmOn)
  }

  predicate NoRisingEdge(c: Controller, inputs: seq<CycleInput>) {
    forall i :: 0 <= i < |inputs| ==> !RisingEdge(c, inputs, i)
  }

  lemma {:induction false} OneMoreInput(c: Controller, inputs: seq<CycleInput>)
    requires inputs != []
    ensures var n := |inputs| - 1;
            NoRisingEdge(c, inputs) <==> NoRisingEdge(c, inputs[..n]) && !RisingEdge(c, inputs, n)
  {
    var n := |inputs| - 1;
    assert forall i :: 0 <= i < n ==> RisingEdge(c, inputs[..n], i) == RisingEdge(c, inputs, i);
  }

  /**
   With input power present throughout, the machine is still in SystemStartup exactly if there has been no rising
   edge: a compute module that was already on when the state was entered is never noticed.
   */
  lemma {:induction false} StartupWaitsForRisingEdge(c: Controller, inputs: seq<CycleInput>)
    requires c.machine.initialized && c.machine.state.SystemStartup?
    requires forall i :: 0 <= i < |inputs| ==> VinAvailable(inputs[i].tick)
    requires CycleRun(c, inputs).Some?
    ensures var r := CycleRun(c, inputs).value;
            && r.machine.initialized
            && r.prevCmOn == (if inputs == [] then c.prevCmOn else inputs[|inputs| - 1].cmOn)
            && (if NoRisingEdge(c, inputs) then r.machine.state.SystemStartup? else !Early(r.machine.state))
  {
    hide Cycle, NoRisingEdge;
    if inputs != [] {
      var n := |inputs| - 1;
      StartupWaitsForRisingEdge(c, inputs[..n]);
      OneMoreInput(c, inputs);
      var before := CycleRun(c, inputs[..n]).value;
      if before.machine.state.SystemStartup? {
        StartupCycle(before, inputs[n]);
        CycleRecordsCm(before, inputs[n]);
      } else {
        CycleNeverEarlyAgain(before, inputs[n]);
      }
    } else {
      assert NoRisingEdge(c, inputs) by { NoInputsNoEdge(c); }
    }
  }

  lemma {:induction false} NoInputsNoEdge(c: Controller)
    ensures NoRisingEdge(c, [])
  {
  }

  lemma {:induction false} CycleRecordsCm(c: Controller, input: CycleInput)
    requires Cycle(c, input).Some?
    ensures Cycle(c, input).value.prevCmOn == input.cmOn
  {
  }

  lemma {:induction false} CycleNeverEarlyAgain(c: Controller, input: CycleInput)
    requires c.machine.initialized && !Early(c.machine.state)
    requires Cycle(c, input).Some?
    ensures var r := Cycle(c, input).value;
            r.machine.initialized && !Early(r.machine.state) && r.prevCmOn == input.cmOn
  {
    hide Handle, RunEvents, Prelude;
    EventsNeverEarlyAgain(c.machine, Prelude(c, input), input.envs);
    NeverEarlyAgain(RunEvents(c.machine, Prelude(c, input), input.envs).value, Tick, input.tick);
  }

  // ---------------------------------------------------------------- standby

  lemma {:induction false} SoloTickStaysOn(m: Machine, env: Env)
    requires m.initialized && m.state.OperationalSolo?
    ensures var r := Handle(m, Tick, env);
            r.Some? && (r.value.state.OperationalSolo? || r.value.state.BlackoutSolo?)
  {
  }

  /** One cycle, whatever is queued, leaves Standby exactly on a rising edge; otherwise nothing at all changes. */
  lemma {:induction false} StandbyCycle(c: Controller, input: CycleInput)
    requires c.machine.initialized && c.machine.state.Standby?
    ensures var r := Cycle(c, input);
            && r.Some?
            && if input.cmOn && !c.prevCmOn then !r.value.machine.state.Standby?
               else r.value == c.(prevCmOn := input.cmOn)
  {
    var prelude := Prelude(c, input);
    if input.cmOn && !c.prevCmOn {
      EdgeEndsWaiting(c, input);
      SoloTickStaysOn(RunEvents(c.machine, prelude, input.envs).value, input.tick);
    } else {
      assert forall i :: 0 <= i < |prelude| ==> !prelude[i].Tick? && !prelude[i].ComputeModuleOn? by {
        assert forall i :: 0 <= i < |input.queued| ==> External(input.queued[i]);
      }
      SleepsThrough(c.machine, prelude, input.envs);
      WaitingIgnores(c.machine, Tick, input.tick);
    }
    hide Handle, RunEvents, Prelude;
  }

  /** The run has been in Standby after every cycle, and no cycle has ended in a reset. */
  predicate StandbyThroughout(c: Controller, inputs: seq<CycleInput>) {
    forall k :: 0 <= k <= |inputs| ==>
      CycleRun(c, inputs[..k]).Some? && CycleRun(c, inputs[..k]).value.machine.state.Standby?
  }

  /**
   Standby is left exactly when a rising edge of the compute module is sampled: no request, no power button, no loss of
   input power and no overvoltage has any effect before that, not even on the context.
   */
  lemma {:induction false} StandbyWaitsForRisingEdge(c: Controller, inputs: seq<CycleInput>)
    requires c.machine.initialized && c.machine.state.Standby?
    ensures StandbyThroughout(c, inputs) <==> NoRisingEdge(c, inputs)
    ensures StandbyThroughout(c, inputs) ==>
              CycleRun(c, inputs) ==
              Some(c.(prevCmOn := if inputs == [] then c.prevCmOn else inputs[|inputs| - 1].cmOn))
  {
    hide Cycle, NoRisingEdge;
    if inputs == [] {
      NoInputsNoEdge(c);
    } else {
      var n := |inputs| - 1;
      var pre := inputs[..n];
      StandbyWaitsForRisingEdge(c, pre);
      OneMoreInput(c, inputs);
      OneMoreInStandby(c, inputs);
      hide StandbyThroughout;
      if StandbyThroughout(c, pre) {
        StandbyCycle(CycleRun(c, pre).value, inputs[n]);
      }
    }
  }

  lemma {:induction false} OneMoreInStandby(c: Controller, inputs: seq<CycleInput>)
    requires inputs != []
    ensures StandbyThroughout(c, inputs) <==>
            && StandbyThroughout(c, inputs[..|inputs| - 1])
            && CycleRun(c, inputs).Some? && CycleRun(c, inputs).value.machine.state.Standby?
  {
    hide CycleRun;
    var n := |inputs| - 1;
    assert inputs[..n + 1] == inputs;
    assert forall k :: 0 <= k <= n ==> inputs[..n][..k] == inputs[..k];
  }

  // ---------------------------------------------------------------- the way there from power-up

  predicate Charged(env: Env) {
    VinAvailable(env) && env.vscap >= env.powerOnThreshold
  }

  lemma {:induction false} OffIgnores(m: Machine, e: Event, env: Env)
    requires m.state.PowerOff? || (m.initialized && m.state.OffCharging?)
    requires !e.Tick?
    ensures Handle(m, e, env).Some?
    ensures Handle(m, e, env).value.initialized && Handle(m, e, env).value.state == m.state
  {
  }

  lemma {:induction false} OffSleepsThrough(m: Machine, events: seq<Event>, envs: nat -> Env)
    requires m.state.PowerOff? || (m.initialized && m.state.OffCharging?)
    requires forall i :: 0 <= i < |events| ==> !events[i].Tick?
    ensures RunEvents(m, events, envs).Some?
    ensures RunEvents(m, events, envs).value.state == m.state
    ensures m.initialized ==> RunEvents(m, events, envs).value.initialized
  {
    hide Handle;
    if events != [] {
      var n := |events| - 1;
      OffSleepsThrough(m, events[..n], envs);
      OffIgnores(RunEvents(m, events[..n], envs).value, events[n], envs(n));
    }
  }

  lemma {:induction false} OffTick(m: Machine, env: Env)
    requires m.state.PowerOff? || (m.initialized && m.state.OffCharging?)
    requires Charged(env)
    ensures Handle(m, Tick, env).Some? && Handle(m, Tick, env).value.initialized
    ensures Handle(m, Tick, env).value.state == if m.state.PowerOff? then OffCharging else SystemStartup
  {
  }

  /** A cycle with input power and a charged supercap is one step on the way to SystemStartup, whatever is queued. */
  lemma {:induction false} ChargedCycle(c: Controller, input: CycleInput)
    requires c.machine.state.PowerOff? || (c.machine.initialized && c.machine.state.OffCharging?)
    requires Charged(input.tick)
    ensures var r := Cycle(c, input);
            && r.Some? && r.value.machine.initialized
            && r.value.machine.state == (if c.machine.state.PowerOff? then OffCharging else SystemStartup)
            && r.value.prevCmOn == input.cmOn
  {
    var prelude := Prelude(c, input);
    assert forall i :: 0 <= i < |prelude| ==> !prelude[i].Tick? by {
      assert forall i :: 0 <= i < |input.queued| ==> External(input.queued[i]);
    }
    hide Handle, Prelude;
    OffSleepsThrough(c.machine, prelude, input.envs);
    OffTick(RunEvents(c.machine, prelude, input.envs).value, input.tick);
  }

  lemma {:induction false} OneMoreCycle(c: Controller, inputs: seq<CycleInput>, input: CycleInput)
    ensures var before := CycleRun(c, inputs);
            CycleRun(c, inputs + [input]) == if before.None? then None else Cycle(before.value, input)
  {
    hide Cycle;
    assert (inputs + [input])[..|inputs|] == inputs;
  }

  /** Two charged cycles lead from power-up to SystemStartup, with the module's level already recorded. */
  lemma {:induction false} BootReachesStartup(now: nat, first: CycleInput, second: CycleInput)
    requires Charged(first.tick) && Charged(second.tick)
    ensures var r := CycleRun(PowerUp(now), [first, second]);
            && r.Some? && r.value.machine.initialized
            && r.value.machine.state == SystemStartup
            && r.value.prevCmOn == second.cmOn
  {
    hide Cycle;
    ChargedCycle(PowerUp(now), first);
    OneMoreCycle(PowerUp(now), [], first);
    assert [] + [first] == [first];
    ChargedCycle(CycleRun(PowerUp(now), [first]).value, second);
    OneMoreCycle(PowerUp(now), [first], second);
    assert [first] + [second] == [first, second];
  }

  /**
   A compute module that is on when the machine first gets to SystemStartup is never noticed: as long as it stays
   on and input power stays present, the machine waits there for ever.
   */
  lemma {:induction false} EarlyModuleIsMissed(now: nat, first: CycleInput, second: CycleInput, rest: seq<CycleInput>)
    requires Charged(first.tick) && Charged(second.tick) && second.cmOn
    requires forall i :: 0 <= i < |rest| ==> VinAvailable(rest[i].tick) && rest[i].cmOn
    ensures var r := CycleRun(PowerUp(now), [first, second] + rest);
            && r.Some? && r.value.machine.initialized
            && r.value.machine.state == SystemStartup
            && r.value.prevCmOn
    decreases |rest|
  {
    hide Cycle;
    if rest == [] {
      BootReachesStartup(now, first, second);
      assert [first, second] + rest == [first, second];
    } else {
      var n := |rest| - 1;
      EarlyModuleIsMissed(now, first, second, rest[..n]);
      OneMoreCycle(PowerUp(now), [first, second] + rest[..n], rest[n]);
      assert [first, second] + rest == ([first, second] + rest[..n]) + [rest[n]];
      var before := CycleRun(PowerUp(now), [first, second] + rest[..n]).value;
      StartupCycle(before, rest[n]);
      CycleRecordsCm(before, rest[n]);
    }
  }

  lemma {:induction false} RunIsCycleRun(c: Controller, inputs: seq<CycleInput>)
    requires CycleRun(c, inputs).Some?
    ensures Run(c, inputs) == CycleRun(c, inputs).value
  {
    hide Cycle;
    if inputs != [] {
      RunIsCycleRun(c, inputs[..|inputs| - 1]);
    }
  }

  /** Solo operation is reached from power-up: charge twice, then let the compute module come up. */
  lemma {:induction false} BootReachesSolo(now: nat) returns (inputs: seq<CycleInput>)
    ensures CycleRun(PowerUp(now), inputs) == Some(Run(PowerUp(now), inputs))
    ensures Run(PowerUp(now), inputs).machine.state == OperationalSolo
    ensures Run(PowerUp(now), inputs).prevCmOn
    ensures forall i :: 0 <= i < |inputs| ==> inputs[i].vscap <= VSCAP_MAX_ALARM
  {
    var env := Env(12.0, 9.0, 8.0, 5000, 60_000, true, now, now, now);
    var off := CycleInput([], false, 9.0, _ => env, env, now);
    var on := off.(cmOn := true);
    inputs := [off, off] + [on];
    hide Cycle;
    BootReachesStartup(now, off, off);
    var startup := CycleRun(PowerUp(now), [off, off]).value;
    StartupCycle(startup, on);
    CycleRecordsCm(startup, on);
    OneMoreCycle(PowerUp(now), [off, off], on);
    RunIsCycleRun(PowerUp(now), inputs);
  }
}
