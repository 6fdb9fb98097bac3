/** Every rail, every timer and every dependence on input power that a run arrives at has its cause in that run. */
module PowerRuns {
  import opened PowerMachine
  import opened PowerEffects
  import opened PowerSafety
  import opened PowerStartup
  import opened PowerTiming

  // ---------------------------------------------------------------- input power

  lemma {:induction false} CycleInitializes(c: Controller, input: CycleInput)
    requires Cycle(c, input).Some?
    ensures Cycle(c, input).value.machine.initialized
  {
    hide RunEvents, Prelude, Dispatch;
  }

  /**
   After any run, unless its last cycle ended in a reset: charging, startup and operational states imply that the
   last Tick saw input power, off and blackout states that it did not.
   */
  lemma {:induction false} RunEndsVinConsistent(c: Controller, inputs: seq<CycleInput>)
    requires inputs != []
    ensures var r, last := Run(c, inputs), inputs[|inputs| - 1];
            if r.machine.initialized then
              && (NeedsVin(r.machine.state) ==> last.tick.vin > 9.0)
              && (NeedsNoVin(r.machine.state) ==> last.tick.vin <= 9.0)
            else
              r == PowerUp(last.bootTime)
  {
    var n := |inputs| - 1;
    var before := Run(c, inputs[..n]);
    hide Cycle;
    if Cycle(before, inputs[n]).Some? {
      CycleInitializes(before, inputs[n]);
      CycleEndsVinConsistent(before, inputs[n]);
    }
  }

  // ---------------------------------------------------------------- the 5 V rail

  predicate RailUp(c: Controller) {
    c.machine.ctx.en5v
  }

  /** Before its Tick a batch cannot raise the rail, nor leave a state in which the rail is down except by a reset. */
  lemma {:induction false} PreludeNeverRaises(m: Machine, events: seq<Event>, envs: nat -> Env)
    requires Consistent(m) && !m.ctx.en5v
    requires forall i :: 0 <= i < |events| ==> !events[i].Tick?
    requires RunEvents(m, events, envs).Some?
    ensures Consistent(RunEvents(m, events, envs).value)
    ensures !RunEvents(m, events, envs).value.ctx.en5v
    ensures RunEvents(m, events, envs).value.state == m.state
  {
    EventsKeepConsistency(m, events, envs);
    LowRailMeans(m);
    if m.state.PowerOff? || m.state.OffCharging? {
      OffSleepsThrough(m, events, envs);
      LowRailMeans(RunEvents(m, events, envs).value);
    } else {
      PoweredDownUntilReset(m, events, envs);
    }
  }

  lemma {:induction false} LowRailMeans(m: Machine)
    requires Consistent(m)
    ensures !m.ctx.en5v <==> m.state.PowerOff? || m.state.OffCharging? || m.state.PoweredDownBlackout?
                             || m.state.PoweredDownManual?
    ensures !m.initialized ==> m.state.PowerOff?
  {
  }

  /** A cycle raises the rail exactly if it finds the machine in OffCharging with a charged supercap and input power. */
  lemma {:induction false} CycleRaisesRail(c: Controller, input: CycleInput)
    requires Consistent(c.machine)
    requires Cycle(c, input).Some?
    ensures !RailUp(c) && RailUp(Cycle(c, input).value) <==> c.machine.state.OffCharging? && Charged(input.tick)
  {
    LowRailMeans(c.machine);
    var prelude := Prelude(c, input);
    assert forall i :: 0 <= i < |prelude| ==> !prelude[i].Tick? by {
      assert forall i :: 0 <= i < |input.queued| ==> External(input.queued[i]);
    }
    hide Handle, Prelude, Consistent, RunEvents;
    if !RailUp(c) {
      PreludeNeverRaises(c.machine, prelude, input.envs);
      RailRisesOnlyWhenCharged(RunEvents(c.machine, prelude, input.envs).value, Tick, input.tick);
    }
  }

  /** Cycle `j` raised the rail, and it has stayed up ever since. */
  predicate UpSince(c: Controller, inputs: seq<CycleInput>, j: nat) {
    && j < |inputs|
    && !RailUp(Run(c, inputs[..j]))
    && Run(c, inputs[..j]).machine.state.OffCharging?
    && Charged(inputs[j].tick)
    && forall i :: j < i <= |inputs| ==> RailUp(Run(c, inputs[..i]))
  }

  lemma {:induction false} LastCycleOfRail(now: nat, inputs: seq<CycleInput>)
    requires RailUp(Run(PowerUp(now), inputs))
    ensures inputs != []
    ensures var n := |inputs| - 1;
            var before := Run(PowerUp(now), inputs[..n]);
            RailUp(before) || (before.machine.state.OffCharging? && Charged(inputs[n].tick))
  {
    FreshRailIsDown(now);
    hide Cycle, RailUp, Charged, Consistent;
    var n := |inputs| - 1;
    var before := Run(PowerUp(now), inputs[..n]);
    FreshRailIsDown(inputs[n].bootTime);
    RunKeepsConsistency(now, inputs[..n]);
    CycleRaisesRail(before, inputs[n]);
  }

  /**
   Over all runs with resets: the rail is up only because a cycle found OffCharging, input power and a supercap
   at the threshold, and it has not gone down since.
   */
  lemma {:induction false} RailHasACause(now: nat, inputs: seq<CycleInput>) returns (j: nat)
    requires RailUp(Run(PowerUp(now), inputs))
    ensures UpSince(PowerUp(now), inputs, j)
    decreases |inputs|
  {
    hide Run, RailUp, Charged;
    LastCycleOfRail(now, inputs);
    var c := PowerUp(now);
    var n := |inputs| - 1;
    var pre := inputs[..n];
    assert inputs[..n + 1] == inputs;
    if RailUp(Run(c, pre)) {
      j := RailHasACause(now, pre);
      assert pre[..j] == inputs[..j];
      forall i | j < i <= |inputs| ensures RailUp(Run(c, inputs[..i])) {
        if i <= n { assert pre[..i] == inputs[..i]; }
      }
    } else {
      j := n;
    }
  }

  lemma {:induction false} FreshRailIsDown(now: nat)
    ensures !RailUp(PowerUp(now))
  {
  }

  // ---------------------------------------------------------------- timers

  /** Event `j` entered the present state, which has lasted since; its timer was set then. */
  predicate EnteredBy(m: Machine, events: seq<Event>, envs: nat -> Env, j: nat) {
    && j < |events|
    && RunEvents(m, events, envs).Some?
    && var s := RunEvents(m, events, envs).value.state;
       && (forall i :: j < i <= |events| ==>
             RunEvents(m, events[..i], envs).Some? && RunEvents(m, events[..i], envs).value.state == s)
       && RunEvents(m, events[..j], envs).Some?
       && StateNumber(RunEvents(m, events[..j], envs).value.state) != StateNumber(s)
       && (HasEntryTime(s) ==> envs(j).made <= s.entryTime <= envs(j).entered)
  }

  lemma {:induction false} TimerOfOneEvent(m: Machine, e: Event, env: Env)
    requires !m.initialized ==> m.state.PowerOff?
    requires env.made <= env.entered
    requires Handle(m, e, env).Some?
    ensures var r := Handle(m, e, env).value;
            && r.initialized
            && if StateNumber(r.state) == StateNumber(m.state) then r.state == m.state
               else HasEntryTime(r.state) ==> env.made <= r.state.entryTime <= env.entered
  {
    var m1 := Initialize(m, env);
    assert Handle(m, e, env) == Handle(m1, e, env) && m1.state == m.state by {
      hide Dispatch;
    }
    hide Handle, Entry;
    TimersStartOnEntry(m1, e, env);
    HandleInitializes(m1, e, env);
  }

  /** In any run that leads to another state, the timer of that state was set by the event that entered it. */
  lemma {:induction false} TimerWasSetOnEntry(m: Machine, events: seq<Event>, envs: nat -> Env) returns (j: nat)
    requires !m.initialized ==> m.state.PowerOff?
    requires forall i: nat :: i < |events| ==> envs(i).made <= envs(i).entered
    requires RunEvents(m, events, envs).Some?
    requires exists i :: 0 <= i <= |events| && RunEvents(m, events[..i], envs).Some?
                         && StateNumber(RunEvents(m, events[..i], envs).value.state) !=
                            StateNumber(RunEvents(m, events, envs).value.state)
    ensures EnteredBy(m, events, envs, j)
    decreases |events|
  {
    hide Handle, StateNumber, HasEntryTime;
    assert events[..|events|] == events;
    var n := |events| - 1;
    var pre := events[..n];
    var before := RunEvents(m, pre, envs).value;
    StaysInitialized(m, pre, envs);
    TimerOfOneEvent(before, events[n], envs(n));
    var s := RunEvents(m, events, envs).value.state;
    if StateNumber(before.state) == StateNumber(s) {
      var i :| 0 <= i <= |events| && RunEvents(m, events[..i], envs).Some?
               && StateNumber(RunEvents(m, events[..i], envs).value.state) != StateNumber(s);
      assert pre[..i] == events[..i];
      j := TimerWasSetOnEntry(m, pre, envs);
      assert pre[..j] == events[..j];
      forall i | j < i <= |events|
        ensures RunEvents(m, events[..i], envs).Some? && RunEvents(m, events[..i], envs).value.state == s
      {
        if i <= n { assert pre[..i] == events[..i]; }
      }
    } else {
      j := n;
    }
  }

  lemma {:induction false} StaysInitialized(m: Machine, events: seq<Event>, envs: nat -> Env)
    requires !m.initialized ==> m.state.PowerOff?
    requires RunEvents(m, events, envs).Some?
    ensures var r := RunEvents(m, events, envs).value;
            !r.initialized ==> r.state.PowerOff?
  {
    hide Handle;
    if events != [] {
      var n := |events| - 1;
      HandleInitializes(RunEvents(m, events[..n], envs).value, events[n], envs(n));
    }
  }
}
