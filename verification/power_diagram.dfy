/**
 The transition diagram of README.md, as a flat list of arrows, against the hierarchical machine.
 Where two arrows compete the code asks for input power first, and so do the guards here.
 */
module PowerDiagram {
  import opened PowerMachine

  predicate SameState(s: State, t: State) {
    StateNumber(s) == StateNumber(t)
  }

  predicate Timeout(s: State, e: Event, env: Env, ms: nat)
    requires 5 <= StateNumber(s) <= 12
  {
    e.Tick? && Expired(env, s.entryTime, ms)
  }

  /** The states the diagram puts under the powered_on superstate: it counts EnteringStandby among them. */
  predicate DrawnAsPoweredOn(s: State) {
    UnderPoweredOn(s) || s.EnteringStandby?
  }

  /** Some arrow of the diagram leads from `s` to `t` on event `e`. */
  predicate Arrow(s: State, t: State, e: Event, c: Context, env: Env) {
    var vin := e.Tick? && VinAvailable(env);
    var noVin := e.Tick? && !VinAvailable(env);
    || (s.PowerOff? && t.OffCharging? && vin)
    || (s.OffCharging? && t.PowerOff? && noVin)
    || (s.OffCharging? && t.SystemStartup? && vin && env.vscap >= env.powerOnThreshold)
    || (s.SystemStartup? && t.PowerOff? && noVin)
    || (s.SystemStartup? && t.OperationalSolo? && e.ComputeModuleOn?)
    || (s.OperationalSolo? && t.OperationalCoOp? && e.SetWatchdogTimeout? && e.ms > 0)
    || (s.OperationalCoOp? && t.OperationalSolo? && e.SetWatchdogTimeout? && e.ms == 0)
    || (s.OperationalSolo? && t.BlackoutSolo? && noVin)
    || (s.OperationalCoOp? && t.BlackoutCoOp? && noVin)
    || (s.OperationalCoOp? && t.HostUnresponsive? && vin && Expired(env, c.lastPing, c.watchdogMs))
    || ((s.OperationalSolo? || s.OperationalCoOp?) && t.ManualShutdown? && e.Shutdown?)
    || ((s.OperationalSolo? || s.OperationalCoOp?) && t.EnteringStandby? && e.StandbyShutdown?)
    || (s.BlackoutSolo? && t.OperationalSolo? && vin)
    || (s.BlackoutCoOp? && t.OperationalCoOp? && vin)
    || (s.BlackoutSolo? && t.BlackoutShutdown? && noVin && Timeout(s, e, env, env.soloTimeoutMs))
    || (s.BlackoutCoOp? && t.BlackoutShutdown? && e.Shutdown?)
    || (s.HostUnresponsive? && t.OperationalCoOp? && e.WatchdogPing?)
    || (s.HostUnresponsive? && t.PoweredDownBlackout? && Timeout(s, e, env, HOST_WATCHDOG_REBOOT_DURATION_MS))
    || (s.ManualShutdown? && t.PoweredDownManual?
        && (Timeout(s, e, env, env.shutdownWaitMs) || e.ComputeModuleOff?))
    || (s.BlackoutShutdown? && t.PoweredDownBlackout?
        && (Timeout(s, e, env, env.shutdownWaitMs) || e.ComputeModuleOff?))
    || (s.EnteringStandby? && t.Standby? && (Timeout(s, e, env, env.shutdownWaitMs) || e.ComputeModuleOff?))
    || (s.Standby? && t.OperationalSolo? && e.ComputeModuleOn?)
    || (DrawnAsPoweredOn(s) && t.PoweredDownManual? && (e.ComputeModuleOff? || e.Off?))
  }

  predicate ResetArrow(s: State, e: Event, env: Env) {
    || (s.PoweredDownBlackout? && (Timeout(s, e, env, OFF_STATE_DURATION_MS) || e.PowerButtonPress?))
    || (s.PoweredDownManual? && Timeout(s, e, env, OFF_STATE_DURATION_MS) && env.autoRestart)
    || (s.PoweredDownManual? && (e.PowerButtonPress? || (e.Tick? && !VinAvailable(env))))
  }

  /** The two events for which the diagram and the code disagree. */
  predicate MisdrawnStandby(s: State, e: Event) {
    s.EnteringStandby? && (e.ComputeModuleOff? || e.Off?)
  }

  lemma {:induction false} ResetsAreDrawn(m: Machine, e: Event, env: Env)
    requires m.initialized
    ensures Handle(m, e, env).None? <==> ResetArrow(m.state, e, env)
  {
  }

  lemma {:induction false} TransitionsAreDrawn(s: State, e: Event, c: Context, env: Env)
    ensures var o := Dispatch(s, e, c, env).0;
            o.Transition? ==> !SameState(o.target, s) && Arrow(s, o.target, e, c, env)
  {
  }

  lemma {:induction false} ArrowsIgnoreEntryTime(s: State, t: State, t': State, e: Event, c: Context, env: Env)
    requires SameState(t, t')
    ensures Arrow(s, t, e, c, env) <==> Arrow(s, t', e, c, env)
  {
  }

  lemma {:induction false} EntryKeepsState(s: State, c: Context, env: Env)
    ensures SameState(Entry(s, c, env).0, s)
  {
  }

  lemma {:induction false} MovesAreDrawn(m: Machine, e: Event, env: Env)
    requires m.initialized && Handle(m, e, env).Some?
    ensures var s := Handle(m, e, env).value.state;
            s == m.state || (!SameState(s, m.state) && Arrow(m.state, s, e, m.ctx, env))
  {
    var (o, c) := Dispatch(m.state, e, m.ctx, env);
    hide Dispatch, Arrow, Entry;
    TransitionsAreDrawn(m.state, e, m.ctx, env);
    if o.Transition? {
      EntryKeepsState(o.target, c, env);
      ArrowsIgnoreEntryTime(m.state, o.target, Handle(m, e, env).value.state, e, m.ctx, env);
    }
  }

  lemma {:induction false} OperationArrowsAreTaken(m: Machine, e: Event, env: Env, t: State)
    requires m.initialized && (m.state.OperationalSolo? || m.state.OperationalCoOp?)
    requires Arrow(m.state, t, e, m.ctx, env)
    ensures Handle(m, e, env).Some? && SameState(Handle(m, e, env).value.state, t)
  {
  }

  lemma {:induction false} EmergencyArrowsAreTaken(m: Machine, e: Event, env: Env, t: State)
    requires m.initialized && UnderPoweredOn(m.state) && !m.state.OperationalSolo? && !m.state.OperationalCoOp?
    requires Arrow(m.state, t, e, m.ctx, env)
    ensures Handle(m, e, env).Some? && SameState(Handle(m, e, env).value.state, t)
  {
  }

  lemma {:induction false} OtherArrowsAreTaken(m: Machine, e: Event, env: Env, t: State)
    requires m.initialized && !UnderPoweredOn(m.state)
    requires !MisdrawnStandby(m.state, e)
    requires Arrow(m.state, t, e, m.ctx, env)
    ensures Handle(m, e, env).Some? && SameState(Handle(m, e, env).value.state, t)
  {
  }

  lemma {:induction false} ArrowsAreTaken(m: Machine, e: Event, env: Env, t: State)
    requires m.initialized
    requires !MisdrawnStandby(m.state, e)
    requires Arrow(m.state, t, e, m.ctx, env)
    ensures Handle(m, e, env).Some? && SameState(Handle(m, e, env).value.state, t)
  {
    hide Handle, Arrow, MisdrawnStandby;
    if m.state.OperationalSolo? || m.state.OperationalCoOp? {
      OperationArrowsAreTaken(m, e, env, t);
    } else if UnderPoweredOn(m.state) {
      EmergencyArrowsAreTaken(m, e, env, t);
    } else {
      OtherArrowsAreTaken(m, e, env, t);
    }
  }

  /** The machine moves along the arrows, along all of them, and resets exactly on the reset arrows. */
  lemma {:induction false} MachineFollowsDiagram(m: Machine, e: Event, env: Env, t: State)
    requires m.initialized
    requires !MisdrawnStandby(m.state, e)
    requires !SameState(m.state, t)
    ensures Handle(m, e, env).None? <==> ResetArrow(m.state, e, env)
    ensures Arrow(m.state, t, e, m.ctx, env) ==>
              Handle(m, e, env).Some? && SameState(Handle(m, e, env).value.state, t)
    ensures Handle(m, e, env).Some? && Handle(m, e, env).value.state == t ==> Arrow(m.state, t, e, m.ctx, env)
  {
    hide Handle, Arrow, ResetArrow;
    ResetsAreDrawn(m, e, env);
    if Arrow(m.state, t, e, m.ctx, env) {
      ArrowsAreTaken(m, e, env, t);
    }
    if Handle(m, e, env).Some? {
      MovesAreDrawn(m, e, env);
    }
  }

  /**
   EnteringStandby is not under powered_on. Its drawn arrow for Off does not exist, and of its two arrows
   for ComputeModuleOff the code takes the one to Standby: the diagram fails there, and only there.
   */
  lemma {:induction false} StandbyIsMisdrawn(m: Machine, e: Event, env: Env)
    requires m.initialized && m.state.EnteringStandby?
    requires e.ComputeModuleOff? || e.Off?
    ensures Handle(m, e, env).Some?
    ensures var m' := Handle(m, e, env).value;
            && (e.Off? ==> m' == m)
            && (e.ComputeModuleOff? ==> m'.state == Standby)
    ensures Arrow(m.state, PoweredDownManual(env.made), e, m.ctx, env)
  {
  }
}
