/** Timers of the power machine: the clock they read, the blackout timeout, and what feeds the watchdog. */
module PowerTiming {
  import opened Common
  import opened PowerMachine
  import opened PowerEffects
  import opened PowerDiagram

  // ---------------------------------------------------------------- the clock

  /** Clock readings that never run backwards, within an event and from one event to the next. */
  predicate Monotone(envs: nat -> Env, n: nat, start: nat) {
    && (forall i: nat :: i < n ==> start <= envs(i).check <= envs(i).made <= envs(i).entered)
    && (forall i: nat :: i + 1 < n ==> envs(i).entered <= envs(i + 1).check)
  }

  predicate ClockNotBehind(m: Machine, now: nat) {
    m.ctx.lastPing <= now && (HasEntryTime(m.state) ==> m.state.entryTime <= now)
  }

  lemma {:induction false} DispatchKeepsClock(s: State, e: Event, c: Context, env: Env)
    requires c.lastPing <= env.check <= env.made
    ensures var (o, c') := Dispatch(s, e, c, env);
            && c'.lastPing <= env.check
            && (o.Transition? && HasEntryTime(o.target) ==> o.target.entryTime == env.made)
  {
    TargetsAreMadeNow(s, e, c, env);
    HandlerEffects(s, e, c, env);
    SuperstateEffects(Parent(s), e, StateHandler(s, e, c, env).1, env);
    hide StateHandler, Climb;
  }

  lemma {:induction false} EntryKeepsClock(s: State, c: Context, env: Env)
    ensures var (s', c') := Entry(s, c, env);
            && c'.lastPing == c.lastPing
            && (HasEntryTime(s') <==> HasEntryTime(s))
            && (HasEntryTime(s') ==> s'.entryTime == s.entryTime || s'.entryTime == env.entered)
  {
  }

  lemma {:induction false} HandleKeepsClock(m: Machine, e: Event, env: Env)
    requires ClockNotBehind(m, env.check) && env.check <= env.made <= env.entered
    requires Handle(m, e, env).Some?
    ensures ClockNotBehind(Handle(m, e, env).value, env.entered)
  {
    hide Dispatch, Entry, HasEntryTime;
    EntryKeepsClock(m.state, m.ctx, env);
    var m1 := Initialize(m, env);
    var (o, c) := Dispatch(m1.state, e, m1.ctx, env);
    DispatchKeepsClock(m1.state, e, m1.ctx, env);
    if o.Transition? {
      EntryKeepsClock(o.target, c, env);
    }
  }

  /** A state's timer starts when the state is entered and runs on as long as the state lasts. */
  lemma {:induction false} TimersStartOnEntry(m: Machine, e: Event, env: Env)
    requires m.initialized && env.made <= env.entered
    requires Handle(m, e, env).Some?
    ensures var s := Handle(m, e, env).value.state;
            if StateNumber(s) == StateNumber(m.state) then s == m.state
            else HasEntryTime(s) ==> env.made <= s.entryTime <= env.entered
  {
    var (o, c) := Dispatch(m.state, e, m.ctx, env);
    hide Dispatch, Entry, Arrow;
    if o.Transition? {
      TransitionsAreDrawn(m.state, e, m.ctx, env);
      EntryKeepsState(o.target, c, env);
      TargetsAreMadeNow(m.state, e, m.ctx, env);
      EntryKeepsClock(o.target, c, env);
    }
  }

  lemma {:induction false} TargetsAreMadeNow(s: State, e: Event, c: Context, env: Env)
    ensures var o := Dispatch(s, e, c, env).0;
            o.Transition? && HasEntryTime(o.target) ==> o.target.entryTime == env.made
  {
    HandlerTargets(s, e, c, env);
    SuperstateEffects(Parent(s), e, StateHandler(s, e, c, env).1, env);
    hide StateHandler, Climb;
  }

  /** Whenever an event computes an elapsed time, the earlier instant really is earlier: no subtraction underflows. */
  lemma {:induction false} ElapsedTimesNeverUnderflow(m: Machine, events: seq<Event>, envs: nat -> Env, start: nat)
    requires events != []
    requires Monotone(envs, |events|, start)
    requires ClockNotBehind(m, start)
    requires RunEvents(m, events[..|events| - 1], envs).Some?
    ensures ClockNotBehind(RunEvents(m, events[..|events| - 1], envs).value, envs(|events| - 1).check)
    decreases |events|
  {
    var n := |events| - 1;
    if n > 0 {
      var pre := events[..n];
      ElapsedTimesNeverUnderflow(m, pre, envs, start);
      HandleKeepsClock(RunEvents(m, pre[..n - 1], envs).value, pre[n - 1], envs(n - 1));
      hide Handle;
      assert envs(n - 1).entered <= envs(n - 1 + 1).check;
    }
  }

  // ---------------------------------------------------------------- blackout in solo mode

  lemma {:induction false} EntersBlackoutSolo(m: Machine, e: Event, env: Env)
    requires !m.state.BlackoutSolo?
    requires Handle(m, e, env).Some? && Handle(m, e, env).value.state.BlackoutSolo?
    ensures e.Tick? && !VinAvailable(env)
    ensures Handle(m, e, env).value.initialized
    ensures Handle(m, e, env).value.state.entryTime == env.entered
  {
  }

  lemma {:induction false} StaysInBlackoutSolo(m: Machine, e: Event, env: Env)
    requires m.initialized && m.state.BlackoutSolo?
    requires Handle(m, e, env).Some? && Handle(m, e, env).value.state.BlackoutSolo?
    ensures Handle(m, e, env).value.initialized
    ensures Handle(m, e, env).value.state == m.state
    ensures e.Tick? ==> !VinAvailable(env)
  {
  }

  /** Event `j` began the blackout; since then the machine has been in BlackoutSolo, every Tick without input power. */
  predicate BlackoutSince(m: Machine, events: seq<Event>, envs: nat -> Env, j: nat) {
    && j < |events|
    && events[j].Tick?
    && (forall i: nat :: j < i <= |events| ==>
          var r := RunEvents(m, events[..i], envs);
          r.Some? && r.value.initialized && r.value.state == BlackoutSolo(envs(j).entered))
    && (forall i: nat :: j <= i < |events| && events[i].Tick? ==> !VinAvailable(envs(i)))
  }

  lemma {:induction false} BlackoutHasABeginning(m: Machine, events: seq<Event>, envs: nat -> Env) returns (j: nat)
    requires !m.state.BlackoutSolo?
    requires RunEvents(m, events, envs).Some? && RunEvents(m, events, envs).value.state.BlackoutSolo?
    ensures BlackoutSince(m, events, envs, j)
    ensures RunEvents(m, events[..j], envs).Some? && !RunEvents(m, events[..j], envs).value.state.BlackoutSolo?
    decreases |events|
  {
    hide Handle;
    var n := |events| - 1;
    var pre := events[..n];
    var before := RunEvents(m, pre, envs).value;
    assert events[..n + 1] == events;
    if before.state.BlackoutSolo? {
      j := BlackoutHasABeginning(m, pre, envs);
      assert pre[..j] == events[..j];
      assert pre[..n] == pre;
      StaysInBlackoutSolo(before, events[n], envs(n));
      forall i: nat | j < i <= |events|
        ensures var r := RunEvents(m, events[..i], envs);
                r.Some? && r.value.initialized && r.value.state == BlackoutSolo(envs(j).entered)
      {
        if i <= n { assert pre[..i] == events[..i]; }
      }
    } else {
      j := n;
      EntersBlackoutSolo(before, events[n], envs(n));
    }
  }

  lemma {:induction false} LeavesForShutdown(m: Machine, e: Event, env: Env)
    requires m.initialized && m.state.BlackoutSolo?
    requires Handle(m, e, env).Some?
    ensures var r := Handle(m, e, env).value;
            && (r.state.BlackoutShutdown? <==>
                  e.Tick? && !VinAvailable(env) && env.check - m.state.entryTime > env.soloTimeoutMs * MS)
            && r.ctx.doubleClicks == m.ctx.doubleClicks + (if r.state.BlackoutShutdown? then 1 else 0)
  {
  }

  /**
   A solo blackout turns into a shutdown exactly at a Tick without input power whose distance from the
   beginning of the blackout exceeds the timeout read at that Tick; and every Tick since that beginning
   has found the input power absent.
   */
  lemma {:induction false} SoloShutdownNeedsUnbrokenBlackout(m: Machine, events: seq<Event>, envs: nat -> Env,
                                                             e: Event, env: Env) returns (j: nat)
    requires !m.state.BlackoutSolo?
    requires RunEvents(m, events, envs).Some? && RunEvents(m, events, envs).value.state.BlackoutSolo?
    requires Handle(RunEvents(m, events, envs).value, e, env).Some?
    ensures BlackoutSince(m, events, envs, j)
    ensures RunEvents(m, events[..j], envs).Some? && !RunEvents(m, events[..j], envs).value.state.BlackoutSolo?
    ensures Handle(RunEvents(m, events, envs).value, e, env).value.state.BlackoutShutdown? <==>
            e.Tick? && !VinAvailable(env) && env.check - envs(j).entered > env.soloTimeoutMs * MS
  {
    hide Handle;
    j := BlackoutHasABeginning(m, events, envs);
    assert events[..|events|] == events;
    LeavesForShutdown(RunEvents(m, events, envs).value, e, env);
  }

  /** Steps from BlackoutSolo to BlackoutShutdown in a run. */
  function SoloShutdowns(m: Machine, events: seq<Event>, envs: nat -> Env): nat
    requires RunEvents(m, events, envs).Some?
  {
    if events == [] then 0
    else
      var n := |events| - 1;
      var before := RunEvents(m, events[..n], envs).value;
      SoloShutdowns(m, events[..n], envs)
      + (if before.state.BlackoutSolo? && RunEvents(m, events, envs).value.state.BlackoutShutdown? then 1 else 0)
  }

  lemma {:induction false} DispatchDoubleClicks(s: State, e: Event, c: Context, env: Env)
    ensures var (o, c') := Dispatch(s, e, c, env);
            c'.doubleClicks == c.doubleClicks +
              (if s.BlackoutSolo? && o.Transition? && o.target.BlackoutShutdown? then 1 else 0)
  {
    HandlerEffects(s, e, c, env);
    SuperstateEffects(Parent(s), e, StateHandler(s, e, c, env).1, env);
    hide StateHandler, Climb;
  }

  lemma {:induction false} OneDoubleClick(m: Machine, e: Event, env: Env)
    requires !m.initialized ==> m.state.PowerOff?
    requires Handle(m, e, env).Some?
    ensures var r := Handle(m, e, env).value;
            && r.initialized
            && r.ctx.doubleClicks ==
               m.ctx.doubleClicks + (if m.state.BlackoutSolo? && r.state.BlackoutShutdown? then 1 else 0)
  {
    var m1 := Initialize(m, env);
    DispatchDoubleClicks(m1.state, e, m1.ctx, env);
    hide Dispatch;
  }

  /** The host's power button is double-clicked once for every such step and never otherwise. */
  lemma {:induction false} DoubleClicksCountSoloShutdowns(m: Machine, events: seq<Event>, envs: nat -> Env)
    requires !m.initialized ==> m.state.PowerOff?
    requires RunEvents(m, events, envs).Some?
    ensures var r := RunEvents(m, events, envs).value;
            && (!r.initialized ==> r.state.PowerOff?)
            && r.ctx.doubleClicks == m.ctx.doubleClicks + SoloShutdowns(m, events, envs)
  {
    hide Handle;
    if events != [] {
      var n := |events| - 1;
      DoubleClicksCountSoloShutdowns(m, events[..n], envs);
      OneDoubleClick(RunEvents(m, events[..n], envs).value, events[n], envs(n));
    }
  }

  // ---------------------------------------------------------------- what feeds the host watchdog

  lemma {:induction false} DispatchFeedsWatchdog(s: State, e: Event, c: Context, env: Env)
    ensures var (o, c') := Dispatch(s, e, c, env);
            && c'.lastPing == (if (e.WatchdogPing? && UnderPoweredOn(s))
                                  || (s.OperationalSolo? && e.SetWatchdogTimeout? && e.ms > 0)
                               then env.check else c.lastPing)
            && c'.watchdogMs == (if e.SetWatchdogTimeout? && (s.OperationalCoOp? || (s.OperationalSolo? && e.ms > 0))
                                 then e.ms else c.watchdogMs)
            && (e.SetWatchdogTimeout? && s.OperationalCoOp? && e.ms == 0 ==> o == Transition(OperationalSolo))
  {
  }

  /**
   What feeds the watchdog: a ping in any state under powered_on, and the step from solo to cooperative mode. The end
   of a cooperative blackout does not. Its timeout changes only where the host sets it, and is 0 on entering solo mode.
   */
  lemma {:induction false} WhatFeedsTheWatchdog(m: Machine, e: Event, env: Env)
    requires m.initialized
    requires m.state.OperationalSolo? ==> m.ctx.watchdogMs == 0
    requires Handle(m, e, env).Some?
    ensures var r := Handle(m, e, env).value;
            && r.ctx.lastPing == (if (e.WatchdogPing? && UnderPoweredOn(m.state))
                                     || (m.state.OperationalSolo? && r.state.OperationalCoOp?)
                                  then env.check else m.ctx.lastPing)
            && r.ctx.watchdogMs == (if e.SetWatchdogTimeout? && (m.state.OperationalSolo? || m.state.OperationalCoOp?)
                                    then e.ms
                                    else if r.state.OperationalSolo? then 0
                                    else m.ctx.watchdogMs)
  {
    var (o, c) := Dispatch(m.state, e, m.ctx, env);
    DispatchFeedsWatchdog(m.state, e, m.ctx, env);
    if m.state.OperationalSolo? {
      EntersCoOpFromSolo(m.state, e, m.ctx, env);
    }
    if o.Transition? {
      EntryAndWatchdog(o.target, c, env);
    }
    hide Dispatch, Entry;
  }

  lemma {:induction false} EntryAndWatchdog(s: State, c: Context, env: Env)
    ensures var (s', c') := Entry(s, c, env);
            && c'.lastPing == c.lastPing
            && c'.watchdogMs == (if s.OperationalSolo? then 0 else c.watchdogMs)
            && (s'.OperationalSolo? <==> s.OperationalSolo?) && (s'.OperationalCoOp? <==> s.OperationalCoOp?)
  {
  }

  lemma {:induction false} EntersCoOpFromSolo(s: State, e: Event, c: Context, env: Env)
    requires s.OperationalSolo?
    ensures Dispatch(s, e, c, env).0 == Transition(OperationalCoOp) <==> e.SetWatchdogTimeout? && e.ms > 0
  {
  }
}
