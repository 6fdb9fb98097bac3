/** What holds over every run of the LED renderer: its clock arithmetic, and how long overrides are in force. */
module LedBlinkerRuns {
  import opened Common
  import opened LedPatterns
  import opened LedBlinkers

  // ---------------------------------------------------------------- clock arithmetic

  /** The clock reading an operation makes, if it makes one. */
  function Reading(op: Op): Option<nat> {
    match op
    case OpSetOverrides(_, at) => Some(at)
    case OpFrame(now, _) => Some(now)
    case _ => None
  }

  function LastReading(ops: seq<Op>, start: nat): nat {
    if ops == [] then start
    else
      var last := Reading(ops[|ops| - 1]);
      if last.Some? then last.value else LastReading(ops[..|ops| - 1], start)
  }

  /** The clock never runs backwards. */
  predicate Monotone(ops: seq<Op>, start: nat) {
    ops != [] ==>
      var n := |ops| - 1;
      && Monotone(ops[..n], start)
      && (Reading(ops[n]).Some? ==> LastReading(ops[..n], start) <= Reading(ops[n]).value)
  }

  /** Patterns and modifiers are handed over unstamped. */
  predicate Unstamped(ops: seq<Op>) {
    forall i :: 0 <= i < |ops| ==>
                  && (ops[i].OpSetPattern? ==> ops[i].pattern.startMs == 0)
                  && (ops[i].OpAddModifier? ==> ops[i].modifier.startMs == 0)
  }

  predicate AllStarted(modifiers: seq<LedPattern>, now: nat) {
    forall i :: 0 <= i < |modifiers| ==> modifiers[i].startMs <= now
  }

  /** No instant the renderer will subtract from the clock lies after `now`. */
  predicate ClockNotBehind(b: Blinker, now: nat) {
    && b.pattern.startMs <= now
    && AllStarted(b.modifiers, now)
    && (b.lastOverrideTick.Some? ==> b.lastOverrideTick.value <= now)
  }

  lemma {:induction false} KeptStarted(m: LedPattern, now: nat)
    requires OneShotReady(m) && m.startMs <= now
    ensures AllStarted(Kept(m, now), now)
  {
    if m.fragments != [] {
      AliveUntilEndTime(Durations(m.fragments), m.idx, Stamp(m, now).startMs, now);
    }
  }

  lemma {:induction false} SurvivorsStarted(modifiers: seq<LedPattern>, now: nat)
    requires AllReady(modifiers) && AllStarted(modifiers, now)
    ensures AllStarted(Survivors(modifiers, now), now)
  {
    hide Kept, OneShotReady;
    if modifiers != [] {
      KeptStarted(modifiers[0], now);
      SurvivorsStarted(modifiers[1..], now);
    }
  }

  lemma {:induction false} PatternStarted(p: LedPattern, data: Frame, now: nat, vscap: real)
    requires Repeatable(p) && p.startMs <= now
    ensures Update(p, data, now, vscap).0.startMs <= now
  {
  }

  lemma {:induction false} FrameKeepsClock(b: Blinker, now: nat, vscap: real)
    requires Ready(b) && ClockNotBehind(b, now)
    ensures ClockNotBehind(RenderFrame(b, now, vscap), now)
  {
    var colors := Update(b.pattern, b.lastColors, now, vscap).1;
    PatternStarted(b.pattern, b.lastColors, now, vscap);
    ModifiersAreFiltered(b.modifiers, colors, now, vscap);
    SurvivorsStarted(b.modifiers, now);
    hide Update, RunModifiers, Survivors, BlendLed;
  }

  lemma {:induction false} ApplyKeepsClock(b: Blinker, op: Op, before: nat)
    requires Ready(b) && WellFormed(op) && Unstamped([op])
    requires ClockNotBehind(b, before)
    requires Reading(op).Some? ==> before <= Reading(op).value
    ensures ClockNotBehind(Apply(b, op), LastReading([op], before))
  {
    assert [op][0] == op && [op][..0] == [];
    if op.OpFrame? {
      FrameKeepsClock(b, op.now, op.vscap);
    }
    hide RenderFrame;
  }

  /**
   While the clock does not run backwards, every elapsed time of every frame is computed from an instant that is
   not in the future, both when the frame begins and when it is done: no u64 subtraction underflows.
   */
  lemma {:induction false} ElapsedTimesNeverUnderflow(b: Blinker, ops: seq<Op>, start: nat)
    requires Ready(b) && ClockNotBehind(b, start)
    requires AllWellFormed(ops) && Unstamped(ops) && Monotone(ops, start)
    ensures ClockNotBehind(Run(b, ops), LastReading(ops, start))
    ensures forall k :: 0 <= k < |ops| && ops[k].OpFrame? ==>
                          && ClockNotBehind(Run(b, ops[..k]), ops[k].now)
                          && ClockNotBehind(Run(b, ops[..k + 1]), ops[k].now)
  {
    hide Ready, WellFormed, Apply;
    if ops != [] {
      var n := |ops| - 1;
      var pre, op := ops[..n], ops[n];
      ElapsedTimesNeverUnderflow(b, pre, start);
      assert [op][0] == op && [op][..0] == [];
      ApplyKeepsClock(Run(b, pre), op, LastReading(pre, start));
      forall k | 0 <= k < |ops| && ops[k].OpFrame?
        ensures ClockNotBehind(Run(b, ops[..k]), ops[k].now) && ClockNotBehind(Run(b, ops[..k + 1]), ops[k].now)
      {
        if k < n {
          assert pre[k] == ops[k] && pre[..k] == ops[..k] && pre[..k + 1] == ops[..k + 1];
        } else {
          assert ops[..k] == pre && ops[..k + 1] == ops;
        }
      }
    }
  }

  // ---------------------------------------------------------------- how long overrides are in force

  /** Operation `op` leaves overrides set at `at` in force. */
  predicate LeavesOverrides(op: Op, at: nat) {
    && !op.OpSetPattern?
    && !op.OpSetOverrides?
    && (op.OpFrame? ==> op.now <= at + OVERRIDE_TIMEOUT_MS)
  }

  /** Operation `k` sets overrides, and nothing since has replaced them or ended them. */
  predicate InForce(ops: seq<Op>, k: int) {
    && 0 <= k < |ops|
    && ops[k].OpSetOverrides?
    && forall i :: k < i < |ops| ==> LeavesOverrides(ops[i], ops[k].at)
  }

  lemma {:induction false} ApplyOverrideTick(b: Blinker, op: Op, t: nat)
    requires Ready(b) && WellFormed(op)
    ensures Apply(b, op).lastOverrideTick == Some(t) <==>
            (op.OpSetOverrides? && op.at == t) || (b.lastOverrideTick == Some(t) && LeavesOverrides(op, t))
  {
    hide Update, RunModifiers, BlendLed;
  }

  lemma {:induction false} InForceAfter(ops: seq<Op>, k: int)
    requires ops != []
    ensures var n := |ops| - 1;
            InForce(ops, k) <==>
              if k == n then ops[n].OpSetOverrides?
              else InForce(ops[..n], k) && LeavesOverrides(ops[n], ops[k].at)
  {
    hide LeavesOverrides;
    var n := |ops| - 1;
    if 0 <= k < n && InForce(ops, k) {
      assert forall i :: k < i < n ==> ops[..n][i] == ops[i];
    }
  }

  /** Overrides set at `t` have not been replaced or ended. */
  predicate SetAt(ops: seq<Op>, t: nat) {
    exists k :: 0 <= k < |ops| && InForce(ops, k) && ops[k].at == t
  }

  lemma {:induction false} SetAtAfter(ops: seq<Op>, t: nat)
    requires ops != []
    ensures var n := |ops| - 1;
            SetAt(ops, t) <==>
              (ops[n].OpSetOverrides? && ops[n].at == t) || (SetAt(ops[..n], t) && LeavesOverrides(ops[n], t))
  {
    var n := |ops| - 1;
    InForceAfter(ops, n);
    hide InForce, LeavesOverrides;
    if k :| InForce(ops, k) && ops[k].at == t {
      InForceAfter(ops, k);
    }
    if k :| InForce(ops[..n], k) && ops[..n][k].at == t && LeavesOverrides(ops[n], t) {
      InForceAfter(ops, k);
    }
  }

  /**
   Over any run: overrides set at `t` are in force if and only if the last override command was made at `t`, no
   pattern change has followed, and no frame since was rendered more than 5 s later.
   */
  lemma {:induction false} OverridesInForce(b: Blinker, ops: seq<Op>, t: nat)
    requires Ready(b) && b.lastOverrideTick.None?
    requires AllWellFormed(ops)
    ensures Run(b, ops).lastOverrideTick == Some(t) <==> SetAt(ops, t)
  {
    hide Apply, Ready, WellFormed, LeavesOverrides, InForce;
    if ops != [] {
      var n := |ops| - 1;
      OverridesInForce(b, ops[..n], t);
      hide SetAt;
      ApplyOverrideTick(Run(b, ops[..n]), ops[n], t);
      SetAtAfter(ops, t);
    } else {
      NothingInForce(t);
    }
  }

  lemma {:induction false} NothingInForce(t: nat)
    ensures !SetAt([], t)
  {
  }
}
