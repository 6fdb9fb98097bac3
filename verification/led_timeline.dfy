/** The renderer over whole runs: its pattern, modifiers and colours each follow from the history alone. */
module LedTimeline {
  import opened Common
  import opened LedPatterns
  import opened LedBlinkers
  import opened LedFrames

  // ---------------------------------------------------------------- the pattern

  /** The pattern that was set last. */
  function LastPattern(b: Blinker, ops: seq<Op>): (p: LedPattern)
    requires Ready(b) && AllWellFormed(ops)
    ensures Repeatable(p)
  {
    if ops == [] then b.pattern
    else
      var n := |ops| - 1;
      if ops[n].OpSetPattern? then ops[n].pattern else LastPattern(b, ops[..n])
  }

  /** When frames have been rendered since. */
  function FrameTimes(ops: seq<Op>): seq<nat> {
    if ops == [] then []
    else
      var n := |ops| - 1;
      match ops[n]
      case OpSetPattern(_) => []
      case OpFrame(now, _) => FrameTimes(ops[..n]) + [now]
      case _ => FrameTimes(ops[..n])
  }

  function LastBrightness(b: Blinker, ops: seq<Op>): Byte {
    if ops == [] then b.brightness
    else
      var n := |ops| - 1;
      if ops[n].OpSetBrightness? then ops[n].brightness else LastBrightness(b, ops[..n])
  }

  lemma {:induction false} OneMoreTime(p: LedPattern, times: seq<nat>, t: nat, data: Frame, vscap: real)
    requires Repeatable(p)
    ensures Cursor(p, times + [t]) == Update(Cursor(p, times), data, t, vscap).0
  {
    var more := times + [t];
    assert more[..|more| - 1] == times;
    CursorLooksAtNoPaint(Cursor(p, times), data, t, vscap);
  }

  lemma {:induction false} ApplyToPattern(b: Blinker, op: Op)
    requires Ready(b) && WellFormed(op)
    ensures var r := Apply(b, op);
            && r.pattern == (match op
                             case OpSetPattern(p) => p
                             case OpFrame(now, vscap) => Update(b.pattern, b.lastColors, now, vscap).0
                             case _ => b.pattern)
            && r.brightness == (if op.OpSetBrightness? then op.brightness else b.brightness)
  {
    hide Update, RunModifiers, BlendLed, OneShotReady, Repeatable;
  }

  /**
   Over any run, the pattern is the one set last, updated at the times of the frames since; so `ScheduleIndependence`
   and `ShowsFragmentAt` hold for the renderer. The brightness is the one set last.
   */
  lemma {:induction false} PatternFollowsFrames(b: Blinker, ops: seq<Op>)
    requires Ready(b) && AllWellFormed(ops)
    ensures Run(b, ops).pattern == Cursor(LastPattern(b, ops), FrameTimes(ops))
    ensures Run(b, ops).brightness == LastBrightness(b, ops)
  {
    if ops != [] {
      var n := |ops| - 1;
      var before := Run(b, ops[..n]);
      PatternFollowsFrames(b, ops[..n]);
      ApplyToPattern(before, ops[n]);
      if ops[n].OpFrame? {
        OneMoreTime(LastPattern(b, ops[..n]), FrameTimes(ops[..n]), ops[n].now, before.lastColors, ops[n].vscap);
      }
      hide Apply, Update, Ready, Repeatable;
    }
  }

  // ---------------------------------------------------------------- the colours

  /** Overrides and modifiers never reach the colours the next frame is painted from: those are the pattern's alone. */
  lemma {:induction false} NextFrameStartsFromPattern(b: Blinker, now: nat, vscap: real)
    requires Ready(b)
    ensures Ready(b.(modifiers := []))
    ensures RenderFrame(b, now, vscap).lastColors == Shown(b.(modifiers := []), now, vscap)
  {
    PatternShows(b.(modifiers := []), now, vscap);
    hide Update, RunModifiers, Shown, BlendLed;
  }

  // ---------------------------------------------------------------- the modifiers

  /** What frames at the given times leave of modifiers. */
  function Remaining(modifiers: seq<LedPattern>, times: seq<nat>): (r: seq<LedPattern>)
    requires AllReady(modifiers)
    ensures AllReady(r)
    decreases |times|
  {
    if times == [] then modifiers else Remaining(Survivors(modifiers, times[0]), times[1..])
  }

  lemma {:induction false} RemainingConcat(a: seq<LedPattern>, b: seq<LedPattern>, times: seq<nat>)
    requires AllReady(a) && AllReady(b)
    ensures AllReady(a + b)
    ensures Remaining(a + b, times) == Remaining(a, times) + Remaining(b, times)
    decreases |times|
  {
    hide Survivors, OneShotReady;
    if times != [] {
      SurvivorsConcat(a, b, times[0]);
      RemainingConcat(Survivors(a, times[0]), Survivors(b, times[0]), times[1..]);
    }
  }

  /** Every modifier that was added, each by itself, after the frames that followed it and those still to come. */
  function EachAlone(ops: seq<Op>, later: seq<nat>): seq<LedPattern>
    requires AllWellFormed(ops)
  {
    if ops == [] then []
    else
      var n := |ops| - 1;
      match ops[n]
      case OpAddModifier(m) => EachAlone(ops[..n], later) + Remaining([m], later)
      case OpFrame(now, _) => EachAlone(ops[..n], [now] + later)
      case _ => EachAlone(ops[..n], later)
  }

  lemma {:induction false} ApplyToModifiers(b: Blinker, op: Op)
    requires Ready(b) && WellFormed(op)
    ensures Apply(b, op).modifiers == match op
              case OpAddModifier(m) => b.modifiers + [m]
              case OpFrame(now, _) => Survivors(b.modifiers, now)
              case _ => b.modifiers
  {
    if op.OpFrame? {
      ModifiersAreFiltered(b.modifiers, Update(b.pattern, b.lastColors, op.now, op.vscap).1, op.now, op.vscap);
    }
    hide Update, RunModifiers, Survivors, BlendLed, OneShotReady, Repeatable;
  }

  lemma {:induction false} ModifiersAndLater(b: Blinker, ops: seq<Op>, later: seq<nat>)
    requires Ready(b) && AllWellFormed(ops) && b.modifiers == []
    ensures AllReady(Run(b, ops).modifiers)
    ensures Remaining(Run(b, ops).modifiers, later) == EachAlone(ops, later)
    decreases |ops|
  {
    if ops == [] {
      NothingRemains(later);
    } else {
      var n := |ops| - 1;
      var before := Run(b, ops[..n]);
      ApplyToModifiers(before, ops[n]);
      match ops[n] {
        case OpAddModifier(m) =>
          ModifiersAndLater(b, ops[..n], later);
          RemainingConcat(before.modifiers, [m], later);
        case OpFrame(now, _) =>
          ModifiersAndLater(b, ops[..n], [now] + later);
          assert ([now] + later)[1..] == later;
        case _ =>
          ModifiersAndLater(b, ops[..n], later);
      }
    }
  }

  lemma {:induction false} NothingRemains(times: seq<nat>)
    ensures Remaining([], times) == []
    decreases |times|
  {
    if times != [] {
      NothingRemains(times[1..]);
    }
  }

  /** Over any run, the modifiers are those added, in order, each reduced by the frames that followed it alone. */
  lemma {:induction false} EachModifierByItself(b: Blinker, ops: seq<Op>)
    requires Ready(b) && AllWellFormed(ops) && b.modifiers == []
    ensures Run(b, ops).modifiers == EachAlone(ops, [])
  {
    ModifiersAndLater(b, ops, []);
  }

  /** A modifier lives through its frames exactly if the last is no later than the first plus its whole duration. */
  lemma {:induction false} LivesForItsDuration(m: LedPattern, times: seq<nat>)
    requires OneShotReady(m) && m.startMs == 0 && m.idx == 0
    requires times != [] && Ordered(times) && times[0] > 0
    ensures Remaining([m], times) != [] <==>
            m.fragments != [] && times[|times| - 1] <= times[0] + Total(Durations(m.fragments))
  {
    var t, rest := times[0], times[1..];
    assert [t] + rest == times;
    OneMoreLater([m], times);
    SingleSurvivor(m, t);
    SurvivesUntilDeadline(m, t);
    if m.fragments != [] {
      FirstDeadline(m, t);
    }
    hide Kept, Deadline, Survivors, Remaining, Ordered;
    var kept := Kept(m, t);
    if kept == [] {
      NothingRemains(rest);
    } else {
      assert kept == [kept[0]];
      LivesUntilDeadline(kept[0], rest, t);
      assert rest != [] ==> rest[|rest| - 1] == times[|times| - 1];
    }
  }

  lemma {:induction false} FirstDeadline(m: LedPattern, t: nat)
    requires m.fragments != [] && m.startMs == 0 && m.idx == 0
    ensures Deadline(m, t) == t + Total(Durations(m.fragments)) >= t
  {
    assert Prefix(Durations(m.fragments), 0) == 0;
  }

  lemma {:induction false} SingleSurvivor(m: LedPattern, now: nat)
    requires OneShotReady(m)
    ensures Survivors([m], now) == Kept(m, now)
  {
    assert [m][1..] == [];
    assert Kept(m, now) + [] == Kept(m, now);
  }

  lemma {:induction false} StampedDeadline(m: LedPattern, t: nat, t1: nat)
    requires OneShotReady(m) && m.fragments != [] && m.startMs > 0
    ensures Deadline(m, t) == Deadline(m, t1)
  {
  }

  lemma {:induction false} OneMoreLater(modifiers: seq<LedPattern>, times: seq<nat>)
    requires AllReady(modifiers) && times != []
    ensures Remaining(modifiers, times) == Remaining(Survivors(modifiers, times[0]), times[1..])
  {
  }

  lemma {:induction false} OrderedTail(t: nat, times: seq<nat>)
    requires times != [] && Ordered([t] + times)
    ensures t <= times[0] <= times[|times| - 1]
    ensures Ordered([times[0]] + times[1..])
  {
    var all := [t] + times;
    assert [times[0]] + times[1..] == times;
    assert all[0] <= all[1] <= all[|times|];
    forall i, j | 0 <= i < j < |times| ensures times[i] <= times[j] {
      assert all[i + 1] <= all[j + 1];
    }
  }

  /** From a frame at `t` on: a stamped modifier lives until the last frame is past its deadline. */
  lemma {:induction false} LivesUntilDeadline(m: LedPattern, times: seq<nat>, t: nat)
    requires OneShotReady(m) && m.fragments != [] && m.startMs > 0
    requires Ordered([t] + times) && t > 0
    requires t <= Deadline(m, t)
    ensures Remaining([m], times) != [] <==> (times != [] ==> times[|times| - 1] <= Deadline(m, t))
    decreases |times|
  {
    if times != [] {
      var t1, rest := times[0], times[1..];
      OrderedTail(t, times);
      OneMoreLater([m], times);
      SingleSurvivor(m, t1);
      SurvivesUntilDeadline(m, t1);
      StampedDeadline(m, t, t1);
      hide Kept, Deadline, Survivors, Remaining, Ordered;
      var kept := Kept(m, t1);
      if kept == [] {
        NothingRemains(rest);
      } else {
        assert kept == [kept[0]];
        LivesUntilDeadline(kept[0], rest, t1);
        assert rest != [] ==> rest[|rest| - 1] == times[|times| - 1];
      }
    }
  }
}
