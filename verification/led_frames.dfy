/** What a frame shows: the pattern, the modifiers painted over it in turn, and on top each LED's own override. */
module LedFrames {
  import opened Common
  import opened LedPatterns
  import opened LedBlinkers
  import Overrides = LedOverrides

  // ---------------------------------------------------------------- pattern and modifiers

  /** What the frame would show without overrides. */
  function Shown(b: Blinker, now: nat, vscap: real): Frame
    requires Ready(b)
  {
    RenderFrame(ClearOverrides(b), now, vscap).data
  }

  lemma {:induction false} ShownIsBase(b: Blinker, now: nat, vscap: real)
    requires Ready(b)
    ensures Shown(b, now, vscap) == BaseFrame(b, now, vscap).data
    ensures b.lastOverrideTick.None? ==> RenderFrame(b, now, vscap).data == Shown(b, now, vscap)
  {
    hide Update, RunModifiers;
  }

  lemma {:induction false} DeadModifiersPaintNothing(modifiers: seq<LedPattern>, data: Frame, now: nat, vscap: real)
    requires AllReady(modifiers)
    requires Survivors(modifiers, now) == []
    ensures RunModifiers(modifiers, data, now, vscap).1 == data
  {
    if modifiers != [] {
      DeadModifiersPaintNothing(modifiers[1..], data, now, vscap);
    }
  }

  /** With no modifier alive the frame is the pattern's colours alone. */
  lemma {:induction false} PatternShows(b: Blinker, now: nat, vscap: real)
    requires Ready(b) && Survivors(b.modifiers, now) == []
    ensures Shown(b, now, vscap) == Update(b.pattern, b.lastColors, now, vscap).1
  {
    ShownIsBase(b, now, vscap);
    var colors := Update(b.pattern, b.lastColors, now, vscap).1;
    DeadModifiersPaintNothing(b.modifiers, colors, now, vscap);
    hide Update, RunModifiers, Survivors, Shown;
  }

  /** A modifier paints over what the frame shows without it. */
  lemma {:induction false} OneMoreModifierShows(b: Blinker, m: LedPattern, now: nat, vscap: real)
    requires Ready(b) && OneShotReady(m)
    ensures Ready(b.(modifiers := b.modifiers + [m]))
    ensures Shown(b.(modifiers := b.modifiers + [m]), now, vscap) ==
            UpdateOnce(m, Shown(b, now, vscap), now, vscap).1
  {
    var more := b.(modifiers := b.modifiers + [m]);
    ShownIsBase(b, now, vscap);
    ShownIsBase(more, now, vscap);
    var colors := Update(b.pattern, b.lastColors, now, vscap).1;
    ModifiersPaintInTurn(b.modifiers, m, colors, now, vscap);
    hide Update, UpdateOnce, RunModifiers, Shown;
  }

  /** Later modifiers take priority in the frame: a last one that is alive and covers all LEDs is all that shows. */
  lemma {:induction false} LastModifierShows(b: Blinker, m: LedPattern, other: Frame, now: nat, vscap: real)
    requires Ready(b) && OneShotReady(m)
    requires forall i :: 0 <= i < |m.fragments| ==> Covers(m.fragments[i])
    requires UpdateOnce(m, other, now, vscap).2
    ensures Ready(b.(modifiers := b.modifiers + [m]))
    ensures Shown(b.(modifiers := b.modifiers + [m]), now, vscap) == UpdateOnce(m, other, now, vscap).1
  {
    OneMoreModifierShows(b, m, now, vscap);
    LastModifierWins([], m, Shown(b, now, vscap), other, now, vscap);
    ModifiersPaintInTurn([], m, Shown(b, now, vscap), now, vscap);
    assert RunModifiers([], Shown(b, now, vscap), now, vscap).1 == Shown(b, now, vscap);
    hide UpdateOnce, Shown, Covers, Ready;
  }

  // ---------------------------------------------------------------- modifiers do not leak

  function WithoutModifiers(ops: seq<Op>): (r: seq<Op>)
    requires AllWellFormed(ops)
    ensures AllWellFormed(r)
  {
    if ops == [] then []
    else
      var n := |ops| - 1;
      WithoutModifiers(ops[..n]) + (if ops[n].OpAddModifier? then [] else [ops[n]])
  }

  /** Equal in everything but the modifiers and what they painted. */
  ghost predicate SameUnderModifiers(b: Blinker, c: Blinker) {
    && b.pattern == c.pattern && b.lastColors == c.lastColors && b.brightness == c.brightness
    && b.overrides == c.overrides && b.lastOverrideTick == c.lastOverrideTick
  }

  lemma {:induction false} ApplyUnderModifiers(b: Blinker, c: Blinker, op: Op)
    requires Ready(b) && Ready(c) && WellFormed(op)
    requires SameUnderModifiers(b, c) && c.modifiers == []
    ensures op.OpAddModifier? ==> SameUnderModifiers(Apply(b, op), c)
    ensures !op.OpAddModifier? ==> SameUnderModifiers(Apply(b, op), Apply(c, op)) && Apply(c, op).modifiers == []
    ensures op.OpFrame? && Apply(b, op).modifiers == [] ==> Apply(b, op).data == Apply(c, op).data
  {
    if op.OpFrame? {
      var colors := Update(b.pattern, b.lastColors, op.now, op.vscap).1;
      ModifiersAreFiltered(b.modifiers, colors, op.now, op.vscap);
      if Survivors(b.modifiers, op.now) == [] {
        DeadModifiersPaintNothing(b.modifiers, colors, op.now, op.vscap);
      }
      assert RunModifiers([], colors, op.now, op.vscap) == ([], colors);
    }
    hide Update, RunModifiers, BlendLed, OneShotReady, Repeatable, Survivors;
  }

  /**
   Leaving every modifier out of a run changes neither the pattern, nor the colours it is painted from, nor the
   overrides; and a frame that no modifier survives shows exactly what it would show without them.
   */
  lemma {:induction false} ModifiersDoNotLeak(b: Blinker, ops: seq<Op>)
    requires Ready(b) && b.modifiers == []
    requires AllWellFormed(ops)
    ensures var r, plain := Run(b, ops), Run(b, WithoutModifiers(ops));
            && SameUnderModifiers(r, plain)
            && plain.modifiers == []
            && (ops != [] && ops[|ops| - 1].OpFrame? && r.modifiers == [] ==> r.data == plain.data)
  {
    if ops != [] {
      var n := |ops| - 1;
      ModifiersDoNotLeak(b, ops[..n]);
      var plain := WithoutModifiers(ops[..n]);
      ApplyUnderModifiers(Run(b, ops[..n]), Run(b, plain), ops[n]);
      hide Apply;
      if !ops[n].OpAddModifier? {
        assert (plain + [ops[n]])[..|plain|] == plain;
      } else {
        assert plain + [] == plain;
      }
    }
  }

  // ---------------------------------------------------------------- each LED has its own override

  /** What has happened to the override of LED `i` since overrides were last cleared. */
  function LedHistory(b: Blinker, ops: seq<Op>, i: nat): seq<Overrides.Op>
    requires Ready(b) && AllWellFormed(ops) && i < NUM_LEDS
  {
    if ops == [] then []
    else
      var n := |ops| - 1;
      var before := LedHistory(b, ops[..n], i);
      match ops[n]
      case OpSetOverrides(cmds, _) => before + [Overrides.Retarget(cmds[i].target, cmds[i].transitionMs)]
      case _ =>
        if Run(b, ops).lastOverrideTick.None? then []
        else if ops[n].OpFrame? then before + [Overrides.Tick]
        else before
  }

  lemma {:induction false} OneMoreOverrideOp(history: seq<Overrides.Op>, op: Overrides.Op)
    ensures Overrides.Run(history + [op]) == Overrides.Apply(Overrides.Run(history), op)
  {
    hide Overrides.Apply;
    assert (history + [op])[..|history|] == history;
  }

  lemma {:induction false} ApplyToLed(b: Blinker, op: Op, i: nat)
    requires Ready(b) && WellFormed(op) && i < NUM_LEDS
    requires b.lastOverrideTick.None? ==> b.overrides == NO_OVERRIDES
    ensures var r := Apply(b, op);
            && (r.lastOverrideTick.None? ==> r.overrides == NO_OVERRIDES)
            && (op.OpSetOverrides? ==>
                  && r.lastOverrideTick.Some?
                  && r.overrides[i] == Overrides.SetTarget(b.overrides[i], op.cmds[i].target, op.cmds[i].transitionMs))
            && (!op.OpSetOverrides? && r.lastOverrideTick.Some? ==>
                  r.overrides[i] == if op.OpFrame? then Overrides.Advance(b.overrides[i]) else b.overrides[i])
  {
    hide Update, RunModifiers, BlendLed, OneShotReady, Repeatable, Overrides.SetTarget, Overrides.Advance;
  }

  /**
   Over any run of the renderer, each LED's override is the single override driven by that LED's own commands and the
   frames since overrides were last cleared. What holds for one override over any history thus holds for every LED.
   */
  lemma {:induction false} EachLedHasItsOverride(b: Blinker, ops: seq<Op>, i: nat)
    requires Ready(b) && b.overrides == NO_OVERRIDES && b.lastOverrideTick.None?
    requires AllWellFormed(ops) && i < NUM_LEDS
    ensures var r, history := Run(b, ops), LedHistory(b, ops, i);
            && r.overrides[i] == Overrides.Run(history)
            && (r.lastOverrideTick.None? ==> r.overrides == NO_OVERRIDES)
  {
    if ops != [] {
      var n := |ops| - 1;
      var before := LedHistory(b, ops[..n], i);
      EachLedHasItsOverride(b, ops[..n], i);
      ApplyToLed(Run(b, ops[..n]), ops[n], i);
      hide Apply, Ready;
      if ops[n].OpSetOverrides? {
        OneMoreOverrideOp(before, Overrides.Retarget(ops[n].cmds[i].target, ops[n].cmds[i].transitionMs));
      } else {
        OneMoreOverrideOp(before, Overrides.Tick);
      }
    }
  }
}
