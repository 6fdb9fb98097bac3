/**
 The LED renderer (`LEDBlinker` in firmware/src/tasks/led_blinker.rs): base pattern, one-shot modifiers, and
 timed per-LED overrides blended on top. `RenderFrame` is one 10 ms frame up to gamma correction.
 */
module LedBlinkers {
  import opened Common
  import opened LedPatterns
  import Overrides = LedOverrides

  const OVERRIDE_TIMEOUT_MS: nat := 5000

  datatype OverrideCommand = OverrideCommand(target: Overrides.Rgba, transitionMs: U16)

  datatype Blinker = Blinker(
    data: Frame,
    lastColors: Frame,
    pattern: LedPattern,
    modifiers: seq<LedPattern>,
    brightness: Byte,
    overrides: seq<Overrides.LedOverride>,
    lastOverrideTick: Option<nat>)

  const NO_OVERRIDES: seq<Overrides.LedOverride> :=
    [Overrides.NONE, Overrides.NONE, Overrides.NONE, Overrides.NONE, Overrides.NONE]

  predicate AllReady(modifiers: seq<LedPattern>) {
    forall i :: 0 <= i < |modifiers| ==> OneShotReady(modifiers[i])
  }

  predicate Ready(b: Blinker) {
    Repeatable(b.pattern) && AllReady(b.modifiers) && |b.overrides| == NUM_LEDS
  }

  function ClearOverrides(b: Blinker): Blinker {
    b.(overrides := NO_OVERRIDES, lastOverrideTick := None)
  }

  function SetOverrides(b: Blinker, cmds: seq<OverrideCommand>, now: nat): Blinker
    requires |cmds| == |b.overrides|
  {
    b.(overrides := seq(|cmds|, i requires 0 <= i < |cmds| =>
         Overrides.SetTarget(b.overrides[i], cmds[i].target, cmds[i].transitionMs)),
       lastOverrideTick := Some(now))
  }

  /** Every modifier is updated once, painting over what the ones before it left; those that ran out are dropped. */
  function RunModifiers(modifiers: seq<LedPattern>, data: Frame, now: nat, vscap: real): (seq<LedPattern>, Frame)
    requires AllReady(modifiers)
  {
    if modifiers == [] then ([], data)
    else
      var (first, painted, alive) := UpdateOnce(modifiers[0], data, now, vscap);
      var (rest, final) := RunModifiers(modifiers[1..], painted, now, vscap);
      ((if alive then [first] else []) + rest, final)
  }

  function BlendLed(base: Rgb, over: Overrides.Rgba): Rgb {
    if over.a == 0 then base
    else Rgb(Overrides.Blend(base.r, over.r, over.a),
             Overrides.Blend(base.g, over.g, over.a),
             Overrides.Blend(base.b, over.b, over.a))
  }

  function ApplyOverrides(b: Blinker, now: nat): Blinker
    requires |b.overrides| == NUM_LEDS
  {
    if b.lastOverrideTick.None? then b
    else if now - b.lastOverrideTick.value > OVERRIDE_TIMEOUT_MS then ClearOverrides(b)
    else
      var advanced := seq(NUM_LEDS, i requires 0 <= i < NUM_LEDS => Overrides.Advance(b.overrides[i]));
      b.(overrides := advanced,
         data := seq(NUM_LEDS, i requires 0 <= i < NUM_LEDS => BlendLed(b.data[i], Overrides.Current(advanced[i]))))
  }

  /** The frame before overrides are applied. */
  function BaseFrame(b: Blinker, now: nat, vscap: real): Blinker
    requires Ready(b)
  {
    var (pattern, colors) := Update(b.pattern, b.lastColors, now, vscap);
    var (modifiers, painted) := RunModifiers(b.modifiers, colors, now, vscap);
    b.(pattern := pattern, lastColors := colors, modifiers := modifiers, data := painted)
  }

  function RenderFrame(b: Blinker, now: nat, vscap: real): Blinker
    requires Ready(b)
  {
    ApplyOverrides(BaseFrame(b, now, vscap), now)
  }

  class LedBlinker {
    const data: array<Rgb>
    var lastColors: Frame
    var pattern: LedPattern
    var modifiers: seq<LedPattern>
    var brightness: Byte
    const overrides: array<Overrides.LedOverride>
    var lastOverrideTick: Option<nat>

    ghost predicate Valid()
      reads this, data, overrides
    {
      data.Length == NUM_LEDS && overrides.Length == NUM_LEDS && Ready(Snapshot())
    }

    ghost function Snapshot(): Blinker
      requires data.Length == NUM_LEDS
      reads this, data, overrides
    {
      Blinker(data[..], lastColors, pattern, modifiers, brightness, overrides[..], lastOverrideTick)
    }

    constructor (pattern: LedPattern, brightness: Byte)
      requires Repeatable(pattern)
      ensures Valid() && fresh(data) && fresh(overrides)
      ensures Snapshot() == Blinker([BLACK, BLACK, BLACK, BLACK, BLACK], [BLACK, BLACK, BLACK, BLACK, BLACK],
                                    pattern, [], brightness, NO_OVERRIDES, None)
    {
      data := new Rgb[NUM_LEDS](_ => BLACK);
      lastColors := [BLACK, BLACK, BLACK, BLACK, BLACK];
      this.pattern, modifiers, this.brightness := pattern, [], brightness;
      overrides := new Overrides.LedOverride[NUM_LEDS](_ => Overrides.NONE);
      lastOverrideTick := None;
    }

    method Clear()
      requires Valid()
      modifies overrides, this`lastOverrideTick
      ensures Valid() && Snapshot() == ClearOverrides(old(Snapshot()))
    {
      forall i | 0 <= i < overrides.Length {
        overrides[i] := Overrides.NONE;
      }
      lastOverrideTick := None;
    }

    method SetPattern(p: LedPattern)
      requires Valid() && Repeatable(p)
      modifies this, overrides
      ensures Valid() && Snapshot() == ClearOverrides(old(Snapshot()).(pattern := p))
    {
      pattern := p;
      Clear();
    }

    method AddModifier(m: LedPattern)
      requires Valid() && OneShotReady(m)
      modifies this`modifiers
      ensures Valid() && Snapshot() == old(Snapshot()).(modifiers := old(modifiers) + [m])
    {
      modifiers := modifiers + [m];
    }

    method Override(cmds: seq<OverrideCommand>, now: nat)
      requires Valid() && |cmds| == NUM_LEDS
      modifies overrides, this`lastOverrideTick
      ensures Valid() && Snapshot() == SetOverrides(old(Snapshot()), cmds, now)
    {
      var i := 0;
      while i < |cmds|
        invariant 0 <= i <= |cmds|
        invariant forall k :: 0 <= k < i ==>
                    overrides[k] == Overrides.SetTarget(old(overrides[k]), cmds[k].target, cmds[k].transitionMs)
        invariant forall k :: i <= k < |cmds| ==> overrides[k] == old(overrides[k])
      {
        overrides[i] := Overrides.SetTarget(overrides[i], cmds[i].target, cmds[i].transitionMs);
        i := i + 1;
      }
      lastOverrideTick := Some(now);
    }

    method UpdateModifiers(painted: Frame, now: nat, vscap: real) returns (final: Frame)
      requires AllReady(modifiers)
      modifies this`modifiers
      ensures (modifiers, final) == RunModifiers(old(modifiers), painted, now, vscap)
      ensures AllReady(modifiers)
    {
      hide UpdateOnce, OneShotReady;
      final := painted;
      var i := 0;
      ghost var done, todo := [], modifiers;
      assert forall s: seq<LedPattern> :: [] + s == s;
      while i < |modifiers|
        invariant modifiers == done + todo && |done| == i
        invariant AllReady(done) && AllReady(todo)
        invariant var (rest, last) := RunModifiers(todo, final, now, vscap);
                  RunModifiers(old(modifiers), painted, now, vscap) == (done + rest, last)
        decreases |todo|
      {
        var m, frame, alive := UpdatePattern(modifiers[i], final, true, now, vscap);
        ghost var rest := RunModifiers(todo[1..], frame, now, vscap).0;
        if alive {
          AliveIsReady(modifiers[i], final, now, vscap);
          modifiers := modifiers[i := m];
          i := i + 1;
          assert done + ([m] + rest) == (done + [m]) + rest;
          done := done + [m];
        } else {
          modifiers := modifiers[..i] + modifiers[i + 1..];
        }
        final := frame;
        todo := todo[1..];
      }
      assert done + [] == done;
    }

    method BlendLeds()
      requires data.Length == NUM_LEDS && overrides.Length == NUM_LEDS
      modifies data, overrides
      ensures forall k :: 0 <= k < NUM_LEDS ==> overrides[k] == Overrides.Advance(old(overrides[k]))
      ensures forall k :: 0 <= k < NUM_LEDS ==> data[k] == BlendLed(old(data[k]), Overrides.Current(overrides[k]))
    {
      hide Overrides.Advance, Overrides.Current, Overrides.Blend;
      var i := 0;
      while i < NUM_LEDS
        invariant 0 <= i <= NUM_LEDS
        invariant forall k :: 0 <= k < i ==> overrides[k] == Overrides.Advance(old(overrides[k]))
        invariant forall k :: 0 <= k < i ==> data[k] == BlendLed(old(data[k]), Overrides.Current(overrides[k]))
        invariant forall k :: i <= k < NUM_LEDS ==> overrides[k] == old(overrides[k])
        invariant forall k :: i <= k < NUM_LEDS ==> data[k] == old(data[k])
      {
        overrides[i] := Overrides.Advance(overrides[i]);
        var over := Overrides.Current(overrides[i]);
        if over.a != 0 {
          var r := Overrides.Blend(data[i].r, over.r, over.a);
          var g := Overrides.Blend(data[i].g, over.g, over.a);
          var b := Overrides.Blend(data[i].b, over.b, over.a);
          data[i] := Rgb(r, g, b);
        }
        i := i + 1;
      }
    }

    method BlendOverrides(now: nat)
      requires Valid()
      modifies data, overrides, this`lastOverrideTick
      ensures Valid() && Snapshot() == ApplyOverrides(old(Snapshot()), now)
    {
      if lastOverrideTick.None? {
        return;
      }
      if now - lastOverrideTick.value > OVERRIDE_TIMEOUT_MS {
        Clear();
        return;
      }
      hide BlendLed, Overrides.Advance, Overrides.Current;
      BlendLeds();
      ghost var spec := ApplyOverrides(old(Snapshot()), now);
      assert overrides[..] == spec.overrides;
      assert data[..] == spec.data;
    }

    method UpdateBase(now: nat, vscap: real)
      requires Valid()
      modifies this, data
      ensures Valid() && Snapshot() == BaseFrame(old(Snapshot()), now, vscap)
    {
      PatternStaysRepeatable(pattern, lastColors, now, vscap);
      hide Update, RunModifiers, OneShotReady, Repeatable;
      var alive;
      pattern, lastColors, alive := UpdatePattern(pattern, lastColors, false, now, vscap);
      var painted := UpdateModifiers(lastColors, now, vscap);
      forall i | 0 <= i < NUM_LEDS {
        data[i] := painted[i];
      }
      assert data[..] == painted;
    }

    method UpdateFrame(now: nat, vscap: real)
      requires Valid()
      modifies this, data, overrides
      ensures Valid() && Snapshot() == RenderFrame(old(Snapshot()), now, vscap)
    {
      hide BaseFrame, ApplyOverrides, Ready;
      UpdateBase(now, vscap);
      BlendOverrides(now);
    }
  }

  lemma {:induction false} PatternStaysRepeatable(p: LedPattern, data: Frame, now: nat, vscap: real)
    requires Repeatable(p)
    ensures Repeatable(Update(p, data, now, vscap).0)
  {
  }

  lemma {:induction false} AliveIsReady(p: LedPattern, data: Frame, now: nat, vscap: real)
    requires OneShotReady(p)
    ensures UpdateOnce(p, data, now, vscap).2 ==> OneShotReady(UpdateOnce(p, data, now, vscap).0)
  {
  }

  // ---------------------------------------------------------------- modifiers

  /** A modifier moved to `now`, or nothing if it has run out: no painting involved. */
  function Kept(m: LedPattern, now: nat): (r: seq<LedPattern>)
    requires OneShotReady(m)
    ensures AllReady(r)
  {
    var black := [BLACK, BLACK, BLACK, BLACK, BLACK];
    var (m', _, alive) := UpdateOnce(m, black, now, 0.0);
    AliveIsReady(m, black, now, 0.0);
    if alive then [m'] else []
  }

  /** The modifiers still alive at `now`, in their order. */
  function Survivors(modifiers: seq<LedPattern>, now: nat): (r: seq<LedPattern>)
    requires AllReady(modifiers)
    ensures AllReady(r)
  {
    if modifiers == [] then [] else Kept(modifiers[0], now) + Survivors(modifiers[1..], now)
  }

  lemma {:induction false} ModifiersAreFiltered(modifiers: seq<LedPattern>, data: Frame, now: nat, vscap: real)
    requires AllReady(modifiers)
    ensures RunModifiers(modifiers, data, now, vscap).0 == Survivors(modifiers, now)
  {
    if modifiers != [] {
      ModifiersAreFiltered(modifiers[1..], UpdateOnce(modifiers[0], data, now, vscap).1, now, vscap);
    }
  }

  lemma {:induction false} ModifiersPaintInTurn(modifiers: seq<LedPattern>, m: LedPattern, data: Frame,
                                                now: nat, vscap: real)
    requires AllReady(modifiers) && OneShotReady(m)
    ensures AllReady(modifiers + [m])
    ensures RunModifiers(modifiers + [m], data, now, vscap).1 ==
            UpdateOnce(m, RunModifiers(modifiers, data, now, vscap).1, now, vscap).1
  {
    hide UpdateOnce, OneShotReady;
    var all := modifiers + [m];
    if modifiers == [] {
      assert all[1..] == [];
    } else {
      assert all[0] == modifiers[0] && all[1..] == modifiers[1..] + [m];
      ModifiersPaintInTurn(modifiers[1..], m, UpdateOnce(modifiers[0], data, now, vscap).1, now, vscap);
    }
  }

  /** A fragment that paints every LED hides whatever was there before. */
  ghost predicate Covers(f: Fragment) {
    forall t: U32, vscap: real, x: Frame, y: Frame :: f.paint(t, vscap, x) == f.paint(t, vscap, y)
  }

  /** Later modifiers take priority: if the last one is alive and covers, the frame is its alone. */
  lemma {:induction false} LastModifierWins(modifiers: seq<LedPattern>, m: LedPattern, data: Frame, other: Frame,
                                            now: nat, vscap: real)
    requires AllReady(modifiers) && OneShotReady(m)
    requires forall i :: 0 <= i < |m.fragments| ==> Covers(m.fragments[i])
    requires UpdateOnce(m, other, now, vscap).2
    ensures AllReady(modifiers + [m])
    ensures RunModifiers(modifiers + [m], data, now, vscap).1 == UpdateOnce(m, other, now, vscap).1
  {
    ModifiersPaintInTurn(modifiers, m, data, now, vscap);
    var below := RunModifiers(modifiers, data, now, vscap).1;
    hide RunModifiers;
    var moved := UpdateOnce(m, other, now, vscap).0;
    assert Covers(moved.fragments[moved.idx]);
    assert Paint(moved, below, now, vscap) == Paint(moved, other, now, vscap);
  }

  /** When a modifier first seen at `now` or before runs out. */
  function Deadline(m: LedPattern, now: nat): nat
    requires m.fragments != [] && OneShotReady(m)
  {
    EndTime(Durations(m.fragments), m.idx, Stamp(m, now).startMs)
  }

  /** A modifier survives a frame exactly if it has fragments and its deadline, which no frame moves, is not past. */
  lemma {:induction false} SurvivesUntilDeadline(m: LedPattern, now: nat)
    requires OneShotReady(m)
    ensures Kept(m, now) != [] <==> m.fragments != [] && now <= Deadline(m, now)
    ensures Kept(m, now) != [] && now > 0 ==>
              && |Kept(m, now)| == 1
              && var m' := Kept(m, now)[0];
                 m'.fragments == m.fragments && m'.startMs > 0 && Deadline(m', now) == Deadline(m, now)
  {
    if m.fragments != [] {
      AliveUntilEndTime(Durations(m.fragments), m.idx, Stamp(m, now).startMs, now);
      StartGrows(Durations(m.fragments), m.idx, Stamp(m, now).startMs, now);
    }
  }

  lemma {:induction false} StartGrows(durations: seq<nat>, idx: nat, start: nat, now: nat)
    requires idx < |durations|
    ensures WalkOnce(durations, idx, start, now).1 >= start
    decreases |durations| - idx
  {
    if now - start > durations[idx] && idx + 1 < |durations| {
      StartGrows(durations, idx + 1, start + durations[idx], now);
    }
  }

  lemma {:induction false} SurvivorsConcat(a: seq<LedPattern>, b: seq<LedPattern>, now: nat)
    requires AllReady(a) && AllReady(b)
    ensures AllReady(a + b)
    ensures Survivors(a + b, now) == Survivors(a, now) + Survivors(b, now)
  {
    hide Kept, OneShotReady;
    if a == [] {
      assert a + b == b;
    } else {
      SurvivorsConcat(a[1..], b, now);
      assert (a + b)[1..] == a[1..] + b && (a + b)[0] == a[0];
    }
  }

  lemma {:induction false} KeptComposes(m: LedPattern, t1: nat, t2: nat)
    requires OneShotReady(m) && m.startMs > 0 && t1 <= t2
    ensures Survivors(Kept(m, t1), t2) == Kept(m, t2)
  {
    if m.fragments != [] {
      var durations := Durations(m.fragments);
      AliveUntilEndTime(durations, m.idx, m.startMs, t1);
      AliveUntilEndTime(durations, m.idx, m.startMs, t2);
      if WalkOnce(durations, m.idx, m.startMs, t1).2 {
        WalkOnceComposes(durations, m.idx, m.startMs, t1, t2);
        StartGrows(durations, m.idx, m.startMs, t1);
      }
    }
  }

  /** Once stamped, frames at t1 and t2 leave what a single frame at t2 leaves. */
  lemma {:induction false} SurvivorsDependOnLastFrame(modifiers: seq<LedPattern>, t1: nat, t2: nat)
    requires AllReady(modifiers) && t1 <= t2
    requires forall i :: 0 <= i < |modifiers| ==> modifiers[i].startMs > 0
    ensures Survivors(Survivors(modifiers, t1), t2) == Survivors(modifiers, t2)
  {
    if modifiers != [] {
      SurvivorsDependOnLastFrame(modifiers[1..], t1, t2);
      KeptComposes(modifiers[0], t1, t2);
      SurvivorsConcat(Kept(modifiers[0], t1), Survivors(modifiers[1..], t1), t2);
    }
  }

  // ---------------------------------------------------------------- overrides do not leak

  datatype Op =
    | OpSetPattern(pattern: LedPattern)
    | OpSetBrightness(brightness: Byte)
    | OpAddModifier(modifier: LedPattern)
    | OpSetOverrides(cmds: seq<OverrideCommand>, at: nat)
    | OpFrame(now: nat, vscap: real)

  predicate WellFormed(op: Op) {
    match op
    case OpSetPattern(p) => Repeatable(p)
    case OpAddModifier(m) => OneShotReady(m)
    case OpSetOverrides(cmds, _) => |cmds| == NUM_LEDS
    case _ => true
  }

  predicate AllWellFormed(ops: seq<Op>) {
    forall i :: 0 <= i < |ops| ==> WellFormed(ops[i])
  }

  function Apply(b: Blinker, op: Op): (r: Blinker)
    requires Ready(b) && WellFormed(op)
    ensures Ready(r)
  {
    match op
    case OpSetPattern(p) => ClearOverrides(b.(pattern := p))
    case OpSetBrightness(v) => b.(brightness := v)
    case OpAddModifier(m) => b.(modifiers := b.modifiers + [m])
    case OpSetOverrides(cmds, at) => SetOverrides(b, cmds, at)
    case OpFrame(now, vscap) =>
      FrameKeepsReady(b, now, vscap);
      RenderFrame(b, now, vscap)
  }

  lemma {:induction false} FrameKeepsReady(b: Blinker, now: nat, vscap: real)
    requires Ready(b)
    ensures Ready(RenderFrame(b, now, vscap))
  {
    PatternStaysRepeatable(b.pattern, b.lastColors, now, vscap);
    var colors := Update(b.pattern, b.lastColors, now, vscap).1;
    ModifiersAreFiltered(b.modifiers, colors, now, vscap);
  }

  function Run(b: Blinker, ops: seq<Op>): (r: Blinker)
    requires Ready(b) && AllWellFormed(ops)
    ensures Ready(r)
  {
    if ops == [] then b else Apply(Run(b, ops[..|ops| - 1]), ops[|ops| - 1])
  }

  function WithoutOverrides(ops: seq<Op>): (r: seq<Op>)
    requires AllWellFormed(ops)
    ensures AllWellFormed(r)
  {
    if ops == [] then []
    else
      var n := |ops| - 1;
      WithoutOverrides(ops[..n]) + (if ops[n].OpSetOverrides? then [] else [ops[n]])
  }

  /** Equal in everything that later frames are painted from. */
  ghost predicate SameBase(b: Blinker, c: Blinker) {
    b.pattern == c.pattern && b.lastColors == c.lastColors && b.modifiers == c.modifiers && b.brightness == c.brightness
  }

  lemma {:induction false} ApplyKeepsSameBase(b: Blinker, c: Blinker, op: Op)
    requires Ready(b) && Ready(c) && WellFormed(op)
    requires SameBase(b, c) && c.lastOverrideTick.None?
    ensures op.OpSetOverrides? ==> SameBase(Apply(b, op), c)
    ensures !op.OpSetOverrides? ==> SameBase(Apply(b, op), Apply(c, op)) && Apply(c, op).lastOverrideTick.None?
    ensures op.OpFrame? && Apply(b, op).lastOverrideTick.None? ==> Apply(b, op).data == Apply(c, op).data
  {
    if op.OpFrame? {
      assert BaseFrame(b, op.now, op.vscap).data == BaseFrame(c, op.now, op.vscap).data;
    }
  }

  /**
   Leaving every SetOverrides out of a run changes neither the pattern, nor the colours it is painted from, nor the
   modifiers; and a frame after which no override is active (none was set, a pattern change cleared them, or they
   were older than 5 s) shows exactly what it would show without them.
   */
  lemma {:induction false} OverridesDoNotLeak(b: Blinker, ops: seq<Op>)
    requires Ready(b) && b.lastOverrideTick.None?
    requires AllWellFormed(ops)
    ensures var r, plain := Run(b, ops), Run(b, WithoutOverrides(ops));
            && SameBase(r, plain)
            && plain.lastOverrideTick.None?
            && (ops != [] && ops[|ops| - 1].OpFrame? && r.lastOverrideTick.None? ==> r.data == plain.data)
  {
    if ops != [] {
      var n := |ops| - 1;
      OverridesDoNotLeak(b, ops[..n]);
      var plain := WithoutOverrides(ops[..n]);
      ApplyKeepsSameBase(Run(b, ops[..n]), Run(b, plain), ops[n]);
      hide Apply;
      if !ops[n].OpSetOverrides? {
        assert (plain + [ops[n]])[..|plain|] == plain;
      } else {
        assert plain + [] == plain;
      }
    }
  }

  /** No override of the renderer ever has more time left than its transition takes. */
  predicate TransitionsSound(b: Blinker) {
    forall i :: 0 <= i < |b.overrides| ==> b.overrides[i].remainingMs <= b.overrides[i].totalMs
  }

  lemma {:induction false} ApplyKeepsTransitions(b: Blinker, op: Op)
    requires Ready(b) && TransitionsSound(b)
    requires WellFormed(op)
    ensures TransitionsSound(Apply(b, op))
  {
    hide Update, RunModifiers, BlendLed;
  }

  /** So the u16 subtraction behind every interpolation of every frame is safe. */
  lemma {:induction false} TransitionsStaySound(b: Blinker, ops: seq<Op>)
    requires Ready(b) && TransitionsSound(b)
    requires AllWellFormed(ops)
    ensures TransitionsSound(Run(b, ops))
  {
    hide Apply, TransitionsSound;
    if ops != [] {
      var n := |ops| - 1;
      TransitionsStaySound(b, ops[..n]);
      ApplyKeepsTransitions(Run(b, ops[..n]), ops[n]);
    }
  }

  predicate Between(x: Byte, a: Byte, b: Byte) {
    Min(a, b) <= x <= Max(a, b)
  }

  lemma {:induction false} NoAlphaNoMix(base: Byte, over: Byte)
    ensures Overrides.RoundedMix(base, base, over, 0)
  {
  }

  /** Each LED of an overridden frame is, channel by channel, the rounded mix of the base frame and its override. */
  lemma {:induction false} BlendStaysBetween(b: Blinker, now: nat, vscap: real, i: nat)
    requires Ready(b) && i < NUM_LEDS
    requires RenderFrame(b, now, vscap).lastOverrideTick.Some?
    ensures var base, r := BaseFrame(b, now, vscap).data[i], RenderFrame(b, now, vscap);
            var over := Overrides.Current(r.overrides[i]);
            && r.overrides[i] == Overrides.Advance(b.overrides[i])
            && Between(r.data[i].r, base.r, over.r)
            && Between(r.data[i].g, base.g, over.g)
            && Between(r.data[i].b, base.b, over.b)
            && Overrides.RoundedMix(r.data[i].r, base.r, over.r, over.a)
            && Overrides.RoundedMix(r.data[i].g, base.g, over.g, over.a)
            && Overrides.RoundedMix(r.data[i].b, base.b, over.b, over.a)
            && (over.a == 0 ==> r.data[i] == base)
            && (over.a == 255 ==> r.data[i] == Rgb(over.r, over.g, over.b))
  {
    var base, over := BaseFrame(b, now, vscap).data[i], Overrides.Current(Overrides.Advance(b.overrides[i]));
    Overrides.BlendIsRoundedMix(base.r, over.r, over.a);
    Overrides.BlendIsRoundedMix(base.g, over.g, over.a);
    Overrides.BlendIsRoundedMix(base.b, over.b, over.a);
    NoAlphaNoMix(base.r, over.r);
    NoAlphaNoMix(base.g, over.g);
    NoAlphaNoMix(base.b, over.b);
    hide Update, RunModifiers, Overrides.RoundedMix, Overrides.Blend, Overrides.Current, Overrides.Advance;
  }
}
