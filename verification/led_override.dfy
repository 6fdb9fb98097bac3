/** Per-LED colour overrides with timed transitions (`LedOverride` in firmware/src/tasks/led_blinker.rs). */
module LedOverrides {
  import opened Common

  datatype Rgba = Rgba(r: Byte, g: Byte, b: Byte, a: Byte)

  datatype Channel = Red | Green | Blue | Alpha

  function Level(c: Channel, x: Rgba): Byte {
    match c
    case Red => x.r
    case Green => x.g
    case Blue => x.b
    case Alpha => x.a
  }

  datatype LedOverride = LedOverride(start: Rgba, target: Rgba, remainingMs: U16, totalMs: U16)

  const NONE := LedOverride(Rgba(0, 0, 0, 0), Rgba(0, 0, 0, 0), 0, 0)

  /** Division of i32 truncates toward zero. */
  function TruncDiv(n: int, d: int): int
    requires d > 0
  {
    if n >= 0 then n / d else -(-n / d)
  }

  function Clamp(x: int): Byte {
    if x < 0 then 0 else if x > 255 then 255 else x
  }

  /** The interpolated level before it is clamped to a byte. */
  function Raw(start: Byte, end: Byte, elapsed: int, total: U16): int {
    if total == 0 then end else start + TruncDiv((end - start) * elapsed, total)
  }

  function Interpolate(start: Byte, end: Byte, elapsed: int, total: U16): Byte {
    Clamp(Raw(start, end, elapsed, total))
  }

  /** A u16 subtraction in the source; `TransitionStaysInHull` shows it never underflows. */
  function Elapsed(o: LedOverride): int {
    o.totalMs - o.remainingMs
  }

  function CurrentLevel(o: LedOverride, c: Channel): Byte {
    Interpolate(Level(c, o.start), Level(c, o.target), Elapsed(o), o.totalMs)
  }

  function Current(o: LedOverride): Rgba {
    Rgba(CurrentLevel(o, Red), CurrentLevel(o, Green), CurrentLevel(o, Blue), CurrentLevel(o, Alpha))
  }

  /** One tick of 10 ms. */
  function Advance(o: LedOverride): LedOverride {
    o.(remainingMs := if o.remainingMs >= 10 then o.remainingMs - 10 else 0)
  }

  function SetTarget(o: LedOverride, target: Rgba, transitionMs: U16): LedOverride {
    if transitionMs / 10 == 0 then LedOverride(target, target, 0, 0)
    else LedOverride(Current(o), target, transitionMs, transitionMs)
  }

  // ---------------------------------------------------------------- interpolation

  lemma {:induction false} QuotientBelow(n: nat, d: nat, k: nat)
    requires d > 0 && n < k * d
    ensures n / d < k
  {
    if n / d >= k {
      MulMono(k, n / d, d);
      assert false;
    }
  }

  lemma {:induction false} QuotientAtLeast(n: nat, d: nat, k: nat)
    requires d > 0 && k * d <= n
    ensures k <= n / d
  {
    assert n < (n / d + 1) * d;
    if n / d < k {
      MulMono(n / d + 1, k, d);
      assert false;
    }
  }

  lemma {:induction false} FractionOfAll(d: nat, total: nat)
    requires total > 0
    ensures d * total / total == d
  {
    assert (d + 1) * total == d * total + total;
    QuotientBelow(d * total, total, d + 1);
    QuotientAtLeast(d * total, total, d);
  }

  lemma {:induction false} FractionOfPart(d: nat, elapsed: nat, total: nat)
    requires elapsed < total
    ensures 0 <= d * elapsed / total
    ensures if d > 0 then d * elapsed / total < d else d * elapsed / total == 0
    ensures elapsed == 0 ==> d * elapsed / total == 0
  {
    if d > 0 {
      MulMono(elapsed + 1, total, d);
      assert (elapsed + 1) * d == d * elapsed + d;
      assert total * d == d * total;
      QuotientBelow(d * elapsed, total, d);
    }
  }

  lemma {:induction false} QuotientGrows(n0: nat, n1: nat, d: nat)
    requires d > 0 && n0 <= n1
    ensures n0 / d <= n1 / d
  {
    assert n0 / d * d <= n0;
    QuotientAtLeast(n1, d, n0 / d);
  }

  lemma {:induction false} FractionGrows(d: nat, e0: nat, e1: nat, total: nat)
    requires e0 <= e1 <= total && total > 0
    ensures d * e0 / total <= d * e1 / total
  {
    MulMono(e0, e1, d);
    assert e0 * d == d * e0 && e1 * d == d * e1;
    QuotientGrows(d * e0, d * e1, total);
  }

  /** The magnitude of the step away from `start`. */
  lemma {:induction false} RawIsAFraction(start: Byte, end: Byte, elapsed: nat, total: U16)
    requires elapsed <= total && total > 0
    ensures var d: nat := if end >= start then end - start else start - end;
            Raw(start, end, elapsed, total) ==
            if end >= start then start + d * elapsed / total else start - d * elapsed / total
  {
    var step: int := end - start;
    var d: nat := if step >= 0 then step else -step;
    MulMono(0, d, elapsed);
    assert 0 * elapsed == 0;
    if step < 0 {
      assert step * elapsed == -(d * elapsed);
      TruncDivOfNegative(d * elapsed, total);
    }
  }

  lemma {:induction false} TruncDivOfNegative(n: int, d: nat)
    requires n >= 0 && d > 0
    ensures TruncDiv(-n, d) == -(n / d)
  {
  }

  /** Interpolation stays between its ends, so the clamp changes nothing, and is at the far end only when over. */
  lemma {:induction false} InterpolateBetween(start: Byte, end: Byte, elapsed: nat, total: U16)
    requires elapsed <= total
    ensures Interpolate(start, end, elapsed, total) == Raw(start, end, elapsed, total)
    ensures Min(start, end) <= Interpolate(start, end, elapsed, total) <= Max(start, end)
    ensures total > 0 && elapsed == 0 ==> Interpolate(start, end, elapsed, total) == start
    ensures Interpolate(start, end, elapsed, total) == end <==> elapsed == total || start == end
  {
    if total > 0 {
      RawIsAFraction(start, end, elapsed, total);
      var d: nat := if end >= start then end - start else start - end;
      if elapsed == total { FractionOfAll(d, total); } else { FractionOfPart(d, elapsed, total); }
      hide Raw;
    }
  }

  /** The i32 product of the interpolation cannot overflow. */
  lemma {:induction false} ProductFitsI32(start: Byte, end: Byte, elapsed: U16)
    ensures -0x8000_0000 <= (end - start) * elapsed < 0x8000_0000
  {
    MulMono(end - start, 255, elapsed);
    MulMono(-255, end - start, elapsed);
  }

  function Distance(x: int, y: int): nat {
    if x >= y then x - y else y - x
  }

  lemma {:induction false} InterpolateApproaches(start: Byte, end: Byte, e0: nat, e1: nat, total: U16)
    requires e0 <= e1 <= total
    ensures Distance(end, Interpolate(start, end, e1, total)) <= Distance(end, Interpolate(start, end, e0, total))
  {
    InterpolateBetween(start, end, e0, total);
    InterpolateBetween(start, end, e1, total);
    if total > 0 {
      RawIsAFraction(start, end, e0, total);
      RawIsAFraction(start, end, e1, total);
      FractionGrows(if end >= start then end - start else start - end, e0, e1, total);
    }
    hide Raw, Interpolate;
  }

  // ---------------------------------------------------------------- any sequence of retargets and ticks

  datatype Op = Retarget(target: Rgba, transitionMs: U16) | Tick

  function Apply(o: LedOverride, op: Op): LedOverride {
    match op
    case Retarget(target, ms) => SetTarget(o, target, ms)
    case Tick => Advance(o)
  }

  function Run(ops: seq<Op>): LedOverride {
    if ops == [] then NONE else Apply(Run(ops[..|ops| - 1]), ops[|ops| - 1])
  }

  /** The highest level asked for so far; 0 is where every override begins. */
  function Highest(ops: seq<Op>, c: Channel): nat {
    if ops == [] then 0
    else
      var last := ops[|ops| - 1];
      var before := Highest(ops[..|ops| - 1], c);
      if last.Retarget? then Max(before, Level(c, last.target)) else before
  }

  predicate InHull(o: LedOverride, c: Channel, highest: nat) {
    o.remainingMs <= o.totalMs && Level(c, o.start) <= highest && Level(c, o.target) <= highest
  }

  lemma {:induction false} CurrentInHull(o: LedOverride, c: Channel, highest: nat)
    requires InHull(o, c, highest)
    ensures CurrentLevel(o, c) <= highest
    ensures CurrentLevel(o, c) == Raw(Level(c, o.start), Level(c, o.target), Elapsed(o), o.totalMs)
  {
    hide Raw, Interpolate, Level;
    InterpolateBetween(Level(c, o.start), Level(c, o.target), Elapsed(o), o.totalMs);
  }

  lemma {:induction false} RetargetLevels(o: LedOverride, target: Rgba, transitionMs: U16, c: Channel)
    ensures var o' := SetTarget(o, target, transitionMs);
            && o'.remainingMs == o'.totalMs
            && o'.target == target
            && Level(c, o'.start) == if transitionMs >= 10 then CurrentLevel(o, c) else Level(c, target)
  {
  }

  lemma {:induction false} OpKeepsHull(o: LedOverride, op: Op, c: Channel, highest: nat)
    requires InHull(o, c, highest)
    ensures InHull(Apply(o, op), c, if op.Retarget? then Max(highest, Level(c, op.target)) else highest)
  {
    if op.Retarget? {
      CurrentInHull(o, c, highest);
      RetargetLevels(o, op.target, op.transitionMs, c);
      hide SetTarget, CurrentLevel;
    }
  }

  /** The time left never exceeds the total; every level stays in the hull of 0 and all targets. */
  lemma {:induction false} TransitionStaysInHull(ops: seq<Op>, c: Channel)
    ensures var o := Run(ops);
            && InHull(o, c, Highest(ops, c))
            && CurrentLevel(o, c) <= Highest(ops, c)
            && CurrentLevel(o, c) == Raw(Level(c, o.start), Level(c, o.target), Elapsed(o), o.totalMs)
  {
    hide Apply, CurrentLevel, Raw;
    if ops != [] {
      var n := |ops| - 1;
      TransitionStaysInHull(ops[..n], c);
      OpKeepsHull(Run(ops[..n]), ops[n], c, Highest(ops[..n], c));
    }
    CurrentInHull(Run(ops), c, Highest(ops, c));
  }

  /** A retarget of at least 10 ms causes no jump; a shorter one takes effect at once. */
  lemma {:induction false} RetargetIsSmooth(o: LedOverride, target: Rgba, transitionMs: U16)
    ensures Current(SetTarget(o, target, transitionMs)) == if transitionMs >= 10 then Current(o) else target
  {
    var o' := SetTarget(o, target, transitionMs);
    forall c: Channel ensures CurrentLevel(o', c) == Level(c, o'.start) {
      InterpolateBetween(Level(c, o'.start), Level(c, o'.target), Elapsed(o'), o'.totalMs);
    }
    assert Current(o') == o'.start;
  }

  /** A tick never moves a level away from its target. */
  lemma {:induction false} TickApproachesTarget(o: LedOverride, c: Channel)
    requires o.remainingMs <= o.totalMs
    ensures Advance(o).target == o.target
    ensures Distance(Level(c, o.target), CurrentLevel(Advance(o), c)) <=
            Distance(Level(c, o.target), CurrentLevel(o, c))
  {
    InterpolateApproaches(Level(c, o.start), Level(c, o.target), Elapsed(o), Elapsed(Advance(o)), o.totalMs);
  }

  function Ticks(o: LedOverride, n: nat): LedOverride {
    if n == 0 then o else Advance(Ticks(o, n - 1))
  }

  lemma {:induction false} RemainingAfter(o: LedOverride, n: nat)
    ensures Ticks(o, n) == o.(remainingMs := Max(0, o.remainingMs - 10 * n))
  {
    if n > 0 {
      RemainingAfter(o, n - 1);
    }
  }

  /** The target is reached exactly with tick number ceil(T / 10), unless the level was there to begin with. */
  lemma {:induction false} TargetReachedOnTime(o: LedOverride, target: Rgba, transitionMs: U16, n: nat, c: Channel)
    requires transitionMs >= 10
    ensures CurrentLevel(Ticks(SetTarget(o, target, transitionMs), n), c) == Level(c, target) <==>
            (transitionMs + 9) / 10 <= n || CurrentLevel(o, c) == Level(c, target)
  {
    var o' := SetTarget(o, target, transitionMs);
    RemainingAfter(o', n);
    var r := Ticks(o', n);
    InterpolateBetween(Level(c, r.start), Level(c, r.target), Elapsed(r), r.totalMs);
    assert Level(c, o'.start) == CurrentLevel(o, c);
    hide CurrentLevel, Ticks, SetTarget;
  }

  // ---------------------------------------------------------------- blending

  /** u16 arithmetic in the source. */
  function Blend(base: Byte, over: Byte, alpha: Byte): (r: Byte)
    ensures base * (255 - alpha) + over * alpha < 0x1_0000
    ensures Min(base, over) <= r <= Max(base, over)
    ensures alpha == 0 ==> r == base
    ensures alpha == 255 ==> r == over
  {
    BlendIsBounded(base, over, alpha);
    (base * (255 - alpha) + over * alpha) / 255
  }

  /** `x` is the mix of base and override in the proportion of alpha, rounded down. */
  predicate RoundedMix(x: Byte, base: Byte, over: Byte, alpha: Byte) {
    255 * x <= base * (255 - alpha) + over * alpha < 255 * (x + 1)
  }

  lemma {:induction false} BlendIsRoundedMix(base: Byte, over: Byte, alpha: Byte)
    ensures RoundedMix(Blend(base, over, alpha), base, over, alpha)
  {
    BlendIsBounded(base, over, alpha);
    var sum: nat := base * (255 - alpha) + over * alpha;
    assert sum == sum / 255 * 255 + sum % 255;
  }

  lemma {:induction false} BlendIsBounded(base: Byte, over: Byte, alpha: Byte)
    ensures var sum := base * (255 - alpha) + over * alpha;
            Min(base, over) * 255 <= sum <= Max(base, over) * 255
  {
    var lo, hi := Min(base, over), Max(base, over);
    MulMono(lo, base, 255 - alpha);
    MulMono(lo, over, alpha);
    MulMono(base, hi, 255 - alpha);
    MulMono(over, hi, alpha);
    assert lo * (255 - alpha) + lo * alpha == lo * 255;
    assert hi * (255 - alpha) + hi * alpha == hi * 255;
  }
}
