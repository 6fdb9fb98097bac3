/**
 Time-driven LED patterns (`LEDPattern` in firmware/src/tasks/led_blinker.rs): a list of fragments, each
 with a duration, and a cursor that an update moves forward to the fragment covering the current time.

 What a fragment paints is a parameter, so the results hold for every kind of fragment.
 */
module LedPatterns {
  import opened Common

  const NUM_LEDS: nat := 5

  datatype Rgb = Rgb(r: Byte, g: Byte, b: Byte)

  const BLACK := Rgb(0, 0, 0)

  type Frame = s: seq<Rgb> | |s| == NUM_LEDS witness [BLACK, BLACK, BLACK, BLACK, BLACK]

  /** `paint` gets the time within the fragment, the supercap voltage and the frame so far. */
  datatype Fragment = Fragment(durationMs: U32, paint: (U32, real, Frame) -> Frame)

  datatype LedPattern = LedPattern(fragments: seq<Fragment>, idx: nat, startMs: nat)

  function Durations(fragments: seq<Fragment>): (durations: seq<nat>)
    ensures |durations| == |fragments|
  {
    seq(|fragments|, i requires 0 <= i < |fragments| => fragments[i].durationMs)
  }

  /** Without a positive duration the walk of a repeating pattern would not come to an end. */
  predicate HasPositive(durations: seq<nat>) {
    exists i :: 0 <= i < |durations| && durations[i] > 0
  }

  predicate Repeatable(p: LedPattern) {
    p.fragments == [] || (p.idx < |p.fragments| && HasPositive(Durations(p.fragments)))
  }

  predicate OneShotReady(p: LedPattern) {
    p.fragments == [] || p.idx < |p.fragments|
  }

  function PositiveIndex(durations: seq<nat>): (i: nat)
    requires HasPositive(durations)
    ensures i < |durations| && durations[i] > 0
  {
    FirstPositive(durations, 0)
  }

  function FirstPositive(durations: seq<nat>, from: nat): (i: nat)
    requires exists k :: from <= k < |durations| && durations[k] > 0
    ensures i < |durations| && durations[i] > 0
    decreases |durations| - from
  {
    if durations[from] > 0 then from else FirstPositive(durations, from + 1)
  }

  /** Steps from `idx` to a fragment of positive duration. */
  function StepsToPositive(durations: seq<nat>, idx: nat): nat
    requires HasPositive(durations) && idx < |durations|
  {
    var p := PositiveIndex(durations);
    if idx <= p then p - idx else p + |durations| - idx
  }

  lemma {:induction false} StepCloser(durations: seq<nat>, idx: nat)
    requires HasPositive(durations) && idx < |durations|
    ensures durations[idx] == 0 ==>
              StepsToPositive(durations, NextIndex(durations, idx)) < StepsToPositive(durations, idx)
  {
  }

  function NextIndex(durations: seq<nat>, idx: nat): nat {
    if idx + 1 >= |durations| then 0 else idx + 1
  }

  /** The cursor of a repeating pattern at time `now`. */
  function Walk(durations: seq<nat>, idx: nat, start: nat, now: nat): (cursor: (nat, nat))
    requires HasPositive(durations) && idx < |durations|
    ensures cursor.0 < |durations|
    ensures start <= cursor.1 && now - cursor.1 <= durations[cursor.0]
    ensures start <= now ==> cursor.1 <= now
    decreases Max(0, now - start), StepsToPositive(durations, idx)
  {
    if now - start <= durations[idx] then (idx, start)
    else Walk(durations, NextIndex(durations, idx), start + durations[idx], now)
  }

  /** The cursor of a one-shot pattern, and whether it is still running. */
  function WalkOnce(durations: seq<nat>, idx: nat, start: nat, now: nat): (cursor: (nat, nat, bool))
    requires idx < |durations|
    ensures cursor.2 ==> cursor.0 < |durations| && now - cursor.1 <= durations[cursor.0]
    ensures !cursor.2 ==> cursor.0 == |durations|
    decreases |durations| - idx
  {
    if now - start <= durations[idx] then (idx, start, true)
    else if idx + 1 >= |durations| then (idx + 1, start, false)
    else WalkOnce(durations, idx + 1, start + durations[idx], now)
  }

  /** Start time 0 means that the pattern has not been shown yet. */
  function Stamp(p: LedPattern, now: nat): LedPattern {
    if p.startMs == 0 then p.(startMs := now) else p
  }

  function Paint(p: LedPattern, data: Frame, now: nat, vscap: real): Frame
    requires p.idx < |p.fragments|
  {
    p.fragments[p.idx].paint((now - p.startMs) % 0x1_0000_0000, vscap, data)
  }

  function Update(p: LedPattern, data: Frame, now: nat, vscap: real): (LedPattern, Frame)
    requires Repeatable(p)
  {
    var stamped := Stamp(p, now);
    if p.fragments == [] then (stamped, data)
    else
      var (idx, start) := Walk(Durations(p.fragments), p.idx, stamped.startMs, now);
      var moved := stamped.(idx := idx, startMs := start);
      (moved, Paint(moved, data, now, vscap))
  }

  /** A pattern that has run out is not painted. */
  function UpdateOnce(p: LedPattern, data: Frame, now: nat, vscap: real): (LedPattern, Frame, bool)
    requires OneShotReady(p)
  {
    var stamped := Stamp(p, now);
    if p.fragments == [] then (stamped, data, false)
    else
      var (idx, start, alive) := WalkOnce(Durations(p.fragments), p.idx, stamped.startMs, now);
      var moved := stamped.(idx := idx, startMs := start);
      (moved, if alive then Paint(moved, data, now, vscap) else data, alive)
  }

  /** The update loop of the source, for both kinds of pattern. */
  method UpdatePattern(p: LedPattern, data: Frame, oneshot: bool, now: nat, vscap: real)
    returns (p': LedPattern, data': Frame, alive: bool)
    requires if oneshot then OneShotReady(p) else Repeatable(p)
    ensures oneshot ==> (p', data', alive) == UpdateOnce(p, data, now, vscap)
    ensures !oneshot ==> (p', data') == Update(p, data, now, vscap) && alive
    ensures p.startMs <= now ==> p'.startMs <= now
  {
    hide StepsToPositive;
    p', data' := p, data;
    if p'.startMs == 0 {
      p' := p'.(startMs := now);
    }
    if p'.fragments == [] {
      return p', data', !oneshot;
    }
    ghost var durations := Durations(p.fragments);
    ghost var start := p'.startMs;
    while now - p'.startMs > p'.fragments[p'.idx].durationMs
      invariant p'.fragments == p.fragments && p'.idx < |p.fragments|
      invariant p.startMs <= now ==> p'.startMs <= now
      invariant oneshot ==> WalkOnce(durations, p.idx, start, now) == WalkOnce(durations, p'.idx, p'.startMs, now)
      invariant !oneshot ==> HasPositive(durations)
      invariant !oneshot ==> Walk(durations, p.idx, start, now) == Walk(durations, p'.idx, p'.startMs, now)
      decreases if oneshot then 0 else Max(0, now - p'.startMs),
                if oneshot then |p.fragments| - p'.idx else StepsToPositive(durations, p'.idx)
    {
      if !oneshot {
        StepCloser(durations, p'.idx);
      }
      var duration := p'.fragments[p'.idx].durationMs;
      p' := p'.(idx := p'.idx + 1);
      if p'.idx >= |p'.fragments| {
        if oneshot {
          return p', data', false;
        }
        p' := p'.(idx := 0);
      }
      p' := p'.(startMs := p'.startMs + duration);
    }
    data' := p'.fragments[p'.idx].paint((now - p'.startMs) % 0x1_0000_0000, vscap, data');
    return p', data', true;
  }

  // ---------------------------------------------------------------- repeating patterns

  /** The duration of the first `i` fragments. */
  function Prefix(durations: seq<nat>, i: nat): nat
    requires i <= |durations|
  {
    if i == 0 then 0 else Prefix(durations, i - 1) + durations[i - 1]
  }

  function Total(durations: seq<nat>): nat {
    Prefix(durations, |durations|)
  }

  lemma {:induction false} PrefixGrows(durations: seq<nat>, i: nat, j: nat)
    requires i <= j <= |durations|
    ensures Prefix(durations, i) <= Prefix(durations, j)
    decreases j
  {
    if i < j {
      PrefixGrows(durations, i, j - 1);
    }
  }

  lemma {:induction false} TotalIsPositive(durations: seq<nat>)
    requires HasPositive(durations)
    ensures Total(durations) > 0
  {
    var p := PositiveIndex(durations);
    PrefixGrows(durations, p + 1, |durations|);
  }

  /** The fragment that covers offset `q` of the cycle. */
  function FragmentAt(durations: seq<nat>, q: nat, from: nat): (i: nat)
    requires from < |durations| && Prefix(durations, from) <= q < Total(durations)
    ensures from <= i < |durations|
    ensures Prefix(durations, i) <= q < Prefix(durations, i + 1)
    decreases |durations| - from
  {
    if q < Prefix(durations, from + 1) then from else FragmentAt(durations, q, from + 1)
  }

  lemma {:induction false} RemainderAtMost(x: nat, d: nat)
    requires d > 0
    ensures x % d <= x
  {
    assert x == x / d * d + x % d;
  }

  /**
   The specification by arithmetic: a pattern that began at `s0` is, at a later time `now`, (now - s0 - 1) mod Total
   past the beginning of its current cycle.
   */
  function CursorAt(durations: seq<nat>, s0: nat, now: nat): (cursor: (nat, nat))
    requires HasPositive(durations)
    requires s0 <= now
  {
    TotalIsPositive(durations);
    if now == s0 then (0, s0)
    else
      var q := (now - s0 - 1) % Total(durations);
      assert q <= now - s0 - 1 by { RemainderAtMost(now - s0 - 1, Total(durations)); }
      var idx := FragmentAt(durations, q, 0);
      (idx, now - 1 - q + Prefix(durations, idx))
  }

  /** The cursor is where `laps` full cycles after `s0` and the fragments before `idx` end. */
  predicate OnLap(durations: seq<nat>, s0: nat, idx: nat, start: nat, laps: nat) {
    idx < |durations| && start == s0 + laps * Total(durations) + Prefix(durations, idx)
  }

  lemma {:induction false} WalkStaysOnLap(durations: seq<nat>, s0: nat, idx: nat, start: nat, now: nat, laps: nat)
    returns (laps': nat)
    requires HasPositive(durations) && OnLap(durations, s0, idx, start, laps)
    requires start < now
    ensures var (i, s) := Walk(durations, idx, start, now);
            OnLap(durations, s0, i, s, laps') && s < now
    decreases Max(0, now - start), StepsToPositive(durations, idx)
  {
    if now - start <= durations[idx] {
      laps' := laps;
    } else {
      var next := NextIndex(durations, idx);
      var lap := if next == 0 then laps + 1 else laps;
      assert (laps + 1) * Total(durations) == laps * Total(durations) + Total(durations);
      laps' := WalkStaysOnLap(durations, s0, next, start + durations[idx], now, lap);
    }
  }

  lemma {:induction false} RemainderOfLaps(laps: nat, total: nat, r: nat)
    requires r < total
    ensures (laps * total + r) % total == r
  {
    var x := laps * total + r;
    var q := x / total;
    assert x == q * total + x % total;
    assert (q + 1) * total == q * total + total;
    assert (laps + 1) * total == laps * total + total;
    if q < laps {
      MulMono(q + 1, laps, total);
    } else if q > laps {
      MulMono(laps + 1, q, total);
    }
  }

  /** A cursor on a lap, within its fragment, is the one the arithmetic gives. */
  lemma {:induction false} OnLapIsCursorAt(durations: seq<nat>, s0: nat, idx: nat, start: nat, now: nat, laps: nat)
    requires HasPositive(durations) && OnLap(durations, s0, idx, start, laps)
    requires start < now <= start + durations[idx]
    ensures s0 < now
    ensures (idx, start) == CursorAt(durations, s0, now)
  {
    var total := Total(durations);
    TotalIsPositive(durations);
    assert laps * total >= 0;
    var r := Prefix(durations, idx) + (now - 1 - start);
    PrefixGrows(durations, idx + 1, |durations|);
    RemainderOfLaps(laps, total, r);
    assert now - s0 - 1 == laps * total + r;
    var i := FragmentAt(durations, r, 0);
    if i < idx {
      PrefixGrows(durations, i + 1, idx);
    } else if i > idx {
      PrefixGrows(durations, idx + 1, i);
    }
  }

  lemma {:induction false} WalkIsCursorAt(durations: seq<nat>, s0: nat, now: nat)
    requires HasPositive(durations) && s0 <= now
    ensures Walk(durations, 0, s0, now) == CursorAt(durations, s0, now)
  {
    if s0 < now {
      assert OnLap(durations, s0, 0, s0, 0);
      var laps := WalkStaysOnLap(durations, s0, 0, s0, now, 0);
      var (i, s) := Walk(durations, 0, s0, now);
      OnLapIsCursorAt(durations, s0, i, s, now, laps);
    }
  }

  /** Two updates are as good as the last one. */
  lemma {:induction false} WalkComposes(durations: seq<nat>, idx: nat, start: nat, t1: nat, t2: nat)
    requires HasPositive(durations) && idx < |durations|
    requires t1 <= t2
    ensures var (i, s) := Walk(durations, idx, start, t1);
            Walk(durations, i, s, t2) == Walk(durations, idx, start, t2)
    decreases Max(0, t1 - start), StepsToPositive(durations, idx)
  {
    if t1 - start > durations[idx] {
      WalkComposes(durations, NextIndex(durations, idx), start + durations[idx], t1, t2);
    }
  }

  predicate Ordered(times: seq<nat>) {
    forall i, j :: 0 <= i < j < |times| ==> times[i] <= times[j]
  }

  /** The cursor after updates at the given times; painting does not affect it. */
  function Cursor(p: LedPattern, times: seq<nat>): LedPattern
    requires Repeatable(p)
    ensures Repeatable(Cursor(p, times)) && Cursor(p, times).fragments == p.fragments
  {
    if times == [] then p
    else
      var n := |times| - 1;
      Update(Cursor(p, times[..n]), [BLACK, BLACK, BLACK, BLACK, BLACK], times[n], 0.0).0
  }

  /** The first update time that is not 0: an update at time 0 leaves the pattern unstamped. */
  function FirstStamp(times: seq<nat>): nat {
    if times == [] then 0 else if times[0] != 0 then times[0] else FirstStamp(times[1..])
  }

  lemma {:induction false} FirstStampExtends(times: seq<nat>, t: nat)
    ensures FirstStamp(times + [t]) == if FirstStamp(times) != 0 then FirstStamp(times) else t
    ensures FirstStamp(times) != 0 ==> FirstStamp(times) in times
    ensures FirstStamp(times) == 0 ==> forall i :: 0 <= i < |times| ==> times[i] == 0
  {
    if times != [] {
      FirstStampExtends(times[1..], t);
      assert (times + [t])[1..] == times[1..] + [t];
    }
  }

  /**
   Schedule independence: whatever update times came in between, the cursor of a fresh repeating pattern is the
   one the arithmetic gives for the time it was first stamped and the time of the last update.
   */
  lemma {:induction false} ScheduleIndependence(fragments: seq<Fragment>, times: seq<nat>)
    requires HasPositive(Durations(fragments))
    requires times != [] && Ordered(times)
    ensures FirstStamp(times) <= times[|times| - 1]
    ensures var p := Cursor(LedPattern(fragments, 0, 0), times);
            (p.idx, p.startMs) == CursorAt(Durations(fragments), FirstStamp(times), times[|times| - 1])
  {
    var n := |times| - 1;
    var pre, t := times[..n], times[n];
    var unseen := LedPattern(fragments, 0, 0);
    var durations := Durations(fragments);
    assert times == pre + [t];
    FirstStampExtends(pre, t);
    if n > 0 {
      ScheduleIndependence(fragments, pre);
      assert pre[n - 1] <= t;
    }
    var before := Cursor(unseen, pre);
    var s0 := FirstStamp(times);
    if FirstStamp(pre) == 0 {
      assert before.idx == 0 && before.startMs == 0;
      WalkIsCursorAt(durations, s0, t);
    } else {
      WalkIsCursorAt(durations, s0, pre[n - 1]);
      WalkComposes(durations, 0, s0, pre[n - 1], t);
      WalkIsCursorAt(durations, s0, t);
    }
  }

  /**
   What a repeating pattern shows: an update at `t`, after any others, paints exactly the fragment the arithmetic gives,
   with the time passed since that fragment began, which is within its duration.
   */
  lemma {:induction false} ShowsFragmentAt(fragments: seq<Fragment>, times: seq<nat>, t: nat, data: Frame, vscap: real)
    requires HasPositive(Durations(fragments))
    requires Ordered(times + [t])
    ensures var all := times + [t];
            && FirstStamp(all) <= t
            && var (i, s) := CursorAt(Durations(fragments), FirstStamp(all), t);
               && i < |fragments| && 0 <= t - s <= fragments[i].durationMs
               && Update(Cursor(LedPattern(fragments, 0, 0), times), data, t, vscap).1 ==
                  fragments[i].paint(t - s, vscap, data)
  {
    var all := times + [t];
    assert all[..|times|] == times;
    ScheduleIndependence(fragments, all);
    var p := Cursor(LedPattern(fragments, 0, 0), times);
    PaintsItsCursor(p, data, t, vscap);
    WalkIsCursorAt(Durations(fragments), FirstStamp(all), t);
    CursorLooksAtNoPaint(p, data, t, vscap);
    hide Walk, CursorAt, FirstStamp;
  }

  lemma {:induction false} CursorLooksAtNoPaint(p: LedPattern, data: Frame, now: nat, vscap: real)
    requires Repeatable(p)
    ensures Update(p, data, now, vscap).0 == Update(p, [BLACK, BLACK, BLACK, BLACK, BLACK], now, 0.0).0
  {
  }

  lemma {:induction false} PaintsItsCursor(p: LedPattern, data: Frame, now: nat, vscap: real)
    requires Repeatable(p) && p.fragments != []
    ensures var (p', painted) := Update(p, data, now, vscap);
            && p'.fragments == p.fragments && p'.idx < |p.fragments|
            && now - p'.startMs <= p.fragments[p'.idx].durationMs
            && (p'.startMs <= now ==> painted == p.fragments[p'.idx].paint(now - p'.startMs, vscap, data))
  {
  }

  // ---------------------------------------------------------------- one-shot patterns

  /** When a stamped one-shot pattern ends: its start plus everything it still has to show. */
  function EndTime(durations: seq<nat>, idx: nat, start: nat): nat
    requires idx <= |durations|
  {
    PrefixGrows(durations, idx, |durations|);
    start + (Total(durations) - Prefix(durations, idx))
  }

  /** A one-shot pattern is alive exactly up to its end time, which no update changes. */
  lemma {:induction false} AliveUntilEndTime(durations: seq<nat>, idx: nat, start: nat, now: nat)
    requires idx < |durations|
    ensures var (i, s, alive) := WalkOnce(durations, idx, start, now);
            && (alive <==> now <= EndTime(durations, idx, start))
            && (alive ==> EndTime(durations, i, s) == EndTime(durations, idx, start))
            && (alive && start <= now ==> s <= now)
    decreases |durations| - idx
  {
    PrefixGrows(durations, idx + 1, |durations|);
    if now - start > durations[idx] && idx + 1 < |durations| {
      AliveUntilEndTime(durations, idx + 1, start + durations[idx], now);
    }
  }

  /** A one-shot pattern that is alive paints its current fragment, within its duration; otherwise it paints nothing. */
  lemma {:induction false} OneShotShowsFragment(p: LedPattern, data: Frame, now: nat, vscap: real)
    requires OneShotReady(p) && p.startMs <= now
    ensures var (p', painted, alive) := UpdateOnce(p, data, now, vscap);
            && (alive ==>
                  && p'.fragments == p.fragments && p'.idx < |p.fragments|
                  && 0 <= now - p'.startMs <= p.fragments[p'.idx].durationMs
                  && painted == p.fragments[p'.idx].paint(now - p'.startMs, vscap, data))
            && (!alive ==> painted == data)
  {
    if p.fragments != [] {
      AliveUntilEndTime(Durations(p.fragments), p.idx, Stamp(p, now).startMs, now);
    }
  }

  lemma {:induction false} WalkOnceComposes(durations: seq<nat>, idx: nat, start: nat, t1: nat, t2: nat)
    requires idx < |durations| && t1 <= t2
    requires WalkOnce(durations, idx, start, t1).2
    ensures var (i, s, alive) := WalkOnce(durations, idx, start, t1);
            WalkOnce(durations, i, s, t2) == WalkOnce(durations, idx, start, t2)
    decreases |durations| - idx
  {
    if t1 - start > durations[idx] {
      WalkOnceComposes(durations, idx + 1, start + durations[idx], t1, t2);
    }
  }
}
