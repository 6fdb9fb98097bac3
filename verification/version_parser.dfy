/**
 The firmware version parser (`parse_version!` in firmware/src/config.rs). It runs at compile time, where an
 overflow of u8 arithmetic is an error: None.
 */
module VersionParser {
  import opened Common

  const ZERO: Byte := 48  // '0'
  const DOT: Byte := 46
  const DASH: Byte := 45
  const LOWER_A: Byte := 97

  datatype Version = Version(major: Byte, minor: Byte, patch: Byte, alpha: Byte)

  /** acc * 10 + (b - b'0') in u8 arithmetic. */
  function AddDigit(acc: Byte, b: Byte): Option<Byte> {
    if b < ZERO || acc * 10 + (b - ZERO) > 255 then None else Some(acc * 10 + (b - ZERO))
  }

  /** Digits from `i` up to `stop` or the end: the number, and where it ends. */
  function Number(s: seq<Byte>, i: nat, stop: Option<Byte>, acc: Byte): (r: Option<(Byte, nat)>)
    ensures r.Some? ==> i <= r.value.1
    decreases |s| - i
  {
    if i >= |s| || Some(s[i]) == stop then Some((acc, i))
    else
      var acc' := AddDigit(acc, s[i]);
      if acc'.None? then None else Number(s, i + 1, stop, acc'.value)
  }

  function Alpha(s: seq<Byte>, i: nat): Option<Byte> {
    if i < |s| && s[i] == DASH && i + 2 < |s| && s[i + 1] == LOWER_A then
      var a := Number(s, i + 2, None, 0);
      if a.None? then None else Some(a.value.0)
    else Some(0xff)
  }

  function Parse(s: seq<Byte>): Option<Version> {
    var major := Number(s, 0, Some(DOT), 0);
    if major.None? then None else
    var minor := Number(s, major.value.1 + 1, Some(DOT), 0);
    if minor.None? then None else
    var patch := Number(s, minor.value.1 + 1, Some(DASH), 0);
    if patch.None? then None else
    var alpha := Alpha(s, patch.value.1);
    if alpha.None? then None else
    Some(Version(major.value.0, minor.value.0, patch.value.0, alpha.value))
  }

  method ParseNumber(s: seq<Byte>, from: nat, stop: Option<Byte>) returns (r: Option<(Byte, nat)>)
    ensures r == Number(s, from, stop, 0)
  {
    var acc: Byte, i := 0, from;
    while i < |s| && Some(s[i]) != stop
      invariant Number(s, from, stop, 0) == Number(s, i, stop, acc)
      decreases |s| - i
    {
      var acc' := AddDigit(acc, s[i]);
      if acc'.None? {
        return None;
      }
      acc := acc'.value;
      i := i + 1;
    }
    return Some((acc, i));
  }

  method ParseVersion(s: seq<Byte>) returns (r: Option<Version>)
    ensures r == Parse(s)
  {
    var major := ParseNumber(s, 0, Some(DOT));
    if major.None? { return None; }
    var i := major.value.1 + 1;
    var minor := ParseNumber(s, i, Some(DOT));
    if minor.None? { return None; }
    i := minor.value.1 + 1;
    var patch := ParseNumber(s, i, Some(DASH));
    if patch.None? { return None; }
    i := patch.value.1;
    var alpha: Byte := 0xff;
    if i < |s| && s[i] == DASH {
      i := i + 1;
      if i + 1 < |s| && s[i] == LOWER_A {
        i := i + 1;
        var a := ParseNumber(s, i, None);
        if a.None? { return None; }
        alpha := a.value.0;
      }
    }
    return Some(Version(major.value.0, minor.value.0, patch.value.0, alpha));
  }

  // ---------------------------------------------------------------- which numbers are accepted

  /** The value of digits in unbounded arithmetic; a byte above '9' counts as a digit of ten or more. */
  function Numeral(s: seq<Byte>): int {
    if s == [] then 0 else Numeral(s[..|s| - 1]) * 10 + (s[|s| - 1] - ZERO)
  }

  predicate AllFrom0(s: seq<Byte>) {
    forall i :: 0 <= i < |s| ==> s[i] >= ZERO
  }

  lemma {:induction false} NumeralGrows(s: seq<Byte>, k: nat)
    requires k <= |s| && AllFrom0(s)
    ensures 0 <= Numeral(s[..k]) <= Numeral(s)
    decreases |s|
  {
    if s != [] {
      var n := |s| - 1;
      if k <= n {
        assert s[..n][..k] == s[..k];
        NumeralGrows(s[..n], k);
      } else {
        assert s[..k] == s;
        NumeralGrows(s[..n], n);
        assert s[..n][..n] == s[..n];
      }
    }
  }

  lemma {:induction false} NumeralOfOneMore(s: seq<Byte>, from: nat, i: nat)
    requires from <= i < |s|
    ensures Numeral(s[from..i + 1]) == Numeral(s[from..i]) * 10 + (s[i] - ZERO)
    ensures AllFrom0(s[from..i + 1]) <==> AllFrom0(s[from..i]) && s[i] >= ZERO
  {
    hide Numeral;
    assert s[from..i + 1] == s[from..i] + [s[i]];
    NumeralSnoc(s[from..i], s[i]);
  }

  lemma {:induction false} NumeralSnoc(s: seq<Byte>, b: Byte)
    ensures Numeral(s + [b]) == Numeral(s) * 10 + (b - ZERO)
    ensures AllFrom0(s + [b]) <==> AllFrom0(s) && b >= ZERO
  {
    var more := s + [b];
    assert more[..|more| - 1] == s && more[|s|] == b;
    assert forall k :: 0 <= k < |s| ==> more[k] == s[k];
  }

  lemma {:induction false} NumeralOfPrefix(s: seq<Byte>, from: nat, i: nat, end: nat)
    requires from <= i <= end <= |s|
    requires AllFrom0(s[from..end])
    ensures AllFrom0(s[from..i])
    ensures 0 <= Numeral(s[from..i]) <= Numeral(s[from..end])
  {
    var whole := s[from..end];
    assert whole[..i - from] == s[from..i];
    NumeralGrows(whole, i - from);
    hide Numeral;
  }

  /** Having read from `from` to `i` without an overflow, what happens to the rest up to `end`. */
  lemma {:induction false} NumberFrom(s: seq<Byte>, from: nat, i: nat, end: nat, stop: Option<Byte>)
    requires from <= i <= end <= |s|
    requires end == |s| || Some(s[end]) == stop
    requires forall k :: i <= k < end ==> Some(s[k]) != stop
    requires AllFrom0(s[from..i]) && 0 <= Numeral(s[from..i]) <= 255
    ensures Number(s, i, stop, Numeral(s[from..i])) ==
            if AllFrom0(s[from..end]) && Numeral(s[from..end]) <= 255 then Some((Numeral(s[from..end]), end)) else None
    decreases end - i
  {
    hide Numeral, AllFrom0;
    if i < end {
      NumeralOfOneMore(s, from, i);
      if AllFrom0(s[from..end]) {
        NumeralOfPrefix(s, from, i + 1, end);
      }
      if s[i] >= ZERO && Numeral(s[from..i + 1]) <= 255 {
        NumberFrom(s, from, i + 1, end, stop);
      }
    }
  }

  /**
   A number is accepted exactly if no byte before its stop lies below '0' and its value, in unbounded arithmetic, fits a
   byte; otherwise the u8 arithmetic overflows, at whatever digit that is.
   */
  lemma {:induction false} NumberAcceptedIff(s: seq<Byte>, from: nat, end: nat, stop: Option<Byte>)
    requires from <= end <= |s|
    requires end == |s| || Some(s[end]) == stop
    requires forall k :: from <= k < end ==> Some(s[k]) != stop
    ensures Number(s, from, stop, 0) ==
            if AllFrom0(s[from..end]) && Numeral(s[from..end]) <= 255 then Some((Numeral(s[from..end]), end)) else None
  {
    assert s[from..from] == [];
    NumberFrom(s, from, from, end, stop);
  }

  // ---------------------------------------------------------------- round trip

  function Decimal(n: Byte): (s: seq<Byte>)
    ensures s != []
  {
    if n < 10 then [ZERO + n] else Decimal(n / 10) + [ZERO + n % 10]
  }

  predicate Digit(b: Byte) {
    ZERO <= b <= ZERO + 9
  }

  /** Reading the decimal form of `n` accumulates `n`. */
  lemma {:induction false} DecimalIsRead(pre: seq<Byte>, n: Byte, post: seq<Byte>, stop: Option<Byte>)
    requires stop.Some? ==> !Digit(stop.value)
    ensures var s := pre + Decimal(n) + post;
            Number(s, |pre|, stop, 0) == Number(s, |pre| + |Decimal(n)|, stop, n)
    decreases n
  {
    var s := pre + Decimal(n) + post;
    var i := |pre| + |Decimal(n)| - 1;
    assert s[i] == ZERO + n % 10;
    if n >= 10 {
      DecimalIsRead(pre, n / 10, [ZERO + n % 10] + post, stop);
      assert s == pre + Decimal(n / 10) + ([ZERO + n % 10] + post);
    }
    hide Decimal;
    assert AddDigit(n / 10, s[i]) == Some(n);
  }

  lemma {:induction false} NumberIsRead(pre: seq<Byte>, n: Byte, post: seq<Byte>, stop: Byte)
    requires post == [] || post[0] == stop
    requires !Digit(stop)
    ensures Number(pre + Decimal(n) + post, |pre|, Some(stop), 0) == Some((n, |pre| + |Decimal(n)|))
  {
    DecimalIsRead(pre, n, post, Some(stop));
    hide Decimal;
  }

  function Stable(x: Byte, y: Byte, z: Byte): seq<Byte> {
    Decimal(x) + [DOT] + Decimal(y) + [DOT] + Decimal(z)
  }

  /** The three numbers, whatever follows, as long as it begins with a dash. */
  lemma {:induction false} StablePartIsRead(x: Byte, y: Byte, z: Byte, rest: seq<Byte>)
    requires rest == [] || rest[0] == DASH
    ensures var s := Stable(x, y, z) + rest;
            && Number(s, 0, Some(DOT), 0) == Some((x, |Decimal(x)|))
            && Number(s, |Decimal(x)| + 1, Some(DOT), 0) == Some((y, |Decimal(x)| + 1 + |Decimal(y)|))
            && Number(s, |Decimal(x)| + 1 + |Decimal(y)| + 1, Some(DASH), 0) == Some((z, |Stable(x, y, z)|))
  {
    var s := Stable(x, y, z) + rest;
    var a, b, c := Decimal(x), Decimal(y), Decimal(z);
    hide Decimal, Number;
    assert s == [] + a + ([DOT] + b + [DOT] + c + rest);
    NumberIsRead([], x, [DOT] + b + [DOT] + c + rest, DOT);
    assert s == (a + [DOT]) + b + ([DOT] + c + rest);
    NumberIsRead(a + [DOT], y, [DOT] + c + rest, DOT);
    assert s == (a + [DOT] + b + [DOT]) + c + rest;
    NumberIsRead(a + [DOT] + b + [DOT], z, rest, DASH);
  }

  /** "x.y.z" parses to [x, y, z, 255], for all bytes. */
  lemma {:induction false} StableRoundTrip(x: Byte, y: Byte, z: Byte)
    ensures Parse(Stable(x, y, z)) == Some(Version(x, y, z, 0xff))
  {
    assert Stable(x, y, z) + [] == Stable(x, y, z);
    StablePartIsRead(x, y, z, []);
    hide Number, Decimal, Stable;
  }

  /** "x.y.z-aN" parses to [x, y, z, N], for all bytes. */
  lemma {:induction false} AlphaRoundTrip(x: Byte, y: Byte, z: Byte, a: Byte)
    ensures Parse(Stable(x, y, z) + [DASH, LOWER_A] + Decimal(a)) == Some(Version(x, y, z, a))
  {
    var stable, rest := Stable(x, y, z), [DASH, LOWER_A] + Decimal(a);
    StablePartIsRead(x, y, z, rest);
    AlphaIsRead(stable, a);
    hide Number, Alpha, Decimal, Stable;
    assert stable + [DASH, LOWER_A] + Decimal(a) == stable + rest;
  }

  lemma {:induction false} AlphaIsRead(stable: seq<Byte>, a: Byte)
    ensures Alpha(stable + ([DASH, LOWER_A] + Decimal(a)), |stable|) == Some(a)
  {
    var d := Decimal(a);
    var pre := stable + [DASH, LOWER_A];
    DecimalIsRead(pre, a, [], None);
    hide Decimal;
    assert stable + ([DASH, LOWER_A] + d) == pre + d + [];
  }

  /** What a suffix says about the alpha number: only "-a" with at least one more byte is read. */
  function AlphaOf(rest: seq<Byte>): Option<Byte> {
    if |rest| <= 2 || rest[1] != LOWER_A then Some(0xff)
    else if AllFrom0(rest[2..]) && 0 <= Numeral(rest[2..]) <= 255 then Some(Numeral(rest[2..]))
    else None
  }

  lemma {:induction false} SuffixIsRead(pre: seq<Byte>, rest: seq<Byte>)
    requires rest == [] || rest[0] == DASH
    ensures Alpha(pre + rest, |pre|) == AlphaOf(rest)
  {
    var s, k := pre + rest, |pre|;
    assert forall i :: 0 <= i < |rest| ==> s[k + i] == rest[i];
    hide Number, Numeral, AllFrom0;
    if |rest| > 2 {
      assert s[k + 1] == rest[1];
      NumberAcceptedIff(s, k + 2, |s|, None);
      assert s[k + 2..|s|] == rest[2..];
      if AllFrom0(rest[2..]) {
        ValueIsNatural(rest[2..]);
      }
    }
  }

  lemma {:induction false} ValueIsNatural(s: seq<Byte>)
    requires AllFrom0(s)
    ensures Numeral(s) >= 0
  {
    NumeralGrows(s, 0);
  }

  /** Whatever follows three numbers: the alpha number is that of the suffix, and an error in it is an error. */
  lemma {:induction false} AnySuffix(x: Byte, y: Byte, z: Byte, rest: seq<Byte>)
    requires rest == [] || rest[0] == DASH
    ensures Parse(Stable(x, y, z) + rest) ==
            if AlphaOf(rest).Some? then Some(Version(x, y, z, AlphaOf(rest).value)) else None
  {
    StablePartIsRead(x, y, z, rest);
    SuffixIsRead(Stable(x, y, z), rest);
    hide Number, Alpha, AlphaOf, Decimal, Stable;
  }

  /** An alpha number of 255 cannot be told from a stable release. */
  lemma {:induction false} OnlyAlpha255LooksStable(x: Byte, y: Byte, z: Byte, a: Byte)
    ensures Parse(Stable(x, y, z) + [DASH, LOWER_A] + Decimal(a)) == Parse(Stable(x, y, z)) <==> a == 255
  {
    StableRoundTrip(x, y, z);
    AlphaRoundTrip(x, y, z, a);
    hide Parse;
  }
}
