/** The sliding average of an analog input (`AveragedInput` in firmware/src/tasks/gpio_input.rs), over the reals. */
module AveragedInputs {
  import opened Common

  const AVERAGE_SAMPLES: nat := 10

  function Sum(s: seq<real>): real {
    if s == [] then 0.0 else Sum(s[..|s| - 1]) + s[|s| - 1]
  }

  /** The last ten samples, or all of them while there are fewer. */
  function Window(history: seq<real>): seq<real> {
    if |history| <= AVERAGE_SAMPLES then history else history[|history| - AVERAGE_SAMPLES..]
  }

  lemma {:induction false} SumWithoutFirst(s: seq<real>)
    requires s != []
    ensures Sum(s[1..]) == Sum(s) - s[0]
  {
    var n := |s| - 1;
    if n > 0 {
      SumWithoutFirst(s[..n]);
      assert s[..n][1..] == s[1..][..n - 1];
    } else {
      assert s[..0] == [] && s[1..] == [];
    }
  }

  lemma {:induction false} SumWithLast(s: seq<real>, value: real)
    ensures Sum(s + [value]) == Sum(s) + value
  {
    assert (s + [value])[..|s|] == s;
  }

  /** Dropping the oldest sample and adding the new one slides the window. */
  lemma {:induction false} WindowSlides(history: seq<real>, value: real)
    ensures Sum(Window(history + [value])) ==
            Sum(Window(history)) + value
            - (if |history| < AVERAGE_SAMPLES then 0.0 else history[|history| - AVERAGE_SAMPLES])
  {
    var w, w' := Window(history), Window(history + [value]);
    if |history| < AVERAGE_SAMPLES {
      assert w' == w + [value];
      SumWithLast(w, value);
    } else {
      assert w' == w[1..] + [value] && w[0] == history[|history| - AVERAGE_SAMPLES];
      SumWithLast(w[1..], value);
      SumWithoutFirst(w);
    }
    hide Sum, Window;
  }

  /** The sum of a window lies between its length times any bounds of its samples. */
  lemma {:induction false} SumBetween(s: seq<real>, lo: real, hi: real)
    requires forall i :: 0 <= i < |s| ==> lo <= s[i] <= hi
    ensures lo * |s| as real <= Sum(s) <= hi * |s| as real
  {
    if s != [] {
      var n := |s| - 1;
      SumBetween(s[..n], lo, hi);
      assert |s| as real == n as real + 1.0;
    }
  }

  lemma {:induction false} QuotientBetween(sum: real, n: real, lo: real, hi: real)
    requires n > 0.0 && lo * n <= sum <= hi * n
    ensures lo <= sum / n <= hi
  {
  }

  /** The average of a window lies between any bounds of its samples. */
  lemma {:induction false} AverageBetween(window: seq<real>, lo: real, hi: real)
    requires window != []
    requires forall i :: 0 <= i < |window| ==> lo <= window[i] <= hi
    ensures lo <= Sum(window) / |window| as real <= hi
  {
    SumBetween(window, lo, hi);
    QuotientBetween(Sum(window), |window| as real, lo, hi);
  }

  lemma {:induction false} SlotsDiffer(k: nat, n: nat)
    requires k < n < k + AVERAGE_SAMPLES
    ensures k % AVERAGE_SAMPLES != n % AVERAGE_SAMPLES
  {
  }

  class AveragedInput {
    const samples: array<real>
    var index: nat
    var sum: real
    var count: nat
    ghost var history: seq<real>

    ghost predicate Valid()
      reads this, samples
    {
      && samples.Length == AVERAGE_SAMPLES
      && count == Min(|history|, AVERAGE_SAMPLES)
      && index == |history| % AVERAGE_SAMPLES
      && sum == Sum(Window(history))
      && forall k :: |history| - count <= k < |history| ==> samples[k % AVERAGE_SAMPLES] == history[k]
    }

    constructor ()
      ensures Valid() && history == [] && fresh(samples)
    {
      samples := new real[AVERAGE_SAMPLES](_ => 0.0);
      index, sum, count, history := 0, 0.0, 0, [];
    }

    method AddSample(value: real)
      requires Valid()
      modifies this, samples
      ensures Valid() && history == old(history) + [value]
    {
      hide Sum, Window;
      WindowSlides(history, value);
      ghost var n := |history|;
      assert n >= AVERAGE_SAMPLES ==> (n - AVERAGE_SAMPLES) % AVERAGE_SAMPLES == index;
      if count < AVERAGE_SAMPLES {
        samples[index] := value;
        sum := sum + value;
        count := count + 1;
      } else {
        sum := sum - samples[index];
        samples[index] := value;
        sum := sum + value;
      }
      history := history + [value];
      forall k | n + 1 - count <= k < n ensures samples[k % AVERAGE_SAMPLES] == history[k] {
        SlotsDiffer(k, n);
      }
      index := (index + 1) % AVERAGE_SAMPLES;
    }

    method Average() returns (average: real)
      requires Valid()
      ensures average == if history == [] then 0.0 else Sum(Window(history)) / |Window(history)| as real
    {
      if count == 0 {
        return 0.0;
      }
      return sum / count as real;
    }
  }
}
