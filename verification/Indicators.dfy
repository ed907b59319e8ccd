/** Moving indicators over price series, before rounding. Prices are reals; every raised
    error is `None`. */
module Indicators {
  import opened Text

  type Series = seq<real>

  function Sum(xs: Series): real {
    if xs == [] then 0.0 else Sum(xs[..|xs| - 1]) + xs[|xs| - 1]
  }

  method SumOf(xs: Series) returns (s: real)
    ensures s == Sum(xs)
  {
    s := 0.0;
    for i := 0 to |xs|
      invariant s == Sum(xs[..i])
    {
      assert xs[..i + 1][..i] == xs[..i];
      s := s + xs[i];
    }
    assert xs[..|xs|] == xs;
  }

  /** All values lie between two bounds. */
  predicate Between(xs: Series, lo: real, hi: real) {
    forall i | 0 <= i < |xs| :: lo <= xs[i] <= hi
  }

  lemma {:induction false} SumBetween(xs: Series, lo: real, hi: real)
    requires Between(xs, lo, hi)
    ensures |xs| as real * lo <= Sum(xs) <= |xs| as real * hi
  {
    if xs != [] {
      var n := |xs| - 1;
      SumBetween(xs[..n], lo, hi);
      OneMore(n, lo);
      OneMore(n, hi);
    }
  }

  lemma OneMore(n: nat, x: real)
    ensures (n + 1) as real * x == n as real * x + x
  {
  }

  lemma MeanBetween(sum: real, n: nat, lo: real, hi: real)
    requires n > 0 && n as real * lo <= sum <= n as real * hi
    ensures lo <= sum / n as real <= hi
  {
    var d := n as real;
    var mean := sum / d;
    assert mean * d == sum;
    if mean < lo {
      Scaled(d, mean, lo);
    }
    if mean > hi {
      Scaled(d, hi, mean);
    }
  }

  lemma Scaled(d: real, x: real, y: real)
    requires d > 0.0 && x < y
    ensures d * x < d * y
  {
  }

  // ----- exponential average -----

  function Multiplier(period: nat): (m: real)
    requires period > 0
    ensures 0.0 < m <= 1.0
  {
    2.0 / (period + 1) as real
  }

  /** The exponential average as a recurrence on the series. */
  function Ema(xs: Series, period: nat): real
    requires 0 < period <= |xs|
    decreases |xs|
  {
    if |xs| == period then Sum(xs) / period as real
    else
      var before := Ema(xs[..|xs| - 1], period);
      (xs[|xs| - 1] - before) * Multiplier(period) + before
  }

  /** The average as the program computes it. */
  method EmaOf(xs: Series, period: int) returns (r: Option<real>)
    ensures r == if 0 < period <= |xs| then Some(Ema(xs, period)) else None
  {
    if period <= 0 || |xs| < period {
      return None;
    }
    var multiplier := 2.0 / (period + 1) as real;
    var sum := SumOf(xs[..period]);
    var current := sum / period as real;
    for i := period to |xs|
      invariant current == Ema(xs[..i], period)
    {
      assert xs[..i + 1][..i] == xs[..i];
      current := (xs[i] - current) * multiplier + current;
    }
    assert xs[..|xs|] == xs;
    return Some(current);
  }

  lemma NonNegativeProduct(a: real, b: real)
    requires a >= 0.0 && b >= 0.0
    ensures a * b >= 0.0
  {
  }

  lemma PartOf(d: real, m: real)
    requires d >= 0.0 && 0.0 <= m <= 1.0
    ensures 0.0 <= d * m <= d
  {
    NonNegativeProduct(d, m);
    NonNegativeProduct(d, 1.0 - m);
    assert d * (1.0 - m) == d - d * m;
  }

  lemma Mix(x: real, y: real, m: real, lo: real, hi: real)
    requires lo <= x <= hi && lo <= y <= hi && 0.0 <= m <= 1.0
    ensures lo <= (x - y) * m + y <= hi
  {
    var up, down := x - y, y - x;
    if up >= 0.0 {
      PartOf(up, m);
      var part := up * m;
      assert (x - y) * m == part;
      assert y <= part + y <= x;
    } else {
      PartOf(down, m);
      var part := down * m;
      assert (x - y) * m == -part;
      assert x <= y - part <= y;
    }
  }

  lemma EmaUnfolds(xs: Series, period: nat)
    requires 0 < period <= |xs|
    ensures |xs| == period ==> Ema(xs, period) == Sum(xs) / period as real
    ensures |xs| > period ==> Ema(xs, period) == Step(Ema(xs[..|xs| - 1], period), xs[|xs| - 1], period)
  {
  }

  lemma StepBetween(current: real, value: real, period: nat, lo: real, hi: real)
    requires period > 0 && lo <= current <= hi && lo <= value <= hi
    ensures lo <= Step(current, value, period) <= hi
  {
    Mix(value, current, Multiplier(period), lo, hi);
    hide Multiplier;
  }

  /** The exponential average never leaves the range of its series. */
  lemma {:induction false} EmaStaysBetween(xs: Series, period: nat, lo: real, hi: real)
    requires 0 < period <= |xs| && Between(xs, lo, hi)
    ensures lo <= Ema(xs, period) <= hi
    decreases |xs|
  {
    hide Multiplier, Sum, Ema, Step;
    EmaUnfolds(xs, period);
    if |xs| == period {
      SumBetween(xs, lo, hi);
      MeanBetween(Sum(xs), period, lo, hi);
    } else {
      var n := |xs| - 1;
      EmaStaysBetween(xs[..n], period, lo, hi);
      StepBetween(Ema(xs[..n], period), xs[n], period, lo, hi);
    }
  }

  /** A series on a straight line. */
  predicate Ramp(xs: Series, a: real, b: real) {
    forall i | 0 <= i < |xs| :: xs[i] == a + b * i as real
  }

  lemma {:induction false} SumOfRamp(xs: Series, a: real, b: real)
    requires Ramp(xs, a, b)
    ensures 2.0 * Sum(xs) == |xs| as real * (2.0 * a + b * (|xs| as real - 1.0))
  {
    if xs != [] {
      var n := |xs| - 1;
      SumOfRamp(xs[..n], a, b);
      NextRampSum(n as real, a, b);
    }
  }

  lemma NextRampSum(n: real, a: real, b: real)
    ensures n * (2.0 * a + b * (n - 1.0)) + 2.0 * (a + b * n) == (n + 1.0) * (2.0 * a + b * n)
  {
  }

  lemma StartOnRamp(sum: real, p: real, a: real, b: real)
    requires p > 0.0 && 2.0 * sum == p * (2.0 * a + b * (p - 1.0))
    ensures sum / p == a + b * (p - 1.0) - b * (p - 1.0) / 2.0
  {
    var mean := a + b * (p - 1.0) / 2.0;
    assert sum == p * mean;
    assert sum / p == mean by { Cancel(sum / p, mean, p); }
  }

  lemma Cancel(x: real, y: real, d: real)
    requires d > 0.0 && x * d == y * d
    ensures x == y
  {
  }

  lemma StepOnRamp(before: real, value: real, b: real, period: nat)
    requires period > 0 && value - before == b * ((period + 1) as real / 2.0)
    ensures Step(before, value, period) == before + b
  {
    var q := (period + 1) as real;
    assert Multiplier(period) * q == 2.0;
    assert (value - before) * Multiplier(period) == b * (q / 2.0) * Multiplier(period);
    assert b * (q / 2.0) * Multiplier(period) == b * (Multiplier(period) * q) / 2.0;
  }

  /** On a straight line the exponential average lags behind by exactly half of `period - 1`
      steps, from its first value on: the plain mean and the multiplier fit together. */
  lemma {:induction false} EmaLagsOnRamp(xs: Series, period: nat, a: real, b: real)
    requires 0 < period <= |xs| && Ramp(xs, a, b)
    ensures Ema(xs, period) == a + b * (|xs| as real - 1.0) - b * (period as real - 1.0) / 2.0
    decreases |xs|
  {
    hide Multiplier, Sum, Ema, Step;
    EmaUnfolds(xs, period);
    if |xs| == period {
      SumOfRamp(xs, a, b);
      StartOnRamp(Sum(xs), period as real, a, b);
    } else {
      var n := |xs| - 1;
      EmaLagsOnRamp(xs[..n], period, a, b);
      var before := Ema(xs[..n], period);
      assert xs[n] - before == b + b * (period as real - 1.0) / 2.0;
      assert b + b * (period as real - 1.0) / 2.0 == b * ((period + 1) as real / 2.0);
      StepOnRamp(before, xs[n], b, period);
    }
  }

  // ----- moving average convergence/divergence -----

  /** The difference of the two averages over the prefix of length `n`. */
  function Line(xs: Series, fast: nat, slow: nat, n: nat): real
    requires 0 < fast <= slow <= n <= |xs|
  {
    Ema(xs[..n], fast) - Ema(xs[..n], slow)
  }

  function Lines(xs: Series, fast: nat, slow: nat, n: nat): (r: Series)
    requires 0 < fast <= slow && slow - 1 <= n <= |xs|
    ensures |r| == n - slow + 1
  {
    if n == slow - 1 then [] else Lines(xs, fast, slow, n - 1) + [Line(xs, fast, slow, n)]
  }

  datatype Macd = Macd(line: real, signal: real, histogram: real)

  predicate MacdDefined(xs: Series, fast: int, slow: int, signal: int) {
    0 < fast <= slow && 0 < signal && slow + signal <= |xs|
  }

  function MacdOf(xs: Series, fast: nat, slow: nat, signal: nat): Macd
    requires MacdDefined(xs, fast, slow, signal)
  {
    var line, average := Line(xs, fast, slow, |xs|), Ema(Lines(xs, fast, slow, |xs|), signal);
    Macd(line, average, line - average)
  }

  /** The program's form: both averages are recomputed over every prefix. */
  method MacdByPrefixes(xs: Series, fast: int, slow: int, signal: int) returns (r: Option<Macd>)
    ensures r == if MacdDefined(xs, fast, slow, signal) then Some(MacdOf(xs, fast, slow, signal)) else None
  {
    if |xs| < slow + signal || slow <= 0 {
      return None;
    }
    var values: Series := [];
    var index := slow;
    while index <= |xs|
      invariant slow <= index && (slow <= |xs| ==> index <= |xs| + 1)
      invariant index > slow ==> 0 < fast <= slow
      invariant 0 < fast <= slow <= |xs| ==> values == Lines(xs, fast, slow, index - 1)
      invariant slow > |xs| ==> values == []
      decreases |xs| - index
    {
      var window := xs[..index];
      var f := EmaOf(window, fast);
      if f.None? {
        return None;
      }
      var s := EmaOf(window, slow);
      if s.None? {
        return None;
      }
      values := values + [f.value - s.value];
      index := index + 1;
    }
    if values == [] {
      return None;
    }
    var average := EmaOf(values, signal);
    if average.None? {
      return None;
    }
    var line := values[|values| - 1];
    return Some(Macd(line, average.value, line - average.value));
  }

  /** One step of an exponential average. */
  function Step(current: real, value: real, period: nat): real
    requires period > 0
  {
    (value - current) * Multiplier(period) + current
  }

  lemma EmaStep(xs: Series, period: nat, i: nat)
    requires 0 < period <= i < |xs|
    ensures Ema(xs[..i + 1], period) == Step(Ema(xs[..i], period), xs[i], period)
  {
    assert xs[..i + 1][..i] == xs[..i];
  }

  lemma SumStep(xs: Series, i: nat)
    requires i < |xs|
    ensures Sum(xs[..i + 1]) == Sum(xs[..i]) + xs[i]
  {
    assert xs[..i + 1][..i] == xs[..i];
  }

  /** A running average that is fed one value at a time: a plain sum until the period is full,
      then the recurrence. */
  function Fed(xs: Series, period: nat): real
    requires period > 0
  {
    if |xs| < period then Sum(xs) else Ema(xs, period)
  }

  function Feed(state: real, count: nat, value: real, period: nat): real
    requires period > 0
  {
    if count < period - 1 then state + value
    else if count == period - 1 then (state + value) / period as real
    else Step(state, value, period)
  }

  lemma FedOneMore(xs: Series, period: nat, value: real)
    requires period > 0
    ensures Fed(xs + [value], period) == Feed(Fed(xs, period), |xs|, value, period)
  {
    var all := xs + [value];
    assert all[..|xs|] == xs;
    assert all[..|all|] == all;
    SumStep(all, |xs|);
    if |xs| >= period {
      EmaStep(all, period, |xs|);
    }
    hide Sum, Step;
  }

  /** The streaming form: three running averages, one pass, nothing recomputed. */
  method MacdStreaming(xs: Series, fast: nat, slow: nat, signal: nat) returns (r: Macd)
    requires MacdDefined(xs, fast, slow, signal)
    ensures r == MacdOf(xs, fast, slow, signal)
  {
    hide Sum, Ema, Step, Fed;
    var f, s, g, line := 0.0, 0.0, 0.0, 0.0;
    ghost var lines: Series := [];
    NothingFed(fast);
    NothingFed(slow);
    NothingFed(signal);
    assert xs[..0] == [];
    for i := 0 to |xs|
      invariant f == Fed(xs[..i], fast) && s == Fed(xs[..i], slow)
      invariant i < slow ==> lines == []
      invariant i >= slow - 1 ==> lines == Lines(xs, fast, slow, i)
      invariant g == Fed(lines, signal)
      invariant i >= slow ==> line == Line(xs, fast, slow, i)
    {
      assert xs[..i + 1] == xs[..i] + [xs[i]];
      FedOneMore(xs[..i], fast, xs[i]);
      FedOneMore(xs[..i], slow, xs[i]);
      f, s := Feed(f, i, xs[i], fast), Feed(s, i, xs[i], slow);
      if i + 1 >= slow {
        FullIsEma(xs[..i + 1], fast);
        FullIsEma(xs[..i + 1], slow);
        line := f - s;
        FedOneMore(lines, signal, line);
        g := Feed(g, i + 1 - slow, line, signal);
        lines := lines + [line];
      }
    }
    assert xs[..|xs|] == xs;
    FullIsEma(lines, signal);
    return Macd(line, g, line - g);
  }

  lemma NothingFed(period: nat)
    requires period > 0
    ensures Fed([], period) == 0.0
  {
  }

  lemma FullIsEma(xs: Series, period: nat)
    requires 0 < period <= |xs|
    ensures Fed(xs, period) == Ema(xs, period)
  {
  }

  // ----- Wilder's smoothing, relative strength, true range -----

  /** Wilder's average: a plain mean first, then each value weighs one part in `period`. */
  function Wilder(xs: Series, period: nat): real
    requires 0 < period <= |xs|
    decreases |xs|
  {
    if |xs| == period then Sum(xs) / period as real
    else Smooth(Wilder(xs[..|xs| - 1], period), xs[|xs| - 1], period)
  }

  function Smooth(average: real, value: real, period: int): real
    requires period != 0
  {
    (average * (period - 1) as real + value) / period as real
  }

  method WilderOf(xs: Series, period: nat) returns (average: real)
    requires 0 < period <= |xs|
    ensures average == Wilder(xs, period)
  {
    hide Smooth;
    var sum := SumOf(xs[..period]);
    average := sum / period as real;
    for i := period to |xs|
      invariant average == Wilder(xs[..i], period)
    {
      assert xs[..i + 1][..i] == xs[..i];
      average := Smooth(average, xs[i], period);
    }
    assert xs[..|xs|] == xs;
  }

  lemma WilderUnfolds(xs: Series, period: nat)
    requires 0 < period <= |xs|
    ensures |xs| == period ==> Wilder(xs, period) == Sum(xs) / period as real
    ensures |xs| > period ==> Wilder(xs, period) == Smooth(Wilder(xs[..|xs| - 1], period), xs[|xs| - 1], period)
  {
  }

  lemma SmoothBetween(average: real, value: real, period: nat, lo: real, hi: real)
    requires period > 0 && lo <= average <= hi && lo <= value <= hi
    ensures lo <= Smooth(average, value, period) <= hi
  {
    var weight := (period - 1) as real;
    WeightedBetween(weight, average, lo, hi);
    OneMore(period - 1, lo);
    OneMore(period - 1, hi);
    MeanBetween(average * weight + value, period, lo, hi);
  }

  lemma WeightedBetween(w: real, x: real, lo: real, hi: real)
    requires w >= 0.0 && lo <= x <= hi
    ensures w * lo <= x * w <= w * hi
  {
    NonNegativeProduct(w, x - lo);
    NonNegativeProduct(w, hi - x);
    assert w * (x - lo) == x * w - w * lo;
    assert w * (hi - x) == w * hi - x * w;
  }

  lemma {:induction false} WilderStaysBetween(xs: Series, period: nat, lo: real, hi: real)
    requires 0 < period <= |xs| && Between(xs, lo, hi)
    ensures lo <= Wilder(xs, period) <= hi
    decreases |xs|
  {
    hide Wilder, Smooth, Sum;
    WilderUnfolds(xs, period);
    if |xs| == period {
      SumBetween(xs, lo, hi);
      MeanBetween(Sum(xs), period, lo, hi);
    } else {
      var n := |xs| - 1;
      WilderStaysBetween(xs[..n], period, lo, hi);
      SmoothBetween(Wilder(xs[..n], period), xs[n], period, lo, hi);
    }
  }

  predicate NonNegative(xs: Series) {
    forall i | 0 <= i < |xs| :: xs[i] >= 0.0
  }

  predicate AllZero(xs: Series) {
    forall i | 0 <= i < |xs| :: xs[i] == 0.0
  }

  lemma {:induction false} SumIsZeroIff(xs: Series)
    requires NonNegative(xs)
    ensures Sum(xs) >= 0.0 && (Sum(xs) == 0.0 <==> AllZero(xs))
  {
    if xs != [] {
      var n := |xs| - 1;
      SumIsZeroIff(xs[..n]);
      assert xs == xs[..n] + [xs[n]];
    }
  }

  lemma QuotientIsZeroIff(a: real, n: nat)
    requires n > 0 && a >= 0.0
    ensures a / n as real >= 0.0 && (a / n as real == 0.0 <==> a == 0.0)
  {
    var q := a / n as real;
    assert q * n as real == a;
    if q < 0.0 {
      NonNegativeProduct(-q, n as real);
    }
  }

  /** A smoothed series of non-negative values vanishes exactly when all of it does, or, for
      period one, its last value. */
  lemma {:induction false} WilderIsZeroIff(xs: Series, period: nat)
    requires 0 < period <= |xs| && NonNegative(xs)
    ensures Wilder(xs, period) >= 0.0
    ensures Wilder(xs, period) == 0.0 <==> if period == 1 then xs[|xs| - 1] == 0.0 else AllZero(xs)
    decreases |xs|
  {
    hide Wilder, Smooth, Sum;
    WilderUnfolds(xs, period);
    var n := |xs| - 1;
    if |xs| == period {
      SumIsZeroIff(xs);
      QuotientIsZeroIff(Sum(xs), period);
    } else {
      WilderIsZeroIff(xs[..n], period);
      SmoothIsZeroIff(Wilder(xs[..n], period), xs[n], period);
      assert xs == xs[..n] + [xs[n]];
    }
  }

  lemma SmoothIsZeroIff(average: real, value: real, period: nat)
    requires period > 0 && average >= 0.0 && value >= 0.0
    ensures Smooth(average, value, period) >= 0.0
    ensures Smooth(average, value, period) == 0.0 <==> value == 0.0 && (period == 1 || average == 0.0)
  {
    var weight := (period - 1) as real;
    NonNegativeProduct(average, weight);
    QuotientIsZeroIff(average * weight + value, period);
    if period > 1 && average > 0.0 {
      assert average * weight >= average by {
        NonNegativeProduct(average, weight - 1.0);
        assert average * (weight - 1.0) == average * weight - average;
      }
    }
  }

  function Change(xs: Series, i: nat): real
    requires i + 1 < |xs|
  {
    xs[i + 1] - xs[i]
  }

  function Gains(xs: Series): (r: Series)
    ensures |r| == if xs == [] then 0 else |xs| - 1
    ensures forall i | 0 <= i < |r| :: r[i] == (if Change(xs, i) > 0.0 then Change(xs, i) else 0.0)
  {
    seq(if xs == [] then 0 else |xs| - 1,
        i requires 0 <= i < |xs| - 1 => if Change(xs, i) > 0.0 then Change(xs, i) else 0.0)
  }

  function Losses(xs: Series): (r: Series)
    ensures |r| == if xs == [] then 0 else |xs| - 1
    ensures forall i | 0 <= i < |r| :: r[i] == (if Change(xs, i) < 0.0 then -Change(xs, i) else 0.0)
  {
    seq(if xs == [] then 0 else |xs| - 1,
        i requires 0 <= i < |xs| - 1 => if Change(xs, i) < 0.0 then -Change(xs, i) else 0.0)
  }

  function Strength(gain: real, loss: real): real
    requires gain >= 0.0 && loss >= 0.0
  {
    if loss == 0.0 then 100.0 else 100.0 - 100.0 / (1.0 + gain / loss)
  }

  /** The relative strength index as the program computes it. */
  method RsiOf(xs: Series, period: int) returns (r: Option<real>)
    ensures r.Some? <==> 0 < period < |xs|
    ensures r.Some? ==>
      var gain, loss := Wilder(Gains(xs), period), Wilder(Losses(xs), period);
      && gain >= 0.0 && loss >= 0.0 && r.value == Strength(gain, loss)
  {
    hide Wilder, Strength, Gains, Losses;
    if period <= 0 || |xs| < period + 1 {
      return None;
    }
    var gains: Series, losses: Series := [], [];
    for i := 0 to |xs| - 1
      invariant gains == Gains(xs)[..i] && losses == Losses(xs)[..i]
    {
      var change := xs[i + 1] - xs[i];
      gains := gains + [if change > 0.0 then change else 0.0];
      losses := losses + [if -change > 0.0 then -change else 0.0];
    }
    assert gains == Gains(xs) && losses == Losses(xs);
    WilderIsZeroIff(Gains(xs), period);
    WilderIsZeroIff(Losses(xs), period);
    var gain := WilderOf(gains, period);
    var loss := WilderOf(losses, period);
    return Some(Strength(gain, loss));
  }

  lemma StrengthBetween(gain: real, loss: real)
    requires gain >= 0.0 && loss >= 0.0
    ensures 0.0 <= Strength(gain, loss) <= 100.0
    ensures Strength(gain, loss) == 100.0 <==> loss == 0.0
    ensures Strength(gain, loss) == 0.0 <==> loss > 0.0 && gain == 0.0
  {
    if loss > 0.0 {
      var q := gain / loss;
      assert q * loss == gain;
      if q < 0.0 {
        NonNegativeProduct(-q, loss);
      }
      var part := 100.0 / (1.0 + q);
      assert part * (1.0 + q) == 100.0;
      if part <= 0.0 {
        NonNegativeProduct(-part, 1.0 + q);
      } else {
        NonNegativeProduct(part, q);
      }
      assert part + part * q == 100.0;
      if q > 0.0 {
        assert part * q > 0.0;
      }
    }
  }

  /** The index is the gains' share of all movement, in percent, and 100 without movement. */
  lemma StrengthIsShareOfGains(gain: real, loss: real)
    requires gain >= 0.0 && loss >= 0.0
    ensures Strength(gain, loss) * (gain + loss) == 100.0 * gain
    ensures gain + loss == 0.0 ==> Strength(gain, loss) == 100.0
  {
    if loss > 0.0 {
      var q := gain / loss;
      assert q * loss == gain;
      if q < 0.0 {
        NonNegativeProduct(-q, loss);
      }
      var part := 100.0 / (1.0 + q);
      assert part * (1.0 + q) == 100.0;
      assert (1.0 + q) * loss == loss + gain;
      Regroup(part, 1.0 + q, loss);
      assert part * (loss + gain) == 100.0 * loss;
    }
  }

  lemma Regroup(a: real, b: real, c: real)
    ensures a * (b * c) == (a * b) * c
  {
  }

  /** The index stays between 0 and 100; it is 100 exactly when nothing fell (with period one,
      when the last step did not fall). */
  lemma RsiIsHundredIff(xs: Series, period: nat)
    requires 0 < period < |xs|
    ensures Wilder(Gains(xs), period) >= 0.0 && Wilder(Losses(xs), period) >= 0.0
    ensures var index := Strength(Wilder(Gains(xs), period), Wilder(Losses(xs), period));
      && 0.0 <= index <= 100.0
      && (index == 100.0 <==>
            if period == 1 then xs[|xs| - 1] >= xs[|xs| - 2] else forall i | 0 <= i < |xs| - 1 :: xs[i] <= xs[i + 1])
  {
    hide Wilder, Strength, Gains, Losses;
    WilderIsZeroIff(Gains(xs), period);
    WilderIsZeroIff(Losses(xs), period);
    StrengthBetween(Wilder(Gains(xs), period), Wilder(Losses(xs), period));
    var losses := Losses(xs);
    if period > 1 {
      if AllZero(losses) {
        forall i | 0 <= i < |xs| - 1 ensures xs[i] <= xs[i + 1] {
          assert losses[i] == 0.0;
        }
      } else {
        var i :| 0 <= i < |losses| && losses[i] != 0.0;
        assert xs[i] > xs[i + 1];
      }
    }
  }

  function Largest(a: real, b: real, c: real): real {
    var ab := if a > b then a else b;
    if ab > c then ab else c
  }

  function Abs(x: real): real {
    if x < 0.0 then -x else x
  }

  datatype Bars = Bars(highs: Series, lows: Series, closes: Series)

  predicate Aligned(b: Bars) {
    |b.highs| == |b.lows| == |b.closes|
  }

  function TrueRange(b: Bars, i: nat): real
    requires Aligned(b) && 0 < i < |b.closes|
  {
    Largest(b.highs[i] - b.lows[i], Abs(b.highs[i] - b.closes[i - 1]), Abs(b.lows[i] - b.closes[i - 1]))
  }

  function TrueRanges(b: Bars): (r: Series)
    requires Aligned(b)
    ensures |r| == if b.closes == [] then 0 else |b.closes| - 1
    ensures forall i | 0 <= i < |r| :: r[i] == TrueRange(b, i + 1)
  {
    seq(if b.closes == [] then 0 else |b.closes| - 1, i requires 0 <= i < |b.closes| - 1 => TrueRange(b, i + 1))
  }

  function Lower(a: real, b: real): real {
    if a < b then a else b
  }

  function Higher(a: real, b: real): real {
    if a > b then a else b
  }

  /** What the true range measures: from the lower of the bar's low and the previous close to the
      higher of its high and the previous close. */
  lemma RangeSpansPreviousClose(b: Bars, i: nat)
    requires Aligned(b) && 0 < i < |b.closes| && b.lows[i] <= b.highs[i]
    ensures TrueRanges(b)[i - 1] == Higher(b.highs[i], b.closes[i - 1]) - Lower(b.lows[i], b.closes[i - 1])
  {
  }

  /** Flat bars on a straight line. */
  predicate FlatRamp(b: Bars, a: real, slope: real) {
    Aligned(b) && Ramp(b.closes, a, slope) && b.highs == b.closes && b.lows == b.closes
  }

  lemma RangeOnRamp(b: Bars, a: real, slope: real, i: nat)
    requires FlatRamp(b, a, slope) && i + 1 < |b.closes|
    ensures TrueRanges(b)[i] == Abs(slope)
  {
    assert b.closes[i + 1] == a + slope * (i + 1) as real && b.closes[i] == a + slope * i as real;
    assert slope * (i + 1) as real == slope * i as real + slope;
    assert b.closes[i + 1] - b.closes[i] == slope;
    RangeSpansPreviousClose(b, i + 1);
  }

  /** On flat bars along a straight line the average true range is exactly the length of one step,
      for every period. */
  lemma AtrOnRampIsStep(b: Bars, period: nat, a: real, slope: real)
    requires 0 < period < |b.closes| && FlatRamp(b, a, slope)
    ensures Atr(b, period) == Abs(slope)
  {
    forall i | 0 <= i < |TrueRanges(b)| ensures TrueRanges(b)[i] == Abs(slope) {
      RangeOnRamp(b, a, slope, i);
    }
    hide TrueRange, Wilder, Abs;
    WilderStaysBetween(TrueRanges(b), period, Abs(slope), Abs(slope));
  }

  function Prefix(b: Bars, n: nat): (p: Bars)
    requires Aligned(b) && n <= |b.closes|
    ensures Aligned(p) && |p.closes| == n
  {
    Bars(b.highs[..n], b.lows[..n], b.closes[..n])
  }

  lemma PrefixRanges(b: Bars, n: nat)
    requires Aligned(b) && 0 < n <= |b.closes|
    ensures TrueRanges(Prefix(b, n)) == TrueRanges(b)[..n - 1]
  {
    var p := Prefix(b, n);
    assert forall i | 0 <= i < n - 1 :: TrueRanges(p)[i] == TrueRanges(b)[i];
  }

  function Atr(b: Bars, period: nat): real
    requires Aligned(b) && 0 < period < |b.closes|
  {
    Wilder(TrueRanges(b), period)
  }

  /** Where a slice up to `period` ends in `n` values; a negative period counts from the end. */
  function Cut(n: nat, period: int): (c: nat)
    ensures c <= n
  {
    if period >= 0 then (if period < n then period else n)
    else (if n + period > 0 then n + period else 0)
  }

  /** The smoothing for any period but zero: seeded with the values before the cut, and then
      one step for each value after it. */
  function Seeded(xs: Series, seed: nat, period: int): real
    requires seed <= |xs| && period != 0
    decreases |xs|
  {
    if |xs| == seed then Sum(xs) / period as real
    else Smooth(Seeded(xs[..|xs| - 1], seed, period), xs[|xs| - 1], period)
  }

  lemma {:induction false} SeededIsWilder(xs: Series, period: nat)
    requires 0 < period <= |xs|
    ensures Seeded(xs, period, period) == Wilder(xs, period)
    decreases |xs|
  {
    hide Smooth, Sum;
    if |xs| > period {
      SeededIsWilder(xs[..|xs| - 1], period);
    }
  }

  /** A negative period turns the sign of the whole average. */
  lemma {:induction false} SeededSign(xs: Series, seed: nat, period: int)
    requires seed <= |xs| && period != 0 && NonNegative(xs)
    ensures period > 0 ==> Seeded(xs, seed, period) >= 0.0
    ensures period < 0 ==> Seeded(xs, seed, period) <= 0.0
    decreases |xs|
  {
    if |xs| == seed {
      SumNotNegative(xs);
      QuotientSign(Sum(xs), period);
    } else {
      var average := Seeded(xs[..|xs| - 1], seed, period);
      SeededSign(xs[..|xs| - 1], seed, period);
      StepSign(average, xs[|xs| - 1], period);
    }
  }

  lemma {:induction false} SumNotNegative(xs: Series)
    requires NonNegative(xs)
    ensures Sum(xs) >= 0.0
  {
    if xs != [] {
      SumNotNegative(xs[..|xs| - 1]);
    }
  }

  lemma QuotientSign(x: real, period: int)
    requires period != 0 && x >= 0.0
    ensures period > 0 ==> x / period as real >= 0.0
    ensures period < 0 ==> x / period as real <= 0.0
  {
    var d := period as real;
    var q := x / d;
    assert q * d == x;
    SignOfFactor(q, d);
  }

  lemma SignOfFactor(a: real, b: real)
    requires b != 0.0 && a * b >= 0.0
    ensures b > 0.0 ==> a >= 0.0
    ensures b < 0.0 ==> a <= 0.0
  {
  }

  lemma StepSign(average: real, value: real, period: int)
    requires period != 0 && value >= 0.0
    requires (period > 0 ==> average >= 0.0) && (period < 0 ==> average <= 0.0)
    ensures period > 0 ==> Smooth(average, value, period) >= 0.0
    ensures period < 0 ==> Smooth(average, value, period) <= 0.0
  {
    var weight := (period - 1) as real;
    if period > 0 {
      NonNegativeProduct(average, weight);
    } else {
      NonNegativeProduct(-average, -weight);
    }
    assert average * weight >= 0.0;
    QuotientSign(average * weight + value, period);
  }

  lemma RangesNotNegative(b: Bars)
    requires Aligned(b)
    ensures NonNegative(TrueRanges(b))
  {
  }

  method SeededOf(xs: Series, seed: nat, period: int) returns (average: real)
    requires seed <= |xs| && period != 0
    ensures average == Seeded(xs, seed, period)
  {
    hide Smooth;
    var sum := SumOf(xs[..seed]);
    average := sum / period as real;
    for i := seed to |xs|
      invariant average == Seeded(xs[..i], seed, period)
    {
      assert xs[..i + 1][..i] == xs[..i];
      average := Smooth(average, xs[i], period);
    }
    assert xs[..|xs|] == xs;
  }

  /** The average true range as the program computes it. A positive period gives Wilder's
      average; a negative one passes the length check, slices from the end and gives a range
      that is never positive. */
  method AtrOf(b: Bars, period: int) returns (r: Option<real>)
    ensures r.Some? <==> Aligned(b) && period != 0 && period < |b.closes|
    ensures r.Some? ==> r.value == Seeded(TrueRanges(b), Cut(|TrueRanges(b)|, period), period)
    ensures r.Some? && period > 0 ==> r.value == Atr(b, period) && r.value >= 0.0
    ensures r.Some? && period < 0 ==> r.value <= 0.0
  {
    hide TrueRange, Wilder, Seeded;
    if !(|b.highs| == |b.lows| && |b.lows| == |b.closes|) || |b.closes| < period + 1 || period == 0 {
      return None;
    }
    var ranges: Series := [];
    var i := 1;
    while i < |b.closes|
      invariant 1 <= i && (i == 1 || i <= |b.closes|)
      invariant ranges == TrueRanges(b)[..i - 1]
    {
      ranges := ranges + [TrueRange(b, i)];
      i := i + 1;
    }
    assert ranges == TrueRanges(b);
    RangesNotNegative(b);
    SeededSign(ranges, Cut(|ranges|, period), period);
    if period > 0 {
      SeededIsWilder(ranges, period);
    }
    var average := SeededOf(ranges, Cut(|ranges|, period), period);
    return Some(average);
  }

  /** The range as a percentage of the last close; zero where the close is not positive. */
  function Percent(range: real, close: real): (p: real)
    ensures close > 0.0 ==> p * close == range * 100.0
    ensures close <= 0.0 ==> p == 0.0
  {
    if close > 0.0 then range / close * 100.0 else 0.0
  }

  /** Subscripting as the program does it: a negative index counts from the end. */
  function At(xs: Series, i: int): real
    requires -|xs| <= i < |xs|
  {
    if i < 0 then xs[|xs| + i] else xs[i]
  }

  /** The values an index running from `period` to the end of `xs` meets: a negative one meets the
      last values first, and then all of them. */
  function Met(xs: Series, period: int): Series {
    if period < 0 then xs + xs else xs
  }

  /** Where the index `i` stands among them. */
  function Place(xs: Series, period: int, i: int): int {
    if period < 0 then |xs| + i else i
  }

  /** The smoothed range before the value at index `i` is met. */
  function RangeAt(b: Bars, period: int, i: int): real
    requires Aligned(b) && period != 0 && -|b.closes| < period <= i <= |TrueRanges(b)|
    requires period < |b.closes|
  {
    var ranges := TrueRanges(b);
    Seeded(Met(ranges, period)[..Place(ranges, period, i)], Place(ranges, period, period), period)
  }

  lemma RangeOneMore(b: Bars, period: int, i: int)
    requires Aligned(b) && period != 0 && -|b.closes| < period <= i < |TrueRanges(b)|
    requires period < |b.closes|
    ensures RangeAt(b, period, i + 1) == Smooth(RangeAt(b, period, i), At(TrueRanges(b), i), period)
  {
    hide Smooth, TrueRanges, Sum;
    var met, p := Met(TrueRanges(b), period), Place(TrueRanges(b), period, i);
    assert met[..p + 1][..p] == met[..p];
    assert met[p] == At(TrueRanges(b), i);
  }

  lemma RangeStarts(b: Bars, period: int)
    requires Aligned(b) && period != 0 && -|b.closes| < period < |b.closes|
    ensures RangeAt(b, period, period)
         == Sum(TrueRanges(b)[..Cut(|TrueRanges(b)|, period)]) / period as real
  {
    hide Smooth, TrueRanges, Sum;
    var ranges := TrueRanges(b);
    assert Met(ranges, period)[..Place(ranges, period, period)] == ranges[..Cut(|ranges|, period)];
  }

  /** With a positive period this is Wilder's average of the prefix. */
  lemma RangeOfPrefix(b: Bars, period: nat, i: nat)
    requires Aligned(b) && 0 < period <= i < |b.closes|
    ensures RangeAt(b, period, i) == Atr(Prefix(b, i + 1), period)
  {
    hide Smooth, Sum, TrueRange;
    PrefixRanges(b, i + 1);
    SeededIsWilder(TrueRanges(b)[..i], period);
  }

  /** With a negative one it is never positive. At index 0, where only the last values were met, it
      is the range of the whole series; from there on every value is met, the last ones again. */
  lemma RangeOfNegativePeriod(b: Bars, period: int, i: int)
    requires Aligned(b) && -|b.closes| < period < 0 && period <= i <= |TrueRanges(b)|
    ensures RangeAt(b, period, i) <= 0.0
    ensures RangeAt(b, period, 0) == Seeded(TrueRanges(b), Cut(|TrueRanges(b)|, period), period)
  {
    hide Smooth, Sum, TrueRange;
    var ranges := TrueRanges(b);
    RangesNotNegative(b);
    var met, p := Met(ranges, period), Place(ranges, period, i);
    assert forall k | 0 <= k < |met| :: met[k] >= 0.0;
    SeededSign(met[..p], Place(ranges, period, period), period);
    assert met[..|ranges|] == ranges;
  }

  lemma PercentSign(range: real, close: real)
    ensures range <= 0.0 ==> Percent(range, close) <= 0.0
  {
    if close > 0.0 && range <= 0.0 {
      QuotientNotPositive(range, close);
    }
  }

  lemma QuotientNotPositive(range: real, close: real)
    requires range <= 0.0 && close > 0.0
    ensures range / close <= 0.0
  {
    var q := range / close;
    assert -q * close >= 0.0;
    SignOfFactor(-q, close);
  }

  /** One pass over all windows. With a positive period entry `j` is the average true range of the
      prefix of length `period + 1 + j`, as a percentage of that prefix's last close. A negative
      period that is shorter than the series passes the length check too: the index wraps, so the
      pass meets the last ranges twice, each entry is set against the close its wrapped index meets
      (the range of the whole series against the first close), and none is positive. */
  method AtrPercentages(b: Bars, period: int) returns (r: Option<Series>)
    ensures r.Some? <==> Aligned(b) && period != 0 && -|b.closes| < period < |b.closes|
    ensures r.Some? ==> |r.value| == |b.closes| - period
    ensures r.Some? && period > 0 ==> forall j | 0 <= j < |r.value| ::
      r.value[j] == Percent(Atr(Prefix(b, period + 1 + j), period), b.closes[period + j])
    ensures r.Some? && period < 0 ==> forall j | 0 <= j < |r.value| ::
      r.value[j] == Percent(RangeAt(b, period, period + j), At(b.closes, period + j)) && r.value[j] <= 0.0
    ensures r.Some? && period < 0 ==>
      r.value[-period] == Percent(Seeded(TrueRanges(b), Cut(|TrueRanges(b)|, period), period), b.closes[0])
  {
    hide TrueRange, Wilder, Smooth, Percent, TrueRanges, Sum, Seeded, Atr, RangeAt, At;
    if !(|b.highs| == |b.lows| && |b.lows| == |b.closes|) || |b.closes| < period + 1 || period == 0 {
      return None;
    }
    if period <= -|b.closes| {   // the first close or the first range is out of reach
      return None;
    }
    var values := Percentages(b, period);
    forall j | 0 <= j < |values|
      ensures period > 0 ==> values[j] == Percent(Atr(Prefix(b, period + 1 + j), period), b.closes[period + j])
      ensures period < 0 ==> values[j] <= 0.0
    {
      if period > 0 {
        RangeOfPrefix(b, period, period + j);
        AtForward(b.closes, period + j);
      } else {
        RangeOfNegativePeriod(b, period, period + j);
        PercentSign(RangeAt(b, period, period + j), At(b.closes, period + j));
      }
    }
    if period < 0 {
      RangeOfNegativePeriod(b, period, 0);
      AtForward(b.closes, 0);
    }
    return Some(values);
  }

  lemma AtForward(xs: Series, i: nat)
    requires i < |xs|
    ensures At(xs, i) == xs[i]
  {
  }

  method Percentages(b: Bars, period: int) returns (values: Series)
    requires Aligned(b) && period != 0 && -|b.closes| < period < |b.closes|
    ensures |values| == |b.closes| - period
    ensures forall j | 0 <= j < |values| ::
      values[j] == Percent(RangeAt(b, period, period + j), At(b.closes, period + j))
  {
    hide TrueRange, Smooth, Percent, TrueRanges, Sum, Seeded, RangeAt, At;
    var ranges := TrueRanges(b);
    var sum := SumOf(ranges[..Cut(|ranges|, period)]);
    var current := sum / period as real;
    RangeStarts(b, period);
    values := [Percent(current, At(b.closes, period))];
    for i := period to |ranges|
      invariant current == RangeAt(b, period, i) && |values| == i - period + 1
      invariant forall j | 0 <= j < |values| ::
        values[j] == Percent(RangeAt(b, period, period + j), At(b.closes, period + j))
    {
      RangeOneMore(b, period, i);
      current := Smooth(current, At(ranges, i), period);
      values := values + [Percent(current, At(b.closes, i + 1))];
    }
  }
}
