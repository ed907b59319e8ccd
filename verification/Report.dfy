/** The report over a list of replayed trades, before rounding. */
module Report {
  import opened Text

  /** Net results of the trades, in the order they are counted. */
  type Results = seq<real>

  function Total(nets: Results): real {
    if nets == [] then 0.0 else Total(nets[..|nets| - 1]) + nets[|nets| - 1]
  }

  /** Equity after the first `k` trades. */
  function Equity(initial: real, nets: Results, k: nat): real
    requires k <= |nets|
  {
    initial + Total(nets[..k])
  }

  /** The fall from one equity to a later one, in percent of the first. */
  function Fall(from: real, to: real): real
    requires from > 0.0
  {
    (from - to) / from * 100.0
  }

  datatype Figures = Figures(
    finalEquity: real, netProfit: real, wins: nat, losses: nat, breakeven: nat,
    grossProfit: real, grossLoss: real, drawdown: real,
    profitFactor: Option<real>, expectancy: Option<real>, winRate: Option<real>)

  /** The sum of the results on one side of zero, and their number. */
  function Positive(nets: Results): (real, nat) {
    if nets == [] then (0.0, 0)
    else
      var (sum, count) := Positive(nets[..|nets| - 1]);
      var x := nets[|nets| - 1];
      if x > 0.0 then (sum + x, count + 1) else (sum, count)
  }

  function Negated(nets: Results): (r: Results)
    ensures |r| == |nets| && forall i | 0 <= i < |nets| :: r[i] == -nets[i]
  {
    seq(|nets|, i requires 0 <= i < |nets| => -nets[i])
  }

  lemma NegatedPrefix(nets: Results)
    requires nets != []
    ensures Negated(nets)[..|nets| - 1] == Negated(nets[..|nets| - 1])
  {
  }

  /** Gains less losses are the total, and no trade is counted twice or left out. */
  lemma {:induction false} SidesBalance(nets: Results)
    ensures Positive(nets).0 - Positive(Negated(nets)).0 == Total(nets)
    ensures Positive(nets).1 + Positive(Negated(nets)).1 <= |nets|
    ensures Positive(nets).0 >= 0.0
  {
    if nets != [] {
      NegatedPrefix(nets);
      SidesBalance(nets[..|nets| - 1]);
    }
  }

  /** The highest equity up to and including trade `k`. */
  function Peak(initial: real, nets: Results, k: nat): real
    requires k <= |nets|
  {
    if k == 0 then initial
    else
      var before, now := Peak(initial, nets, k - 1), Equity(initial, nets, k);
      if now > before then now else before
  }

  lemma {:induction false} PeakIsHighest(initial: real, nets: Results, k: nat)
    requires k <= |nets|
    ensures forall i | 0 <= i <= k :: Equity(initial, nets, i) <= Peak(initial, nets, k)
    ensures exists i :: 0 <= i <= k && Equity(initial, nets, i) == Peak(initial, nets, k)
    ensures Peak(initial, nets, k) >= initial
  {
    if k > 0 {
      PeakIsHighest(initial, nets, k - 1);
      assert Equity(initial, nets, k) == Equity(initial, nets, k);
    } else {
      assert Equity(initial, nets, 0) == initial;
    }
  }

  /** The one-pass drawdown after `k` trades. */
  function OnePass(initial: real, nets: Results, k: nat): real
    requires k <= |nets|
  {
    if k == 0 then 0.0
    else
      var before, peak := OnePass(initial, nets, k - 1), Peak(initial, nets, k);
      if peak > 0.0 && Fall(peak, Equity(initial, nets, k)) > before then Fall(peak, Equity(initial, nets, k))
      else before
  }

  lemma PositiveGrows(nets: Results, i: nat)
    requires i < |nets|
    ensures var (sum, count) := Positive(nets[..i]);
      Positive(nets[..i + 1]) == if nets[i] > 0.0 then (sum + nets[i], count + 1) else (sum, count)
    ensures var (sum, count) := Positive(Negated(nets[..i]));
      Positive(Negated(nets[..i + 1])) == if nets[i] < 0.0 then (sum - nets[i], count + 1) else (sum, count)
    ensures Total(nets[..i + 1]) == Total(nets[..i]) + nets[i]
  {
    var next := nets[..i + 1];
    assert next[..i] == nets[..i];
    NegatedPrefix(next);
  }

  /** The loop over the trades. */
  method Scan(initial: real, nets: Results)
    returns (equity: real, drawdown: real, gains: (real, nat), losses: (real, nat), breakeven: nat)
    ensures equity == initial + Total(nets) && drawdown == OnePass(initial, nets, |nets|)
    ensures gains == Positive(nets) && losses == Positive(Negated(nets))
    ensures gains.1 + losses.1 + breakeven == |nets|
  {
    hide Fall, Positive, Total, Negated;
    var peak := initial;
    equity, drawdown, breakeven := initial, 0.0, 0;
    gains, losses := (0.0, 0), (0.0, 0);
    NothingCounted();
    assert nets[..0] == [];
    for i := 0 to |nets|
      invariant equity == Equity(initial, nets, i) && peak == Peak(initial, nets, i)
      invariant drawdown == OnePass(initial, nets, i)
      invariant gains == Positive(nets[..i]) && losses == Positive(Negated(nets[..i]))
      invariant gains.1 + losses.1 + breakeven == i
    {
      PositiveGrows(nets, i);
      var net := nets[i];
      equity := equity + net;
      peak := if equity > peak then equity else peak;
      if peak > 0.0 {
        var fall := Fall(peak, equity);
        drawdown := if fall > drawdown then fall else drawdown;
      }
      if net > 0.0 {
        gains := (gains.0 + net, gains.1 + 1);
      } else if net < 0.0 {
        losses := (losses.0 - net, losses.1 + 1);
      } else {
        breakeven := breakeven + 1;
      }
    }
    assert nets[..|nets|] == nets;
  }

  lemma NothingCounted()
    ensures Positive([]) == (0.0, 0) && Negated([]) == [] && Total([]) == 0.0
  {
  }

  /** `a / n`, when there is anything to divide by. */
  function Ratio(a: real, n: nat): (r: Option<real>)
    ensures r.Some? <==> n > 0
    ensures n > 0 ==> r.value * n as real == a
  {
    if n > 0 then Some(a / n as real) else None
  }

  /** The report as the program computes it. */
  method BuildReport(initial: real, nets: Results) returns (f: Figures)
    ensures f.finalEquity == initial + Total(nets) && f.netProfit == Total(nets)
    ensures f.netProfit == f.grossProfit - f.grossLoss
    ensures (f.grossProfit, f.wins) == Positive(nets) && (f.grossLoss, f.losses) == Positive(Negated(nets))
    ensures f.wins + f.losses + f.breakeven == |nets|
    ensures f.drawdown == OnePass(initial, nets, |nets|)
    ensures f.profitFactor == if f.grossLoss > 0.0 then Some(f.grossProfit / f.grossLoss) else None
    ensures f.expectancy == Ratio(f.netProfit, |nets|)
    ensures f.winRate == Ratio(f.wins as real * 100.0, |nets|)
  {
    hide Positive, Total, Negated, OnePass, Ratio;
    var equity, drawdown, gains, losses, breakeven := Scan(initial, nets);
    SidesBalance(nets);
    var netProfit := equity - initial;
    f := Figures(equity, netProfit, gains.1, losses.1, breakeven, gains.0, losses.0, drawdown,
                 if losses.0 > 0.0 then Some(gains.0 / losses.0) else None,
                 Ratio(netProfit, |nets|),
                 Ratio(gains.1 as real * 100.0, |nets|));
  }

  // ----- drawdown -----

  lemma Cancel(a: real, b: real, d: real)
    requires d > 0.0 && a * d == b * d
    ensures a == b
  {
  }

  lemma FallIs(from: real, to: real)
    requires from > 0.0
    ensures Fall(from, to) == 100.0 - to / from * 100.0
  {
    var q, r := to / from, (from - to) / from;
    assert q * from == to && r * from == from - to;
    Cancel(r, 1.0 - q, from);
  }

  lemma SignOfProduct(a: real, d: real)
    requires d > 0.0
    ensures a * d >= 0.0 <==> a >= 0.0
  {
  }

  lemma QuotientOfLarger(to: real, small: real, large: real)
    requires 0.0 < small < large
    ensures to / large <= to / small <==> to >= 0.0
  {
    var x, y := to / large, to / small;
    assert x * large == to && y * small == to;
    assert (y - x) * large == y * (large - small);
    SignOfProduct(y - x, large);
    SignOfProduct(y, large - small);
    SignOfProduct(y, small);
  }

  /** Falling to an equity from the higher of two earlier ones is the larger fall exactly when
      the equity is not negative. */
  lemma HigherStartFallsFurtherIff(from: real, peak: real, to: real)
    requires 0.0 < from <= peak
    ensures Fall(from, to) <= Fall(peak, to) <==> to >= 0.0 || from == peak
  {
    FallIs(from, to);
    FallIs(peak, to);
    hide Fall;
    if from < peak {
      QuotientOfLarger(to, from, peak);
    }
  }

  /** `d` is the greatest percentage fall over all pairs of an earlier and a later equity. */
  ghost predicate GreatestFall(initial: real, nets: Results, n: nat, d: real)
    requires n <= |nets|
  {
    && (forall i, j | 0 <= i <= j <= n && Equity(initial, nets, i) > 0.0 ::
          Fall(Equity(initial, nets, i), Equity(initial, nets, j)) <= d)
    && exists i, j :: 0 <= i <= j <= n && Equity(initial, nets, i) > 0.0
          && Fall(Equity(initial, nets, i), Equity(initial, nets, j)) == d
  }

  lemma NoFall(initial: real)
    requires initial > 0.0
    ensures Fall(initial, initial) == 0.0
  {
  }

  /** The lowest positive equity up to and including trade `k`. */
  function LowestPositive(initial: real, nets: Results, k: nat): (low: real)
    requires k <= |nets| && initial > 0.0
    ensures low > 0.0
  {
    if k == 0 then initial
    else
      var before, now := LowestPositive(initial, nets, k - 1), Equity(initial, nets, k);
      if 0.0 < now < before then now else before
  }

  lemma {:induction false} LowestPositiveIsLowest(initial: real, nets: Results, k: nat)
    requires k <= |nets| && initial > 0.0
    ensures forall i | 0 <= i <= k && Equity(initial, nets, i) > 0.0 ::
      LowestPositive(initial, nets, k) <= Equity(initial, nets, i)
    ensures exists i :: 0 <= i <= k && Equity(initial, nets, i) == LowestPositive(initial, nets, k)
  {
    hide Equity;
    if k > 0 {
      LowestPositiveIsLowest(initial, nets, k - 1);
      assert Equity(initial, nets, k) == Equity(initial, nets, k);
    } else {
      StartsAtInitial(initial, nets);
    }
  }

  function Larger(a: real, b: real): real {
    if a > b then a else b
  }

  /** A one-pass drawdown that also measures each fall from the lowest positive equity. */
  function TwoSided(initial: real, nets: Results, k: nat): real
    requires k <= |nets| && initial > 0.0
  {
    if k == 0 then 0.0
    else
      PeakIsHighest(initial, nets, k);
      var now := Equity(initial, nets, k);
      Larger(TwoSided(initial, nets, k - 1),
             Larger(Fall(Peak(initial, nets, k), now), Fall(LowestPositive(initial, nets, k), now)))
  }

  /** Both ends of the range of starts bound the fall from any start in between. */
  lemma FallFromBetween(low: real, from: real, peak: real, to: real)
    requires 0.0 < low <= from <= peak
    ensures Fall(from, to) <= Larger(Fall(peak, to), Fall(low, to))
  {
    HigherStartFallsFurtherIff(from, peak, to);
    HigherStartFallsFurtherIff(low, from, to);
    hide Fall;
  }

  /** The falls to trade `n` are at most the larger of the two falls measured there, and that
      one is a fall between two equities. */
  lemma FallsTo(initial: real, nets: Results, n: nat, i: nat)
    requires i <= n <= |nets| && initial > 0.0 && Equity(initial, nets, i) > 0.0
    ensures Peak(initial, nets, n) > 0.0
    ensures var now := Equity(initial, nets, n);
      Fall(Equity(initial, nets, i), now)
        <= Larger(Fall(Peak(initial, nets, n), now), Fall(LowestPositive(initial, nets, n), now))
  {
    PeakIsHighest(initial, nets, n);
    LowestPositiveIsLowest(initial, nets, n);
    hide Fall, Equity, LowestPositive;
    FallFromBetween(LowestPositive(initial, nets, n), Equity(initial, nets, i), Peak(initial, nets, n),
                    Equity(initial, nets, n));
  }

  /** The two-sided drawdown is the greatest fall over all pairs, for every series with a
      positive start. */
  lemma {:induction false} TwoSidedIsGreatestFall(initial: real, nets: Results, n: nat)
    requires n <= |nets| && initial > 0.0
    ensures GreatestFall(initial, nets, n, TwoSided(initial, nets, n))
  {
    hide Fall, Equity, LowestPositive, Peak;
    if n == 0 {
      StartsAtInitial(initial, nets);
      NoFall(initial);
    } else {
      TwoSidedIsGreatestFall(initial, nets, n - 1);
      PeakIsHighest(initial, nets, n);
      LowestPositiveIsLowest(initial, nets, n);
      var top :| 0 <= top <= n && Equity(initial, nets, top) == Peak(initial, nets, n);
      var bottom :| 0 <= bottom <= n && Equity(initial, nets, bottom) == LowestPositive(initial, nets, n);
      forall i, j | 0 <= i <= j <= n && Equity(initial, nets, i) > 0.0
        ensures Fall(Equity(initial, nets, i), Equity(initial, nets, j)) <= TwoSided(initial, nets, n)
      {
        if j == n {
          FallsTo(initial, nets, n, i);
        }
      }
    }
  }

  lemma GreatestFallIsOne(initial: real, nets: Results, n: nat, d: real, e: real)
    requires n <= |nets| && GreatestFall(initial, nets, n, d) && GreatestFall(initial, nets, n, e)
    ensures d == e
  {
    hide Fall, Equity;
    var i, j :| 0 <= i <= j <= n && Equity(initial, nets, i) > 0.0
      && Fall(Equity(initial, nets, i), Equity(initial, nets, j)) == d;
    var k, l :| 0 <= k <= l <= n && Equity(initial, nets, k) > 0.0
      && Fall(Equity(initial, nets, k), Equity(initial, nets, l)) == e;
  }

  /** No negative equity up to trade `n` falls further from the lowest positive one before it
      than `d`. */
  predicate NoDeeperFall(initial: real, nets: Results, n: nat, d: real)
    requires n <= |nets| && initial > 0.0
  {
    forall k | 0 <= k <= n && Equity(initial, nets, k) < 0.0 ::
      Fall(LowestPositive(initial, nets, k), Equity(initial, nets, k)) <= d
  }

  /** What trade `k` adds to the one-pass figure, and what it adds to the two-sided one. */
  lemma OneMoreTrade(initial: real, nets: Results, k: nat)
    requires 0 < k <= |nets| && initial > 0.0
    ensures var now, one := Equity(initial, nets, k), OnePass(initial, nets, k);
      && Peak(initial, nets, k) > 0.0
      && one == Larger(OnePass(initial, nets, k - 1), Fall(Peak(initial, nets, k), now))
      && TwoSided(initial, nets, k) == Larger(TwoSided(initial, nets, k - 1),
           Larger(Fall(Peak(initial, nets, k), now), Fall(LowestPositive(initial, nets, k), now)))
      && (now >= 0.0 ==> Fall(LowestPositive(initial, nets, k), now) <= Fall(Peak(initial, nets, k), now))
  {
    PeakIsHighest(initial, nets, k);
    LowestPositiveIsLowest(initial, nets, k);
    hide Fall, Equity, LowestPositive, Peak;
    var bottom :| 0 <= bottom <= k && Equity(initial, nets, bottom) == LowestPositive(initial, nets, k);
    HigherStartFallsFurtherIff(LowestPositive(initial, nets, k), Peak(initial, nets, k), Equity(initial, nets, k));
  }

  /** The two-sided figure is within a bound exactly when the one-pass figure and every fall of
      a negative equity from the lowest positive one are. */
  lemma {:induction false} TwoSidedWithinIff(initial: real, nets: Results, n: nat, d: real)
    requires n <= |nets| && initial > 0.0 && d >= 0.0
    ensures TwoSided(initial, nets, n) <= d <==> OnePass(initial, nets, n) <= d && NoDeeperFall(initial, nets, n, d)
    ensures OnePass(initial, nets, n) >= 0.0 && TwoSided(initial, nets, n) >= OnePass(initial, nets, n)
  {
    hide Fall, Equity, LowestPositive, Peak, OnePass, TwoSided;
    if n == 0 {
      StartsAtInitial(initial, nets);
      NothingFallen(initial, nets);
    } else {
      TwoSidedWithinIff(initial, nets, n - 1, d);
      OneMoreTrade(initial, nets, n);
    }
  }

  lemma NothingFallen(initial: real, nets: Results)
    requires initial > 0.0
    ensures OnePass(initial, nets, 0) == 0.0 && TwoSided(initial, nets, 0) == 0.0
  {
  }

  /** With a positive start the reported drawdown is the greatest fall over all pairs if and
      only if no negative equity falls further from the lowest positive one before it. */
  lemma OnePassIsGreatestFallIff(initial: real, nets: Results)
    requires initial > 0.0
    ensures var d := OnePass(initial, nets, |nets|);
      GreatestFall(initial, nets, |nets|, d) <==> NoDeeperFall(initial, nets, |nets|, d)
  {
    hide *;
    var n := |nets|;
    var d := OnePass(initial, nets, n);
    TwoSidedIsGreatestFall(initial, nets, n);
    OnePassIsNotNegative(initial, nets, n);
    TwoSidedWithinIff(initial, nets, n, d);
    if GreatestFall(initial, nets, n, d) {
      GreatestFallIsOne(initial, nets, n, d, TwoSided(initial, nets, n));
    }
  }

  lemma {:induction false} OnePassIsNotNegative(initial: real, nets: Results, n: nat)
    requires n <= |nets|
    ensures OnePass(initial, nets, n) >= 0.0
  {
    hide Fall, Equity, Peak;
    if n > 0 {
      OnePassIsNotNegative(initial, nets, n - 1);
    }
  }

  /** In particular it is when equity never goes negative. */
  lemma OnePassIsGreatestFall(initial: real, nets: Results)
    requires initial > 0.0
    requires forall k | 0 <= k <= |nets| :: Equity(initial, nets, k) >= 0.0
    ensures GreatestFall(initial, nets, |nets|, OnePass(initial, nets, |nets|))
  {
    assert NoDeeperFall(initial, nets, |nets|, OnePass(initial, nets, |nets|));
    hide *;
    OnePassIsGreatestFallIff(initial, nets);
  }

  lemma StartsAtInitial(initial: real, nets: Results)
    ensures Equity(initial, nets, 0) == initial
  {
  }

  /** Below zero the two part: from 100 to 1 to -1 the one pass sees a fall of 101 percent,
      while the fall from 1 to -1 is 200 percent. */
  lemma NegativeEquityBreaksDrawdown()
    ensures var nets := [-99.0, -2.0];
      && Equity(100.0, nets, 2) == -1.0
      && OnePass(100.0, nets, 2) == 101.0
      && Fall(Equity(100.0, nets, 1), Equity(100.0, nets, 2)) == 200.0
      && !GreatestFall(100.0, nets, 2, OnePass(100.0, nets, 2))
  {
    var nets := [-99.0, -2.0];
    assert nets[..0] == [] && nets[..1] == [-99.0] && nets[..2] == nets;
    assert [-99.0][..0] == [];
    assert Equity(100.0, nets, 0) == 100.0 && Equity(100.0, nets, 1) == 1.0 && Equity(100.0, nets, 2) == -1.0;
    assert Peak(100.0, nets, 1) == 100.0 && Peak(100.0, nets, 2) == 100.0;
    assert OnePass(100.0, nets, 1) == 99.0;
  }
}
