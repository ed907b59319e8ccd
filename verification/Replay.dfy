/** Replaying one setup over a candle series, before rounding. Prices are reals. */
module Replay {
  import opened Text

  datatype Setup = Setup(
    direction: string, signalAt: int, entry: real, stop: real, target: real,
    capital: real, leverage: real, cost: real, maxBars: int)

  datatype Candle = Candle(at: int, high: real, low: real, close: real)

  datatype Reason = STOP | TARGET | TIME

  datatype Exit = Exit(price: real, reason: Reason, bars: nat)

  datatype Trade = Trade(direction: string, enteredAt: int, exitedAt: int, exit: Exit, gross: real, net: real)

  datatype Outcome = Raised | NotEntered | Entered(trade: Trade)

  /** The upper case of one character, as far as "LONG" and "SHORT" go: besides the ASCII
      letters, the long s has the upper case S. */
  function Upper(c: char): char {
    if 'a' <= c <= 'z' then (c as int - 'a' as int + 'A' as int) as char
    else if c == '\U{17F}' then 'S'
    else c
  }

  function UpperAll(s: string): string {
    seq(|s|, i requires 0 <= i < |s| => Upper(s[i]))
  }

  predicate Valid(s: Setup) {
    && UpperAll(s.direction) in {"LONG", "SHORT"}
    && s.entry > 0.0 && s.stop > 0.0 && s.target > 0.0 && s.capital > 0.0 && s.leverage > 0.0
    && s.maxBars > 0
  }

  function Pnl(direction: string, entry: real, exit: real, notional: real): real
    requires entry > 0.0
  {
    if direction == "SHORT" then notional * (entry - exit) / entry else notional * (exit - entry) / entry
  }

  predicate Touches(s: Setup, c: Candle) {
    c.low <= s.entry <= c.high
  }

  /** The exit inside one bar, the stop first. The test reads the direction as it is spelled. */
  function ExitFor(s: Setup, c: Candle): Option<(real, Reason)> {
    var stopHit := if s.direction == "SHORT" then c.high >= s.stop else c.low <= s.stop;
    var targetHit := if s.direction == "SHORT" then c.low <= s.target else c.high >= s.target;
    if stopHit then Some((s.stop, STOP)) else if targetHit then Some((s.target, TARGET)) else None
  }

  function Eligible(candles: seq<Candle>, signalAt: int): seq<Candle> {
    if candles == [] then []
    else
      var rest := Eligible(candles[1..], signalAt);
      if candles[0].at >= signalAt then [candles[0]] + rest else rest
  }

  /** Index of the first bar that touches the entry, or the length. */
  function FirstTouch(s: Setup, bars: seq<Candle>): (n: nat)
    ensures n <= |bars|
    ensures n < |bars| ==> Touches(s, bars[n])
    ensures forall i | 0 <= i < n :: !Touches(s, bars[i])
  {
    if bars == [] then 0 else if Touches(s, bars[0]) then 0 else 1 + FirstTouch(s, bars[1..])
  }

  /** The exit of a position that has been held for `k` bars without one. */
  function Walk(s: Setup, bars: seq<Candle>, k: nat): (e: Exit)
    requires k < |bars|
    ensures k < e.bars <= |bars|
    decreases |bars| - k
  {
    match ExitFor(s, bars[k])
    case Some(hit) => Exit(hit.0, hit.1, k + 1)
    case None =>
      if k + 1 >= s.maxBars || k + 1 == |bars| then Exit(bars[k].close, TIME, k + 1) else Walk(s, bars, k + 1)
  }

  /** Profit and loss of a closed position. */
  function Close(s: Setup, enteredAt: int, exitedAt: int, e: Exit): Trade
    requires s.entry > 0.0
  {
    var direction := UpperAll(s.direction);
    var notional := s.capital * s.leverage;
    var gross := Pnl(direction, s.entry, e.price, notional);
    Trade(direction, enteredAt, exitedAt, e, gross, gross - notional * s.cost / 100.0)
  }

  function TradeOf(s: Setup, bars: seq<Candle>, n: nat): Trade
    requires Valid(s) && n < |bars|
  {
    var e := Walk(s, bars[n..], 0);
    Close(s, bars[n].at, bars[n + e.bars - 1].at, e)
  }

  function Replayed(s: Setup, candles: seq<Candle>): Outcome {
    if !Valid(s) then Raised
    else
      var bars := Eligible(candles, s.signalAt);
      var n := FirstTouch(s, bars);
      if n == |bars| then NotEntered else Entered(TradeOf(s, bars, n))
  }

  method FindEntry(s: Setup, bars: seq<Candle>) returns (n: nat)
    ensures n == FirstTouch(s, bars)
  {
    n := 0;
    while n < |bars| && !Touches(s, bars[n])
      invariant n <= |bars| && FirstTouch(s, bars) == n + FirstTouch(s, bars[n..])
    {
      assert bars[n..][0] == bars[n] && bars[n..][1..] == bars[n + 1..];
      n := n + 1;
    }
    if n < |bars| {
      assert bars[n..][0] == bars[n];
    }
  }

  /** The holding loop over the bars from the entry on. */
  method FindExit(s: Setup, bars: seq<Candle>) returns (exit: Exit)
    requires bars != []
    ensures exit == Walk(s, bars, 0)
  {
    hide ExitFor;
    exit := Exit(s.entry, TIME, 0);
    for k := 0 to |bars|
      invariant k < |bars| ==> Walk(s, bars, 0) == Walk(s, bars, k)
      invariant k == |bars| ==> exit == Walk(s, bars, 0)
    {
      var hit := ExitFor(s, bars[k]);
      if hit.Some? {
        exit := Exit(hit.value.0, hit.value.1, k + 1);
        break;
      }
      exit := Exit(bars[k].close, TIME, k + 1);
      if k + 1 >= s.maxBars {
        break;
      }
    }
  }

  /** The replay as the program runs it: filter, find the entry bar, then hold the position. */
  method ReplaySetup(s: Setup, candles: seq<Candle>) returns (r: Outcome)
    ensures r == Replayed(s, candles)
  {
    hide Eligible, FirstTouch, Walk, Close, UpperAll;
    if UpperAll(s.direction) !in {"LONG", "SHORT"}
       || s.entry <= 0.0 || s.stop <= 0.0 || s.target <= 0.0 || s.capital <= 0.0 || s.leverage <= 0.0
        || s.maxBars <= 0 {
      return Raised;
    }
    var bars := Eligible(candles, s.signalAt);
    var n := FindEntry(s, bars);
    if n == |bars| {
      return NotEntered;
    }
    var exit := FindExit(s, bars[n..]);
    return Entered(Close(s, bars[n].at, bars[n + exit.bars - 1].at, exit));
  }

  // ----- what the exit means -----

  /** The bar reaches the stop, and the target, on the side the setup is spelled for. */
  predicate ReachesStop(s: Setup, c: Candle) {
    if s.direction == "SHORT" then s.stop <= c.high else c.low <= s.stop
  }

  predicate ReachesTarget(s: Setup, c: Candle) {
    if s.direction == "SHORT" then c.low <= s.target else s.target <= c.high
  }

  /** The exit is the first bar from the entry on that reaches the stop or the target, at the stop
      if it reaches both; without one the position is closed at the close of the last bar it may be
      held for. */
  lemma {:induction false} ExitIsFirstHit(s: Setup, bars: seq<Candle>, k: nat)
    requires k < |bars| && s.maxBars > k
    ensures var e := Walk(s, bars, k);
      && (forall i | k <= i < e.bars - 1 :: !ReachesStop(s, bars[i]) && !ReachesTarget(s, bars[i]))
      && e.bars <= s.maxBars
      && (e.reason == STOP <==> ReachesStop(s, bars[e.bars - 1]))
      && (e.reason == TARGET <==> !ReachesStop(s, bars[e.bars - 1]) && ReachesTarget(s, bars[e.bars - 1]))
      && (e.reason == STOP ==> e.price == s.stop) && (e.reason == TARGET ==> e.price == s.target)
      && (e.reason == TIME ==> (e.bars == s.maxBars || e.bars == |bars|) && e.price == bars[e.bars - 1].close)
    decreases |bars| - k
  {
    if ExitFor(s, bars[k]).None? && k + 1 < s.maxBars && k + 1 < |bars| {
      ExitIsFirstHit(s, bars, k + 1);
    }
  }

  lemma ProfitFollowsThePrice(direction: string, entry: real, exit: real, notional: real)
    requires entry > 0.0 && notional > 0.0
    ensures Pnl(direction, entry, exit, notional) > 0.0 <==> if direction == "SHORT" then exit < entry else exit > entry
    ensures Pnl(direction, entry, exit, notional) < 0.0 <==> if direction == "SHORT" then exit > entry else exit < entry
  {
    var move := if direction == "SHORT" then entry - exit else exit - entry;
    var pnl := Pnl(direction, entry, exit, notional);
    assert pnl * entry == notional * move;
    SignOfProduct(notional, move);
    SignOfProduct(entry, pnl);
  }

  lemma SignOfProduct(a: real, b: real)
    requires a > 0.0
    ensures (a * b > 0.0 <==> b > 0.0) && (a * b < 0.0 <==> b < 0.0)
  {
  }

  /** The price a settled exit was made at. */
  lemma ExitPrice(s: Setup, bars: seq<Candle>)
    requires bars != [] && s.maxBars > 0
    ensures var e := Walk(s, bars, 0);
      (e.reason.STOP? ==> e.price == s.stop) && (e.reason.TARGET? ==> e.price == s.target)
  {
    ExitIsFirstHit(s, bars, 0);
    hide Walk;
  }

  lemma GrossOfClose(s: Setup, enteredAt: int, exitedAt: int, e: Exit)
    requires Spelled(s) && s.entry > 0.0
    ensures Close(s, enteredAt, exitedAt, e).gross == Pnl(s.direction, s.entry, e.price, s.capital * s.leverage)
    ensures Close(s, enteredAt, exitedAt, e).exit == e
  {
    UpperOfSpelled(s);
    hide UpperAll, Pnl;
  }

  lemma TradeFigures(s: Setup, bars: seq<Candle>, n: nat)
    requires Valid(s) && Spelled(s) && n < |bars|
    ensures var t, e := TradeOf(s, bars, n), Walk(s, bars[n..], 0);
      t.exit == e && t.gross == Pnl(s.direction, s.entry, e.price, s.capital * s.leverage)
  {
    hide Walk, Close, UpperAll, Pnl;
    var e := Walk(s, bars[n..], 0);
    GrossOfClose(s, bars[n].at, bars[n + e.bars - 1].at, e);
  }

  lemma TradeFollowsReason(s: Setup, bars: seq<Candle>, n: nat)
    requires Valid(s) && Spelled(s) && n < |bars|
    requires if s.direction == "LONG" then s.stop < s.entry < s.target else s.target < s.entry < s.stop
    ensures var t := TradeOf(s, bars, n);
      && (t.exit.reason.STOP? ==> t.gross < 0.0)
      && (t.exit.reason.TARGET? ==> t.gross > 0.0)
  {
    ExitPrice(s, bars[n..]);
    hide TradeOf, Walk, Pnl, Valid;
    TradeFigures(s, bars, n);
    ProfitFollowsThePrice(s.direction, s.entry, Walk(s, bars[n..], 0).price, s.capital * s.leverage);
  }

  /** With the stop on the losing side and the target on the winning side, a stopped trade
      loses and a trade that reached its target gains, before costs. */
  lemma StopLosesTargetWins(s: Setup, candles: seq<Candle>)
    requires Spelled(s) && Replayed(s, candles).Entered?
    requires if s.direction == "LONG" then s.stop < s.entry < s.target else s.target < s.entry < s.stop
    ensures var t := Replayed(s, candles).trade;
      && (t.exit.reason.STOP? ==> t.gross < 0.0)
      && (t.exit.reason.TARGET? ==> t.gross > 0.0)
  {
    hide Eligible, FirstTouch, TradeOf, Valid;
    var bars := Eligible(candles, s.signalAt);
    TradeFollowsReason(s, bars, FirstTouch(s, bars));
  }

  /** The replay looks at exactly the candles from the signal on. */
  lemma {:induction false} EligibleHolds(candles: seq<Candle>, signalAt: int, c: Candle)
    ensures c in Eligible(candles, signalAt) <==> c in candles && c.at >= signalAt
  {
    if candles != [] {
      assert candles == [candles[0]] + candles[1..];
      EligibleHolds(candles[1..], signalAt, c);
    }
  }

  /** Gross is the notional times the relative move in the trade's favour, and the costs are a
      percentage of the notional; entry and exit carry the instants of their bars. */
  lemma TradeIsPaid(s: Setup, candles: seq<Candle>)
    requires Replayed(s, candles).Entered?
    ensures var t, notional := Replayed(s, candles).trade, s.capital * s.leverage;
      && t.direction in {"LONG", "SHORT"}
      && t.gross * s.entry
         == notional * (if t.direction == "LONG" then t.exit.price - s.entry else s.entry - t.exit.price)
      && (t.gross - t.net) * 100.0 == notional * s.cost && t.enteredAt >= s.signalAt
    ensures exists n :: TradedFrom(s, Eligible(candles, s.signalAt), Replayed(s, candles).trade, n)
  {
    hide Eligible, Walk, UpperAll;
    var bars := Eligible(candles, s.signalAt);
    var n := FirstTouch(s, bars);
    var e := Walk(s, bars[n..], 0);
    CloseIsPaid(s, bars[n].at, bars[n + e.bars - 1].at, e);
    hide FirstTouch, Close;
    forall i | 0 <= i < n ensures !(bars[i].low <= s.entry <= bars[i].high) {
      assert !Touches(s, bars[i]);
    }
    assert TradedFrom(s, bars, Replayed(s, candles).trade, n);
    EligibleHolds(candles, s.signalAt, bars[n]);
  }

  /** The trade was entered on bar `n`, the first that reaches the entry, and left on its exit bar. */
  predicate TradedFrom(s: Setup, bars: seq<Candle>, t: Trade, n: nat) {
    && n < |bars| && bars[n].low <= s.entry <= bars[n].high
    && (forall i | 0 <= i < n :: !(bars[i].low <= s.entry <= bars[i].high))
    && 0 < t.exit.bars <= |bars| - n && t.enteredAt == bars[n].at && t.exitedAt == bars[n + t.exit.bars - 1].at
  }

  lemma CloseIsPaid(s: Setup, enteredAt: int, exitedAt: int, e: Exit)
    requires Valid(s)
    ensures var t, notional := Close(s, enteredAt, exitedAt, e), s.capital * s.leverage;
      && t.direction in {"LONG", "SHORT"} && t.enteredAt == enteredAt && t.exitedAt == exitedAt && t.exit == e
      && t.gross * s.entry == notional * (if t.direction == "LONG" then e.price - s.entry else s.entry - e.price)
      && (t.gross - t.net) * 100.0 == notional * s.cost
  {
    hide UpperAll;
    var t, notional := Close(s, enteredAt, exitedAt, e), s.capital * s.leverage;
    var costs := notional * s.cost / 100.0;
    assert t.net == t.gross - costs;
    assert (t.gross - t.net) * 100.0 == costs * 100.0 == notional * s.cost;
    PnlIsShare(t.direction, s.entry, e.price, notional);
    hide Pnl;
  }

  lemma PnlIsShare(direction: string, entry: real, exit: real, notional: real)
    requires entry > 0.0
    ensures Pnl(direction, entry, exit, notional) * entry
         == notional * (if direction == "SHORT" then entry - exit else exit - entry)
  {
  }

  // ----- causality -----

  lemma {:induction false} EligibleJoins(a: seq<Candle>, b: seq<Candle>, signalAt: int)
    ensures Eligible(a + b, signalAt) == Eligible(a, signalAt) + Eligible(b, signalAt)
  {
    if a == [] {
      assert a + b == b;
    } else {
      assert (a + b)[1..] == a[1..] + b;
      EligibleJoins(a[1..], b, signalAt);
      var one := if a[0].at >= signalAt then [a[0]] else [];
      AppendIsAssociative(one, Eligible(a[1..], signalAt), Eligible(b, signalAt));
    }
  }

  /** The first touch within a prefix does not depend on what follows. */
  lemma {:induction false} TouchInPrefix(s: Setup, a: seq<Candle>, b: seq<Candle>, c: seq<Candle>)
    requires FirstTouch(s, a + b) < |a|
    ensures FirstTouch(s, a + c) == FirstTouch(s, a + b)
  {
    assert (a + b)[0] == a[0] == (a + c)[0];
    assert (a + b)[1..] == a[1..] + b && (a + c)[1..] == a[1..] + c;
    if !Touches(s, a[0]) {
      TouchInPrefix(s, a[1..], b, c);
    }
  }

  /** Nothing after the exit bar can change it. */
  predicate Settled(s: Setup, e: Exit) {
    !e.reason.TIME? || e.bars >= s.maxBars
  }

  /** A settled exit within a prefix does not depend on what follows; an unsettled one ended
      with the series, and one more bar moves it. */
  lemma {:induction false} WalkInPrefix(s: Setup, a: seq<Candle>, b: seq<Candle>, c: seq<Candle>, k: nat)
    requires k < |a| && Walk(s, a + b, k).bars <= |a|
    ensures Settled(s, Walk(s, a + b, k)) ==> Walk(s, a + c, k) == Walk(s, a + b, k)
    ensures !Settled(s, Walk(s, a + b, k)) ==> b == [] && Walk(s, a + b, k).bars == |a|
    ensures !Settled(s, Walk(s, a + b, k)) && c != [] ==> Walk(s, a + c, k).bars > |a|
    decreases |a| - k
  {
    assert (a + b)[k] == a[k] == (a + c)[k];
    if ExitFor(s, a[k]).None? && k + 1 < s.maxBars && k + 1 < |a + b| {
      hide ExitFor;
      WalkInPrefix(s, a, b, c, k + 1);
    }
  }

  /** How many eligible bars a trade has used up when it ends. */
  function BarsUsed(s: Setup, candles: seq<Candle>): nat
    requires Replayed(s, candles).Entered?
  {
    FirstTouch(s, Eligible(candles, s.signalAt)) + Replayed(s, candles).trade.exit.bars
  }

  lemma TradeInPrefix(s: Setup, a: seq<Candle>, b: seq<Candle>, c: seq<Candle>, n: nat)
    requires Valid(s) && n < |a| && n + Walk(s, (a + b)[n..], 0).bars <= |a|
    ensures var trade, other := TradeOf(s, a + b, n), TradeOf(s, a + c, n);
      && (Settled(s, trade.exit) ==> other == trade)
      && (!Settled(s, trade.exit) ==> trade.exit.bars == |a| - n && b == [])
      && (!Settled(s, trade.exit) && c != [] ==> other.exit.bars > trade.exit.bars)
  {
    assert (a + b)[n..] == a[n..] + b && (a + c)[n..] == a[n..] + c;
    WalkInPrefix(s, a[n..], b, c, 0);
    hide Walk, Pnl, UpperAll, Valid;
  }

  /** Two series that agree up to the exit bar of the one give it the same trade when that is
      settled; an unsettled trade lasts longer as soon as an eligible candle follows. */
  lemma ReplayInPrefix(s: Setup, a: seq<Candle>, b: seq<Candle>, c: seq<Candle>)
    requires Replayed(s, a + b).Entered? && BarsUsed(s, a + b) <= |Eligible(a, s.signalAt)|
    ensures var trade, other := Replayed(s, a + b).trade, Replayed(s, a + c);
      && other.Entered?
      && (Settled(s, trade.exit) ==> other.trade == trade)
      && (!Settled(s, trade.exit) && Eligible(c, s.signalAt) != [] ==> other.trade.exit.bars > trade.exit.bars)
  {
    EligibleJoins(a, b, s.signalAt);
    EligibleJoins(a, c, s.signalAt);
    var x, y, z := Eligible(a, s.signalAt), Eligible(b, s.signalAt), Eligible(c, s.signalAt);
    var n := FirstTouch(s, x + y);
    TouchInPrefix(s, x, y, z);
    TradeInPrefix(s, x, y, z, n);
    hide Eligible, FirstTouch, TradeOf, Walk;
  }

  /** Causality, exactly. Let a prefix of a series hold the exit bar of its trade. No change to
      the candles after that prefix changes the trade if and only if the trade ended by stop,
      by target, or at the bar limit. */
  lemma ReplayIsCausalIff(s: Setup, a: seq<Candle>, b: seq<Candle>)
    requires Replayed(s, a + b).Entered? && BarsUsed(s, a + b) <= |Eligible(a, s.signalAt)|
    ensures (forall c :: Replayed(s, a + c) == Replayed(s, a + b)) <==> Settled(s, Replayed(s, a + b).trade.exit)
  {
    var one := [Candle(s.signalAt, 0.0, 0.0, 0.0)];
    assert Eligible(one, s.signalAt) == one;
    hide Replayed, Eligible, BarsUsed;
    forall c
      ensures Settled(s, Replayed(s, a + b).trade.exit) ==> Replayed(s, a + c) == Replayed(s, a + b)
    {
      ReplayInPrefix(s, a, b, c);
    }
    ReplayInPrefix(s, a, b, one);
  }

  // ----- the mirror of a setup -----

  function Reflect(entry: real, price: real): real {
    entry + entry - price
  }

  function MirrorSetup(s: Setup): Setup {
    s.(direction := if s.direction == "LONG" then "SHORT" else "LONG",
       stop := Reflect(s.entry, s.stop), target := Reflect(s.entry, s.target))
  }

  function MirrorCandle(entry: real, c: Candle): Candle {
    Candle(c.at, Reflect(entry, c.low), Reflect(entry, c.high), Reflect(entry, c.close))
  }

  function MirrorAll(entry: real, candles: seq<Candle>): (r: seq<Candle>)
    ensures |r| == |candles|
    ensures forall i | 0 <= i < |candles| :: r[i] == MirrorCandle(entry, candles[i])
  {
    seq(|candles|, i requires 0 <= i < |candles| => MirrorCandle(entry, candles[i]))
  }

  predicate Spelled(s: Setup) {
    s.direction == "LONG" || s.direction == "SHORT"
  }

  lemma {:induction false} MirrorEligible(candles: seq<Candle>, entry: real, signalAt: int)
    ensures Eligible(MirrorAll(entry, candles), signalAt) == MirrorAll(entry, Eligible(candles, signalAt))
  {
    if candles != [] {
      MirrorEligible(candles[1..], entry, signalAt);
      assert MirrorAll(entry, candles)[1..] == MirrorAll(entry, candles[1..]);
    }
  }

  lemma {:induction false} MirrorTouch(s: Setup, bars: seq<Candle>)
    ensures FirstTouch(MirrorSetup(s), MirrorAll(s.entry, bars)) == FirstTouch(s, bars)
  {
    if bars != [] {
      assert MirrorAll(s.entry, bars)[1..] == MirrorAll(s.entry, bars[1..]);
      MirrorTouch(s, bars[1..]);
    }
  }

  lemma MirrorExitFor(s: Setup, c: Candle)
    requires Spelled(s)
    ensures var a, b := ExitFor(s, c), ExitFor(MirrorSetup(s), MirrorCandle(s.entry, c));
      && (a.None? <==> b.None?)
      && (a.Some? ==> b.value == (Reflect(s.entry, a.value.0), a.value.1))
  {
  }

  lemma {:induction false} MirrorWalk(s: Setup, bars: seq<Candle>, k: nat)
    requires Spelled(s) && k < |bars|
    ensures var a, b := Walk(s, bars, k), Walk(MirrorSetup(s), MirrorAll(s.entry, bars), k);
      b == a.(price := Reflect(s.entry, a.price))
    decreases |bars| - k
  {
    MirrorExitFor(s, bars[k]);
    hide ExitFor;
    if ExitFor(s, bars[k]).None? && k + 1 < s.maxBars && k + 1 < |bars| {
      MirrorWalk(s, bars, k + 1);
    }
  }

  lemma UpperOfSpelled(s: Setup)
    requires Spelled(s)
    ensures UpperAll(s.direction) == s.direction
  {
  }

  lemma MirrorClose(s: Setup, enteredAt: int, exitedAt: int, e: Exit)
    requires Spelled(s) && s.entry > 0.0
    ensures var a := Close(s, enteredAt, exitedAt, e);
      var b := Close(MirrorSetup(s), enteredAt, exitedAt, e.(price := Reflect(s.entry, e.price)));
      b.gross == a.gross && b.net == a.net
  {
    UpperOfSpelled(s);
    UpperOfSpelled(MirrorSetup(s));
    hide UpperAll, Pnl;
  }

  /** The same trade, with its exit price reflected. */
  predicate MirrorTrade(entry: real, a: Trade, b: Trade) {
    && b.exit == a.exit.(price := Reflect(entry, a.exit.price))
    && b.enteredAt == a.enteredAt && b.exitedAt == a.exitedAt && b.gross == a.gross && b.net == a.net
  }

  lemma MirrorTradeOf(s: Setup, bars: seq<Candle>, n: nat)
    requires Spelled(s) && Valid(s) && Valid(MirrorSetup(s)) && n < |bars|
    ensures MirrorTrade(s.entry, TradeOf(s, bars, n), TradeOf(MirrorSetup(s), MirrorAll(s.entry, bars), n))
  {
    assert s.entry > 0.0;
    hide Valid, Walk;
    assert MirrorAll(s.entry, bars)[n..] == MirrorAll(s.entry, bars[n..]);
    MirrorWalk(s, bars[n..], 0);
    var e := Walk(s, bars[n..], 0);
    MirrorClose(s, bars[n].at, bars[n + e.bars - 1].at, e);
    hide Close;
  }

  /** Reflecting all prices about the entry and swapping the direction gives the same trade:
      same bars, same reason, same profit and loss, reflected exit price. */
  lemma ReplayMirrors(s: Setup, candles: seq<Candle>)
    requires Spelled(s) && Valid(s) && Valid(MirrorSetup(s))
    ensures var a, b := Replayed(s, candles), Replayed(MirrorSetup(s), MirrorAll(s.entry, candles));
      && (a.Entered? <==> b.Entered?) && !a.Raised? && !b.Raised?
      && (a.Entered? ==> MirrorTrade(s.entry, a.trade, b.trade))
  {
    var bars := Eligible(candles, s.signalAt);
    MirrorEligible(candles, s.entry, s.signalAt);
    MirrorTouch(s, bars);
    var n := FirstTouch(s, bars);
    if n < |bars| {
      MirrorTradeOf(s, bars, n);
    }
    hide Eligible, FirstTouch, TradeOf, Valid, MirrorTrade;
  }

  // ----- the spelling of the direction -----

  /** The exit test reads the raw direction. A short setup spelled otherwise than "SHORT" is
      tested as a long one. */
  predicate Misread(s: Setup) {
    UpperAll(s.direction) == "SHORT" && s.direction != "SHORT"
  }

  function Normalized(s: Setup): Setup {
    s.(direction := UpperAll(s.direction))
  }

  /** The spellings of a short setup. */
  lemma ShortSpellings(d: string)
    ensures UpperAll(d) == "SHORT" <==>
      |d| == 5 && d[0] in {'S', 's', '\U{17F}'} && d[1] in {'H', 'h'} && d[2] in {'O', 'o'} && d[3] in {'R', 'r'}
      && d[4] in {'T', 't'}
  {
    if |d| == 5 {
      assert UpperAll(d) == [Upper(d[0]), Upper(d[1]), Upper(d[2]), Upper(d[3]), Upper(d[4])];
    }
  }

  lemma {:induction false} SameExits(s: Setup, t: Setup, bars: seq<Candle>, k: nat)
    requires k < |bars| && t == s.(direction := t.direction)
    requires s.direction == "SHORT" <==> t.direction == "SHORT"
    ensures Walk(s, bars, k) == Walk(t, bars, k)
    decreases |bars| - k
  {
    if ExitFor(s, bars[k]).None? && k + 1 < s.maxBars && k + 1 < |bars| {
      SameExits(s, t, bars, k + 1);
    }
  }

  lemma {:induction false} SameTouch(s: Setup, t: Setup, bars: seq<Candle>)
    requires s.entry == t.entry
    ensures FirstTouch(s, bars) == FirstTouch(t, bars)
  {
    if bars != [] {
      SameTouch(s, t, bars[1..]);
    }
  }

  lemma UpperTwice(d: string)
    requires UpperAll(d) in {"LONG", "SHORT"}
    ensures UpperAll(UpperAll(d)) == UpperAll(d)
  {
  }

  lemma WellSpelledTradesAlike(s: Setup, bars: seq<Candle>, n: nat)
    requires Valid(s) && Valid(Normalized(s)) && !Misread(s) && n < |bars|
    ensures TradeOf(s, bars, n) == TradeOf(Normalized(s), bars, n)
  {
    UpperTwice(s.direction);
    assert UpperAll("SHORT") == "SHORT";
    assert s.direction == "SHORT" <==> Normalized(s).direction == "SHORT";
    hide UpperAll, Walk, Pnl;
    SameExits(s, Normalized(s), bars[n..], 0);
  }

  lemma NormalizedIsValid(s: Setup)
    requires Valid(s)
    ensures Valid(Normalized(s))
  {
    UpperTwice(s.direction);
    hide UpperAll;
  }

  lemma WellSpelledReplaysAlike(s: Setup, candles: seq<Candle>)
    requires Valid(s) && !Misread(s)
    ensures Replayed(s, candles) == Replayed(Normalized(s), candles)
  {
    NormalizedIsValid(s);
    hide Misread, Valid, TradeOf, FirstTouch, Eligible, UpperAll;
    var bars := Eligible(candles, s.signalAt);
    SameTouch(s, Normalized(s), bars);
    var n := FirstTouch(s, bars);
    if n < |bars| {
      WellSpelledTradesAlike(s, bars, n);
    }
  }

  /** One flat bar at the entry stops a misread short setup at once, at a loss. */
  lemma FlatBarMisreads(s: Setup)
    requires Valid(s) && Misread(s) && s.target < s.entry < s.stop
    ensures var flat := [Candle(s.signalAt, s.entry, s.entry, s.entry)];
      && Replayed(s, flat).Entered? && Replayed(s, flat).trade.exit == Exit(s.stop, STOP, 1)
      && Replayed(Normalized(s), flat).Entered? && Replayed(Normalized(s), flat).trade.exit == Exit(s.entry, TIME, 1)
  {
    var flat := [Candle(s.signalAt, s.entry, s.entry, s.entry)];
    UpperTwice(s.direction);
    assert flat[1..] == [];
    assert Eligible(flat, s.signalAt) == flat;
    assert flat[0..] == flat;
    hide UpperAll, Pnl, Eligible;
  }

  /** On that bar a misread setup stops exactly when the entry is at or below the stop, and the
      same setup read right exactly when it is at or above. */
  lemma FlatBarTellsApart(s: Setup)
    requires Valid(s) && Misread(s)
    ensures var flat := [Candle(s.signalAt, s.entry, s.entry, s.entry)];
      && Replayed(s, flat).Entered? && Replayed(Normalized(s), flat).Entered?
      && (Replayed(s, flat).trade.exit.reason == STOP <==> s.entry <= s.stop)
      && (Replayed(Normalized(s), flat).trade.exit.reason == STOP <==> s.entry >= s.stop)
  {
    var flat := [Candle(s.signalAt, s.entry, s.entry, s.entry)];
    UpperTwice(s.direction);
    assert flat[1..] == [];
    assert Eligible(flat, s.signalAt) == flat;
    assert flat[0..] == flat;
    hide UpperAll, Pnl, Eligible;
  }

  /** A setup whose stop is its entry is stopped on the bar that enters it, as either direction. */
  lemma StopAtEntryTradesAlike(s: Setup, bars: seq<Candle>, n: nat)
    requires Valid(s) && Valid(Normalized(s)) && s.stop == s.entry && n < |bars| && Touches(s, bars[n])
    ensures TradeOf(s, bars, n) == TradeOf(Normalized(s), bars, n)
  {
    UpperTwice(s.direction);
    hide UpperAll, Pnl;
    assert bars[n..][0] == bars[n];
    assert Walk(s, bars[n..], 0) == Exit(s.stop, STOP, 1) == Walk(Normalized(s), bars[n..], 0);
    hide Walk;
  }

  lemma StopAtEntryReplaysAlike(s: Setup, candles: seq<Candle>)
    requires Valid(s) && s.stop == s.entry
    ensures Replayed(s, candles) == Replayed(Normalized(s), candles)
  {
    NormalizedIsValid(s);
    hide Valid, TradeOf, FirstTouch, Eligible, UpperAll, Touches;
    var bars := Eligible(candles, s.signalAt);
    SameTouch(s, Normalized(s), bars);
    var n := FirstTouch(s, bars);
    if n < |bars| {
      StopAtEntryTradesAlike(s, bars, n);
    }
  }

  /** For every valid setup the spelling of its direction matters on no series exactly when it is
      no short setup spelled otherwise than "SHORT", or its stop is its entry. */
  lemma SpellingMattersIff(s: Setup)
    requires Valid(s)
    ensures (forall candles :: Replayed(s, candles) == Replayed(Normalized(s), candles))
       <==> !Misread(s) || s.stop == s.entry
  {
    hide Replayed, Valid, Misread;
    if !Misread(s) {
      forall candles { WellSpelledReplaysAlike(s, candles); }
    } else if s.stop == s.entry {
      forall candles { StopAtEntryReplaysAlike(s, candles); }
    } else {
      FlatBarTellsApart(s);
      var flat := [Candle(s.signalAt, s.entry, s.entry, s.entry)];
      assert Replayed(s, flat) != Replayed(Normalized(s), flat);
    }
  }
}
