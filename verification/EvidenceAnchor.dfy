/** Classifying the freshness anchor of one snapshot. Instants are whole microseconds, candle
    starts whole seconds. */
module EvidenceAnchor {
  import opened Text

  const SECOND := 1_000_000
  const ANALYTICAL_SECONDS := 3600
  const ANCHOR_SECONDS := 60
  const MAX_AGE := 120 * SECOND

  /** One candle; `usable` says that its prices are finite, positive and ordered. */
  datatype Candle = Candle(start: int, usable: bool)

  datatype Anchor = Anchor(analyticalCutoff: int, close: int, age: int)

  /** Pending is retried; Stale is terminal; Unreadable is a retryable capture error. */
  datatype Result = Anchored(anchor: Anchor) | Pending | Stale | Unreadable

  /** Everything but the still-forming last row. */
  function Closed(rows: seq<Candle>): seq<Candle> {
    if |rows| > 1 then rows[..|rows| - 1] else rows
  }

  /** The whole second of an instant; the code truncates, and instants here are not negative. */
  function EpochSecond(evaluation: nat): nat {
    evaluation / SECOND
  }

  predicate IsEpochCandle(c: Candle, evaluation: nat) {
    c.start + ANCHOR_SECONDS == EpochSecond(evaluation)
  }

  /** The last closed candle that closes at the epoch second. */
  function EpochCandle(closed: seq<Candle>, evaluation: nat): Option<Candle> {
    if closed == [] then None
    else if IsEpochCandle(closed[|closed| - 1], evaluation) then Some(closed[|closed| - 1])
    else EpochCandle(closed[..|closed| - 1], evaluation)
  }

  function NewestStart(rows: seq<Candle>): int
    requires rows != []
  {
    if |rows| == 1 then rows[0].start
    else
      var before := NewestStart(rows[..|rows| - 1]);
      if rows[|rows| - 1].start > before then rows[|rows| - 1].start else before
  }

  function AnalyticalCutoff(candles: seq<Candle>): int
    requires candles != []
  {
    (Closed(candles)[|Closed(candles)| - 1].start + ANALYTICAL_SECONDS) * SECOND
  }

  /** With the epoch's candle in hand. */
  function Aged(c: Candle, cutoff: int, acquired: nat): Result {
    if !c.usable then Unreadable
    else
      var close := (c.start + ANCHOR_SECONDS) * SECOND;
      var age := acquired - close;
      if age < 0 || age > MAX_AGE then Stale else Anchored(Anchor(cutoff, close, age))
  }

  /** Without it: publishable still, and has the source not yet moved past the epoch? */
  function Missing(minutes: seq<Candle>, evaluation: nat, acquired: nat): Result
    requires minutes != []
  {
    if acquired - evaluation <= MAX_AGE && NewestStart(minutes) < EpochSecond(evaluation) + ANCHOR_SECONDS
    then Pending else Stale
  }

  function Resolve(candles: seq<Candle>, minutes: seq<Candle>, evaluation: nat, acquired: nat): Result {
    if candles == [] then Unreadable
    else if AnalyticalCutoff(candles) > evaluation then Stale
    else if minutes == [] then Unreadable
    else
      match EpochCandle(Closed(minutes), evaluation)
      case None => Missing(minutes, evaluation, acquired)
      case Some(c) => Aged(c, AnalyticalCutoff(candles), acquired)
  }

  /** The resolution as a loop over the closed one-minute candles. */
  method ResolveAnchor(candles: seq<Candle>, minutes: seq<Candle>, evaluation: nat, acquired: nat) returns (r: Result)
    ensures r == Resolve(candles, minutes, evaluation, acquired)
  {
    var completed := Closed(candles);
    if completed == [] {
      return Unreadable;
    }
    var cutoff := (completed[|completed| - 1].start + ANALYTICAL_SECONDS) * SECOND;
    if cutoff > evaluation {
      return Stale;
    }
    var closed := Closed(minutes);
    if closed == [] {
      return Unreadable;
    }
    var anchor := None;
    for i := 0 to |closed|
      invariant anchor == EpochCandle(closed[..i], evaluation)
    {
      assert closed[..i + 1][..i] == closed[..i];
      if closed[i].start + ANCHOR_SECONDS == evaluation / SECOND {
        anchor := Some(closed[i]);
      }
    }
    assert closed[..|closed|] == closed;
    match anchor {
      case Some(c) =>
        r := Aged(c, cutoff, acquired);
      case None =>
        var newest := minutes[0].start;
        assert minutes[..1] == [minutes[0]];
        for i := 1 to |minutes|
          invariant newest == NewestStart(minutes[..i])
        {
          assert minutes[..i + 1][..i] == minutes[..i];
          newest := if minutes[i].start > newest then minutes[i].start else newest;
        }
        assert minutes[..|minutes|] == minutes;
        var publishable := acquired - evaluation <= MAX_AGE;
        var past := newest >= evaluation / SECOND + ANCHOR_SECONDS;
        r := if publishable && !past then Pending else Stale;
    }
  }

  lemma {:induction false} EpochCandleIsOne(closed: seq<Candle>, evaluation: nat)
    ensures EpochCandle(closed, evaluation).None? <==> forall c | c in closed :: !IsEpochCandle(c, evaluation)
    ensures EpochCandle(closed, evaluation).Some? ==>
      && EpochCandle(closed, evaluation).value in closed
      && IsEpochCandle(EpochCandle(closed, evaluation).value, evaluation)
  {
    if closed != [] {
      var n := |closed| - 1;
      assert closed == closed[..n] + [closed[n]];
      EpochCandleIsOne(closed[..n], evaluation);
    }
  }

  /** The last row of each source is still forming. No answer depends on the last analytical row,
      the cutoff is that of the row before it, and the last one-minute row never is the anchor. */
  lemma FormingRowsAreIgnored(candles: seq<Candle>, minutes: seq<Candle>, x: Candle, y: Candle, evaluation: nat,
                              acquired: nat)
    requires candles != [] && minutes != []
    ensures Resolve(candles + [x], minutes, evaluation, acquired)
         == Resolve(candles + [y], minutes, evaluation, acquired)
    ensures var r := Resolve(candles + [x], minutes + [x], evaluation, acquired);
      && (r.Anchored? ==> r.anchor.analyticalCutoff == (candles[|candles| - 1].start + 3600) * 1_000_000)
      && (r.Anchored? ==> r == Resolve(candles + [y], minutes + [y], evaluation, acquired))
      && (r.Anchored? ==> exists c :: c in minutes && (c.start + 60) * 1_000_000 == r.anchor.close)
  {
    assert Closed(candles + [x]) == candles == Closed(candles + [y]);
    assert Closed(minutes + [x]) == minutes == Closed(minutes + [y]);
    EpochCandleIsOne(minutes, evaluation);
    hide EpochCandle, Closed, NewestStart;
  }

  /** An anchor closes at the epoch second, is at most two minutes old at acquisition, and
      stands beside an analytical series that does not look past the epoch. */
  lemma AnchorIsFresh(candles: seq<Candle>, minutes: seq<Candle>, evaluation: nat, acquired: nat)
    requires Resolve(candles, minutes, evaluation, acquired).Anchored?
    ensures var a := Resolve(candles, minutes, evaluation, acquired).anchor;
      && a.close == EpochSecond(evaluation) * 1_000_000 && a.close <= evaluation < a.close + 1_000_000
      && 0 <= a.age <= 120_000_000 && a.age == acquired - a.close
      && a.analyticalCutoff <= evaluation
      && exists c :: c in Closed(minutes) && c.usable && IsEpochCandle(c, evaluation)
  {
    EpochCandleIsOne(Closed(minutes), evaluation);
    var c := EpochCandle(Closed(minutes), evaluation).value;
    assert c in Closed(minutes) && IsEpochCandle(c, evaluation);
    hide EpochCandle, Closed, NewestStart;
  }

  /** More than two minutes after the epoch nothing is pending, and no anchor is given. */
  lemma NothingPendsForever(candles: seq<Candle>, minutes: seq<Candle>, evaluation: nat, acquired: nat)
    requires acquired - evaluation > 120_000_000
    ensures Resolve(candles, minutes, evaluation, acquired) in {Stale, Unreadable}
  {
    EpochCandleIsOne(Closed(minutes), evaluation);
    hide EpochCandle, Closed, NewestStart;
  }

  predicate AscendingStarts(rows: seq<Candle>) {
    forall i, j | 0 <= i < j < |rows| :: rows[i].start < rows[j].start
  }

  /** The source only appends: it never drops a row, and a row keeps its start. Only the last
      row may still change its prices. */
  predicate Grows(before: seq<Candle>, after: seq<Candle>) {
    && |before| <= |after| && AscendingStarts(after)
    && (forall i | 0 <= i < |before| :: after[i].start == before[i].start)
    && (forall i | 0 <= i < |before| - 1 :: after[i] == before[i])
  }

  lemma {:induction false} NewestIsLast(rows: seq<Candle>)
    requires rows != [] && AscendingStarts(rows)
    ensures NewestStart(rows) == rows[|rows| - 1].start
  {
    if |rows| > 1 {
      var n := |rows| - 1;
      assert forall i, j | 0 <= i < j < n :: rows[..n][i].start < rows[..n][j].start;
      NewestIsLast(rows[..n]);
      assert rows[n - 1].start < rows[n].start;
    }
  }

  lemma CutoffGrows(before: seq<Candle>, after: seq<Candle>)
    requires before != [] && Grows(before, after)
    ensures AnalyticalCutoff(before) <= AnalyticalCutoff(after)
  {
    var b, a := Closed(before), Closed(after);
    assert b[|b| - 1].start == after[|b| - 1].start;
    assert |b| <= |a| && a[|a| - 1] == after[|a| - 1];
    if |b| < |a| {
      assert after[|b| - 1].start < after[|a| - 1].start;
    }
    assert b[|b| - 1].start <= a[|a| - 1].start;
  }

  /** A source past the epoch without the epoch's closed candle never gets one. */
  lemma PastSourceStaysWithout(before: seq<Candle>, after: seq<Candle>, evaluation: nat)
    requires before != [] && AscendingStarts(before) && Grows(before, after)
    requires EpochCandle(Closed(before), evaluation).None?
    requires NewestStart(before) >= EpochSecond(evaluation) + ANCHOR_SECONDS
    ensures EpochCandle(Closed(after), evaluation).None?
    ensures NewestStart(after) >= EpochSecond(evaluation) + ANCHOR_SECONDS
  {
    hide EpochCandle, NewestStart;
    EpochCandleIsOne(Closed(before), evaluation);
    EpochCandleIsOne(Closed(after), evaluation);
    NewestIsLast(before);
    NewestIsLast(after);
    var n := |before| - 1;
    forall c | c in Closed(after) ensures !IsEpochCandle(c, evaluation) {
      var i :| 0 <= i < |Closed(after)| && Closed(after)[i] == c;
      assert after[i] == c;
      if i < n {
        assert before[i] in Closed(before);
      } else if i > n {
        assert after[n].start < after[i].start;
      }
    }
    if n < |after| - 1 {
      assert after[n].start < after[|after| - 1].start;
    }
  }

  /** A closed candle of the epoch stays closed. */
  lemma EpochCandleStays(before: seq<Candle>, after: seq<Candle>, evaluation: nat)
    requires Grows(before, after) && EpochCandle(Closed(before), evaluation).Some?
    ensures EpochCandle(Closed(after), evaluation).Some?
  {
    EpochCandleIsOne(Closed(before), evaluation);
    EpochCandleIsOne(Closed(after), evaluation);
    hide EpochCandle;
    var c :| c in Closed(before) && IsEpochCandle(c, evaluation);
    var i :| 0 <= i < |Closed(before)| && Closed(before)[i] == c;
    assert after[i].start == before[i].start;
    assert Closed(after)[i] == after[i] && Closed(after)[i] in Closed(after);
  }

  /** Why an answer was stale. */
  lemma StaleReasons(candles: seq<Candle>, minutes: seq<Candle>, evaluation: nat, acquired: nat)
    requires evaluation <= acquired
    ensures Resolve(candles, minutes, evaluation, acquired).Stale? <==>
      candles != [] && (
      || AnalyticalCutoff(candles) > evaluation
      || (minutes != [] && EpochCandle(Closed(minutes), evaluation).None?
          && (acquired - evaluation > MAX_AGE || NewestStart(minutes) >= EpochSecond(evaluation) + ANCHOR_SECONDS))
      || (minutes != [] && EpochCandle(Closed(minutes), evaluation).Some?
          && EpochCandle(Closed(minutes), evaluation).value.usable
          && acquired - EpochSecond(evaluation) * SECOND > MAX_AGE))
  {
    EpochCandleIsOne(Closed(minutes), evaluation);
    hide EpochCandle, Closed, NewestStart, AnalyticalCutoff;
  }

  /** When an answer is neither stale nor unreadable, something fresh is there or may come. */
  lemma FreshReasons(candles: seq<Candle>, minutes: seq<Candle>, evaluation: nat, acquired: nat)
    requires evaluation <= acquired
    ensures var r := Resolve(candles, minutes, evaluation, acquired);
      && (r.Pending? ==> (minutes != [] && EpochCandle(Closed(minutes), evaluation).None?
            && acquired - evaluation <= MAX_AGE && NewestStart(minutes) < EpochSecond(evaluation) + ANCHOR_SECONDS))
      && (r.Anchored? ==> minutes != [] && acquired - EpochSecond(evaluation) * SECOND <= MAX_AGE)
      && (r.Pending? || r.Anchored? ==> candles != [] && AnalyticalCutoff(candles) <= evaluation)
      && (candles != [] ==>
           (r.Unreadable? <==>
             AnalyticalCutoff(candles) <= evaluation
             && (minutes == [] || (EpochCandle(Closed(minutes), evaluation).Some?
                                   && !EpochCandle(Closed(minutes), evaluation).value.usable))))
  {
    EpochCandleIsOne(Closed(minutes), evaluation);
    hide EpochCandle, Closed, NewestStart, AnalyticalCutoff;
  }

  /** A stale answer is permanent: over a source that only appends and a clock that does not
      go back, no later call anchors or pends. It stays stale, except exactly when the
      epoch's candle has closed meanwhile and is unusable. */
  lemma StaleIsPermanent(candles: seq<Candle>, minutes: seq<Candle>, acquired: nat,
                         candles': seq<Candle>, minutes': seq<Candle>, acquired': nat, evaluation: nat)
    requires evaluation <= acquired <= acquired'
    requires AscendingStarts(minutes) && Grows(candles, candles') && Grows(minutes, minutes')
    requires Resolve(candles, minutes, evaluation, acquired).Stale?
    ensures var later := Resolve(candles', minutes', evaluation, acquired');
      && (later.Stale? || later.Unreadable?)
      && (later.Unreadable? <==>
            AnalyticalCutoff(candles') <= evaluation
            && EpochCandle(Closed(minutes'), evaluation).Some?
            && !EpochCandle(Closed(minutes'), evaluation).value.usable)
  {
    StaleReasons(candles, minutes, evaluation, acquired);
    FreshReasons(candles', minutes', evaluation, acquired');
    assert |candles'| >= |candles| && |minutes'| >= |minutes|;
    CutoffGrows(candles, candles');
    hide Resolve, AnalyticalCutoff, NewestStart, EpochCandle, Closed, Grows, AscendingStarts;
    if AnalyticalCutoff(candles) <= evaluation {
      if EpochCandle(Closed(minutes), evaluation).Some? {
        EpochCandleStays(minutes, minutes', evaluation);
      } else if acquired - evaluation <= MAX_AGE {
        PastSourceStaysWithout(minutes, minutes', evaluation);
      }
    }
  }

  /** The exception is real: the epoch's minute is still forming when the answer goes stale,
      and closes with unusable prices. */
  lemma StaleCanBecomeUnreadable()
    ensures var candles := [Candle(0, true), Candle(3600, true)];
      var minutes := [Candle(7080, true), Candle(7140, true)];
      var later := [Candle(7080, true), Candle(7140, false), Candle(7200, true)];
      && Grows(candles, candles) && Grows(minutes, later)
      && Resolve(candles, minutes, 7200 * SECOND, 7321 * SECOND).Stale?
      && Resolve(candles, later, 7200 * SECOND, 7330 * SECOND).Unreadable?
  {
    var minutes := [Candle(7080, true), Candle(7140, true)];
    var later := [Candle(7080, true), Candle(7140, false), Candle(7200, true)];
    assert Closed([Candle(0, true), Candle(3600, true)]) == [Candle(0, true)];
    assert Closed(minutes) == [Candle(7080, true)];
    assert Closed(later) == [Candle(7080, true), Candle(7140, false)];
    assert EpochCandle(Closed(minutes), 7200 * SECOND) == None by {
      assert Closed(minutes)[..0] == [];
    }
    assert EpochCandle(Closed(later), 7200 * SECOND) == Some(Candle(7140, false));
  }
}
