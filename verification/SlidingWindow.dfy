/** The in-process request limiter: trimmed deques that must agree with a count over the whole
    history of a source. Time is real seconds. */
module SlidingWindow {

  const MAX_SOURCES := 512

  predicate NonDecreasing(h: seq<real>) {
    forall i, j | 0 <= i <= j < |h| :: h[i] <= h[j]
  }

  /** How many instants lie at or after the cutoff. */
  function CountFrom(h: seq<real>, cutoff: real): nat {
    if h == [] then 0 else CountFrom(h[..|h| - 1], cutoff) + (if h[|h| - 1] >= cutoff then 1 else 0)
  }

  /** How many instants lie in a closed interval. */
  function CountIn(h: seq<real>, from: real, until: real): nat {
    if h == [] then 0
    else CountIn(h[..|h| - 1], from, until) + (if from <= h[|h| - 1] <= until then 1 else 0)
  }

  lemma {:induction false} CountIsSuffix(h: seq<real>, cutoff: real, n: nat)
    requires NonDecreasing(h) && n <= |h|
    requires forall i | 0 <= i < n :: h[i] < cutoff
    requires n < |h| ==> h[n] >= cutoff
    ensures CountFrom(h, cutoff) == |h| - n
    decreases |h|
  {
    if h != [] {
      var m := |h| - 1;
      var p := h[..m];
      assert forall i | 0 <= i < m :: p[i] == h[i];
      assert NonDecreasing(p);
      if n == |h| {
        CountIsSuffix(p, cutoff, m);
      } else {
        assert h[n] <= h[m];
        CountIsSuffix(p, cutoff, n);
      }
    }
  }

  /** Instants `limit` places or more apart are more than the window apart. */
  predicate Spaced(h: seq<real>, limit: nat, window: real) {
    forall i, j | 0 <= i && i + limit <= j < |h| :: h[j] - h[i] > window
  }

  /** The first `n` instants lie before the interval, from `m` on after it. */
  lemma {:induction false} CountInIsSlice(h: seq<real>, from: real, until: real, n: nat, m: nat)
    requires n <= m <= |h|
    requires forall i | 0 <= i < n :: h[i] < from
    requires forall i | n <= i < m :: from <= h[i] <= until
    requires forall i | m <= i < |h| :: h[i] > until
    ensures CountIn(h, from, until) == m - n
    decreases |h|
  {
    if h != [] {
      var k := |h| - 1;
      assert forall i | 0 <= i < k :: h[..k][i] == h[i];
      CountInIsSlice(h[..k], from, until, if n <= k then n else k, if m <= k then m else k);
    }
  }

  /** The number of leading instants below a bound. */
  function Leading(h: seq<real>, bound: real, inclusive: bool): (n: nat)
    ensures n <= |h|
    ensures forall i | 0 <= i < n :: h[i] < bound || (inclusive && h[i] == bound)
    ensures n < |h| ==> !(h[n] < bound || (inclusive && h[n] == bound))
  {
    if h != [] && (h[0] < bound || (inclusive && h[0] == bound)) then 1 + Leading(h[1..], bound, inclusive) else 0
  }

  lemma SliceIsShort(h: seq<real>, limit: nat, window: real, from: real, n: nat, m: nat)
    requires Spaced(h, limit, window) && n <= m <= |h|
    requires forall i | n <= i < m :: from <= h[i] <= from + window
    ensures m - n <= limit
  {
    var ends := if n < m then (h[n], h[m - 1]) else (from, from);
  }

  /** The limiter's promise: spaced instants put at most `limit` into any closed interval of
      the window's length. */
  lemma EveryWindowHoldsAtMostLimit(h: seq<real>, limit: nat, window: real, from: real)
    requires NonDecreasing(h) && Spaced(h, limit, window) && window >= 0.0
    ensures CountIn(h, from, from + window) <= limit
  {
    var n, m := Leading(h, from, false), Leading(h, from + window, true);
    if m < n {
      assert false;
    } else {
      forall i | n <= i < m ensures from <= h[i] <= from + window {
        assert h[n] <= h[i];
      }
      forall i | m <= i < |h| ensures h[i] > from + window {
        assert h[m] <= h[i];
      }
      CountInIsSlice(h, from, from + window, n, m);
      SliceIsShort(h, limit, window, from, n, m);
    }
  }

  /** A trimmed deque: the instants of the history it still holds, and only ones below the
      last cutoff are gone. */
  predicate Trims(hits: seq<real>, h: seq<real>, cutoff: real) {
    |hits| <= |h| && hits == h[|h| - |hits|..] && forall i | 0 <= i < |h| - |hits| :: h[i] < cutoff
  }

  /** What holds of one source. */
  predicate SourceOk(hits: seq<real>, h: seq<real>, limit: nat, window: real, last: real) {
    NonDecreasing(h) && Trims(hits, h, last - window) && Spaced(h, limit, window)
    && (h != [] ==> h[|h| - 1] <= last)
  }

  lemma SourceStaysOk(hits: seq<real>, h: seq<real>, limit: nat, window: real, last: real, now: real)
    requires SourceOk(hits, h, limit, window, last) && last <= now
    ensures SourceOk(hits, h, limit, window, now)
  {
  }

  /** Dropping the deque's old front keeps it a trimmed history, and what is left counts the
      calls of the window. */
  lemma TrimmedCounts(hits: seq<real>, h: seq<real>, n: nat, limit: nat, window: real, last: real, now: real)
    requires SourceOk(hits, h, limit, window, last) && last <= now && n <= |hits|
    requires forall i | 0 <= i < n :: hits[i] < now - window
    requires n < |hits| ==> hits[n] >= now - window
    ensures SourceOk(hits[n..], h, limit, window, now)
    ensures CountFrom(h, now - window) == |hits| - n
  {
    hide Spaced, NonDecreasing, CountFrom;
    TrimmedFront(hits, h, n, last - window, now - window);
    CountIsSuffix(h, now - window, |h| - |hits| + n);
  }

  lemma TrimmedFront(hits: seq<real>, h: seq<real>, n: nat, before: real, cutoff: real)
    requires Trims(hits, h, before) && before <= cutoff && n <= |hits|
    requires forall i | 0 <= i < n :: hits[i] < cutoff
    requires n < |hits| ==> hits[n] >= cutoff
    ensures var gone := |h| - |hits|;
      && Trims(hits[n..], h, cutoff)
      && (forall i | 0 <= i < gone + n :: h[i] < cutoff) && (gone + n < |h| ==> h[gone + n] >= cutoff)
  {
    var gone := |h| - |hits|;
    forall i | 0 <= i < gone + n ensures h[i] < cutoff {
      if i >= gone {
        assert h[i] == hits[i - gone];
      }
    }
  }

  /** An allowed call extends the history and keeps it spaced. */
  lemma AllowedKeepsOk(hits: seq<real>, h: seq<real>, limit: nat, window: real, now: real)
    requires SourceOk(hits, h, limit, window, now) && |hits| < limit
    ensures SourceOk(hits + [now], h + [now], limit, window, now)
  {
    var longer := h + [now];
    var gone := |h| - |hits|;
    forall i, j | 0 <= i && i + limit <= j < |longer| ensures longer[j] - longer[i] > window {
      if j == |h| {
        assert i < gone;
      } else {
        assert h[j] - h[i] > window;
      }
    }
    assert hits + [now] == longer[gone..];
    hide Spaced;
    assert NonDecreasing(longer) by {
      forall i, j | 0 <= i <= j < |longer| ensures longer[i] <= longer[j] {
        if i < |h| {
          assert h[i] <= h[|h| - 1];
        }
      }
    }
  }

  /** The map, its insertion order and the untrimmed history name the same sources. */
  ghost predicate KeysOk(hits: map<string, seq<real>>, order: seq<string>, history: map<string, seq<real>>) {
    && |order| <= MAX_SOURCES && Distinct(order)
    && forall k :: (k in order <==> k in hits) && (k in history <==> k in hits)
  }

  ghost predicate Distinct(order: seq<string>) {
    forall i, j | 0 <= i < j < |order| :: order[i] != order[j]
  }

  ghost predicate SourcesOk(hits: map<string, seq<real>>, history: map<string, seq<real>>, limit: nat,
                            window: real, last: real) {
    forall k | k in hits :: k in history && SourceOk(hits[k], history[k], limit, window, last)
  }

  lemma TailOfDistinct(order: seq<string>)
    requires order != [] && Distinct(order)
    ensures Distinct(order[1..]) && forall k :: k in order[1..] <==> k in order && k != order[0]
  {
    assert order == [order[0]] + order[1..];
    forall k | k in order[1..] ensures k != order[0] {
      var j :| 0 <= j < |order[1..]| && order[1..][j] == k;
      assert order[0] != order[j + 1];
    }
  }

  lemma EvictKeepsKeys(hits: map<string, seq<real>>, order: seq<string>, history: map<string, seq<real>>)
    requires KeysOk(hits, order, history) && order != []
    ensures KeysOk(hits - {order[0]}, order[1..], history - {order[0]})
  {
    TailOfDistinct(order);
    hide Distinct;
  }

  lemma EvictKeepsSources(hits: map<string, seq<real>>, history: map<string, seq<real>>, limit: nat, window: real,
                          last: real, gone: string)
    requires SourcesOk(hits, history, limit, window, last)
    ensures SourcesOk(hits - {gone}, history - {gone}, limit, window, last)
  {
    hide SourceOk;
  }

  lemma AddKeepsKeys(hits: map<string, seq<real>>, order: seq<string>, history: map<string, seq<real>>, key: string)
    requires KeysOk(hits, order, history) && key !in hits && |order| < MAX_SOURCES
    ensures KeysOk(hits[key := []], order + [key], history[key := []])
  {
    assert Distinct(order + [key]);
    hide Distinct;
  }

  lemma AddKeepsSources(hits: map<string, seq<real>>, history: map<string, seq<real>>, limit: nat, window: real,
                        last: real, key: string)
    requires SourcesOk(hits, history, limit, window, last)
    ensures SourcesOk(hits[key := []], history[key := []], limit, window, last)
  {
    assert SourceOk([], [], limit, window, last);
    hide SourceOk;
  }

  lemma UpdateKeepsKeys(hits: map<string, seq<real>>, order: seq<string>, history: map<string, seq<real>>, key: string,
                        deque: seq<real>, all: seq<real>)
    requires KeysOk(hits, order, history) && key in hits
    ensures KeysOk(hits[key := deque], order, history[key := all])
  {
    hide Distinct;
  }

  lemma UpdateKeepsSources(hits: map<string, seq<real>>, history: map<string, seq<real>>, limit: nat, window: real,
                           last: real,
                           key: string, deque: seq<real>, all: seq<real>, now: real)
    requires SourcesOk(hits, history, limit, window, last) && last <= now && SourceOk(deque, all, limit, window, now)
    ensures SourcesOk(hits[key := deque], history[key := all], limit, window, now)
  {
    hide SourceOk;
    forall k | k in hits { SourceStaysOk(hits[k], history[k], limit, window, last, now); }
  }

  /** The history with room for a new source. */
  function Roomy(history: map<string, seq<real>>, order: seq<string>): map<string, seq<real>> {
    if |order| >= MAX_SOURCES then history - {order[0]} else history
  }

  /** The earlier allowed requests of a source, as far back as its entry goes. */
  function Earlier(history: map<string, seq<real>>, key: string): seq<real> {
    if key in history then history[key] else []
  }

  class Limiter {
    const limit: nat
    const window: real
    /** The deques, and their keys in insertion order. */
    var hits: map<string, seq<real>>
    var order: seq<string>
    /** Every allowed call of a source since its entry was created; nothing is trimmed here. */
    ghost var history: map<string, seq<real>>
    ghost var last: real

    ghost predicate Valid()
      reads this
    {
      limit >= 1 && KeysOk(hits, order, history) && SourcesOk(hits, history, limit, window, last)
    }

    constructor (limit: int, window: real, started: real)
      ensures Valid() && history == map[] && this.limit == (if limit > 1 then limit else 1)
      ensures this.window == window && last == started
    {
      this.limit := if limit > 1 then limit else 1;
      this.window := window;
      hits, order, history, last := map[], [], map[], started;
    }

    /** Room for a new source: the oldest-inserted one is forgotten when the map is full. */
    method Admit(key: string)
      requires Valid() && key !in hits
      modifies this`hits, this`order, this`history
      ensures Valid() && key in hits
      ensures history == Roomy(old(history), old(order))[key := []]
    {
      hide KeysOk, SourcesOk;
      var h, o := hits, order;
      ghost var all := history;
      SameKeys(h, o, all);
      if |o| >= MAX_SOURCES {
        EvictKeepsKeys(h, o, all);
        EvictKeepsSources(h, all, limit, window, last, o[0]);
        h, all := h - {o[0]}, all - {o[0]};
        o := o[1..];
      }
      AddKeepsKeys(h, o, all, key);
      AddKeepsSources(h, all, limit, window, last, key);
      hits, order, history := h[key := []], o + [key], all[key := []];
    }

    /** Trim the deque of one source and decide. */
    method Decide(start: seq<real>, cutoff: real) returns (deque: seq<real>, ghost n: nat)
      ensures n <= |start| && deque == start[n..]
      ensures forall i | 0 <= i < n :: start[i] < cutoff
      ensures n < |start| ==> start[n] >= cutoff
    {
      deque, n := start, 0;
      while deque != [] && deque[0] < cutoff
        invariant n <= |start| && deque == start[n..]
        invariant forall i | 0 <= i < n :: start[i] < cutoff
        decreases |deque|
      {
        deque, n := deque[1..], n + 1;
      }
    }

    /** Store the deque of a source after one of its requests. */
    method Store(key: string, deque: seq<real>, ghost all: seq<real>, now: real)
      requires Valid() && key in hits && last <= now && SourceOk(deque, all, limit, window, now)
      modifies this`hits, this`history, this`last
      ensures Valid() && last == now && history == old(history)[key := all]
    {
      hide KeysOk, SourcesOk, SourceOk;
      UpdateKeepsKeys(hits, order, history, key, deque, all);
      UpdateKeepsSources(hits, history, limit, window, last, key, deque, all, now);
      hits, history, last := hits[key := deque], history[key := all], now;
    }

    /** One request. With time that does not run backwards, it is allowed exactly when fewer
        than `limit` earlier allowed requests of the source lie within the last window; only
        its own history changes, and only a new source in a full map makes another forgotten. */
    method Allow(key: string, now: real) returns (allowed: bool)
      requires Valid() && last <= now
      modifies this
      ensures Valid() && last == now
      ensures var before := Earlier(old(history), key);
        && (allowed <==> CountFrom(before, now - window) < limit)
        && history == (if key in old(history) then old(history) else Roomy(old(history), old(order)))
                        [key := if allowed then before + [now] else before]
    {
      hide KeysOk, SourcesOk, SourceOk, Roomy, CountFrom;
      SameKeys(hits, order, history);
      if key !in hits {
        Admit(key);
      }
      ghost var before, start := history[key], hits[key];
      SourceAt(hits, history, limit, window, last, key);
      var deque;
      ghost var n;
      deque, n := Decide(hits[key], now - window);
      TrimmedCounts(start, before, n, limit, window, last, now);
      allowed := |deque| < limit;
      if allowed {
        AllowedKeepsOk(deque, before, limit, window, now);
        deque := deque + [now];
      }
      ghost var all := if allowed then before + [now] else before;
      Store(key, deque, all, now);
    }
  }

  lemma SameKeys(hits: map<string, seq<real>>, order: seq<string>, history: map<string, seq<real>>)
    requires KeysOk(hits, order, history)
    ensures |order| <= MAX_SOURCES && forall k :: k in history <==> k in hits
    ensures history.Keys == set k | k in order
  {
    hide Distinct;
  }

  lemma {:induction false} SizeOfDistinct(order: seq<string>)
    requires Distinct(order)
    ensures |set k | k in order| == |order|
  {
    if order == [] {
      assert (set k | k in order) == {};
    } else {
      TailOfDistinct(order);
      SizeOfDistinct(order[1..]);
      assert (set k | k in order) == (set k | k in order[1..]) + {order[0]};
    }
  }

  lemma SourceAt(hits: map<string, seq<real>>, history: map<string, seq<real>>, limit: nat, window: real,
                 last: real, key: string)
    requires SourcesOk(hits, history, limit, window, last) && key in hits
    ensures key in history && SourceOk(hits[key], history[key], limit, window, last)
  {
    hide SourceOk;
  }

  /** In every reachable limiter, every closed interval of the window's length holds at most
      `limit` allowed requests of each source it remembers, and it remembers at most 512. */
  lemma LimiterIsBounded(hits: map<string, seq<real>>, order: seq<string>, history: map<string, seq<real>>,
                         limit: nat, window: real, last: real, key: string, from: real)
    requires KeysOk(hits, order, history) && SourcesOk(hits, history, limit, window, last)
    requires key in history && window >= 0.0
    ensures CountIn(history[key], from, from + window) <= limit && |history| <= 512
  {
    SameKeys(hits, order, history);
    SizeOfDistinct(order);
    assert |history| == |history.Keys|;
    hide KeysOk;
    SourceAt(hits, history, limit, window, last, key);
    EveryWindowHoldsAtMostLimit(history[key], limit, window, from);
  }
}
