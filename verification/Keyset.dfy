/** Keyset pagination: the order of the (reference_at, snapshot_id) index and the pages
    a cursor cuts out of it. */
module Keyset {
  import opened Text

  datatype Key = Key(reference: string, snapshot: string)

  const START := Key("", "")

  predicate Before(a: Key, b: Key) {
    Less(a.reference, b.reference) || (a.reference == b.reference && Less(a.snapshot, b.snapshot))
  }

  lemma BeforeIsTotal(a: Key, b: Key)
    ensures Before(a, b) || a == b || Before(b, a)
  {
    LessIsTotal(a.reference, b.reference);
    LessIsTotal(a.snapshot, b.snapshot);
  }

  lemma BeforeIsAsymmetric(a: Key, b: Key)
    ensures !(Before(a, b) && Before(b, a)) && !Before(a, a)
  {
    LessIsAsymmetric(a.reference, b.reference);
    LessIsAsymmetric(a.snapshot, b.snapshot);
  }

  lemma BeforeIsTransitive(a: Key, b: Key, c: Key)
    requires Before(a, b) && Before(b, c)
    ensures Before(a, c)
  {
    if Less(a.reference, b.reference) && Less(b.reference, c.reference) {
      LessIsTransitive(a.reference, b.reference, c.reference);
    }
    if Less(a.snapshot, b.snapshot) && Less(b.snapshot, c.snapshot) {
      LessIsTransitive(a.snapshot, b.snapshot, c.snapshot);
    }
  }

  predicate IsFirst(k: Key, s: set<Key>) {
    k in s && forall j | j in s :: j == k || Before(k, j)
  }

  lemma FirstExists(s: set<Key>)
    requires s != {}
    ensures exists k :: IsFirst(k, s)
  {
    var k :| k in s;
    if s == {k} {
      assert IsFirst(k, s);
    } else {
      var rest := s - {k};
      FirstExists(rest);
      var m :| IsFirst(m, rest);
      BeforeIsTotal(k, m);
      if Before(m, k) {
        assert IsFirst(m, s);
      } else {
        forall j | j in s ensures j == k || Before(k, j) {
          if j != k && j != m { BeforeIsTransitive(k, m, j); }
        }
        assert IsFirst(k, s);
      }
    }
  }

  lemma FirstIsUnique(a: Key, b: Key, s: set<Key>)
    requires IsFirst(a, s) && IsFirst(b, s)
    ensures a == b
  {
    BeforeIsAsymmetric(a, b);
  }

  ghost predicate Ascending(keys: seq<Key>) {
    forall i, j | 0 <= i < j < |keys| :: Before(keys[i], keys[j])
  }

  /** The keys of a set in index order. */
  ghost function InOrder(s: set<Key>): (r: seq<Key>)
    ensures |r| == |s|
  {
    if s == {} then []
    else
      FirstExists(s);
      var k :| IsFirst(k, s);
      [k] + InOrder(s - {k})
  }

  lemma {:induction false} InOrderIsSorted(s: set<Key>)
    ensures Ascending(InOrder(s))
    ensures forall k :: k in InOrder(s) <==> k in s
  {
    if s != {} {
      var k := InOrder(s)[0];
      InOrderIsSorted(s - {k});
    }
  }

  lemma InOrderStartsWithFirst(k: Key, s: set<Key>)
    requires IsFirst(k, s)
    ensures InOrder(s) == [k] + InOrder(s - {k})
  {
    InOrderIsSorted(s);
    var m := InOrder(s)[0];
    assert IsFirst(m, s) by {
      forall j | j in s ensures j == m || Before(m, j) {
        var i :| 0 <= i < |InOrder(s)| && InOrder(s)[i] == j;
      }
    }
    FirstIsUnique(k, m, s);
  }

  /** Only one ascending sequence has a given set of keys. */
  lemma {:induction false} AscendingIsInOrder(keys: seq<Key>, s: set<Key>)
    requires Ascending(keys) && forall k :: k in keys <==> k in s
    ensures keys == InOrder(s)
    decreases |keys|
  {
    if keys == [] {
      assert s == {};
    } else {
      var rest := keys[1..];
      assert forall i | 0 <= i < |rest| :: rest[i] == keys[i + 1];
      forall k ensures k in rest <==> k in s - {keys[0]} {
        if k in rest {
          BeforeIsAsymmetric(keys[0], k);
        }
        if k in s - {keys[0]} {
          var i :| 0 <= i < |keys| && keys[i] == k;
          assert rest[i - 1] == k;
        }
      }
      AscendingIsInOrder(rest, s - {keys[0]});
      assert IsFirst(keys[0], s);
      InOrderStartsWithFirst(keys[0], s);
    }
  }

  function After(s: set<Key>, cursor: Key): set<Key> {
    set k | k in s && Before(cursor, k)
  }

  /** One page: the first `limit` keys past the cursor. */
  ghost function Page(s: set<Key>, cursor: Key, limit: nat): (r: seq<Key>)
    ensures |r| <= limit && |r| <= |After(s, cursor)|
  {
    var all := InOrder(After(s, cursor));
    if |all| <= limit then all else all[..limit]
  }

  /** A page leaves no gap: what lies past the cursor is in the page or past its last key,
      and a short page leaves nothing. */
  lemma PageLeavesNoGap(s: set<Key>, cursor: Key, limit: nat, k: Key)
    requires k in s && Before(cursor, k)
    ensures var page := Page(s, cursor, limit);
      && (k in page || (|page| == limit && (page != [] ==> Before(page[|page| - 1], k))))
  {
    var all := InOrder(After(s, cursor));
    InOrderIsSorted(After(s, cursor));
    assert k in all;
    var i :| 0 <= i < |all| && all[i] == k;
    var page := Page(s, cursor, limit);
    if i < |page| { assert page[i] == k; }
  }

  lemma PageIsPastCursor(s: set<Key>, cursor: Key, limit: nat, k: Key)
    requires k in Page(s, cursor, limit)
    ensures k in s && Before(cursor, k)
  {
    InOrderIsSorted(After(s, cursor));
    assert k in InOrder(After(s, cursor));
  }

  lemma TailOfAscending(keys: seq<Key>, i: nat, k: Key)
    requires Ascending(keys) && i < |keys|
    ensures k in keys[i + 1..] <==> k in keys && Before(keys[i], k)
  {
    if k in keys && Before(keys[i], k) {
      var j :| 0 <= j < |keys| && keys[j] == k;
      BeforeIsAsymmetric(keys[i], k);
      assert i < j;
      assert keys[i + 1..][j - i - 1] == k;
    }
    if k in keys[i + 1..] {
      var j :| 0 <= j < |keys[i + 1..]| && keys[i + 1..][j] == k;
      assert keys[i + 1 + j] == k;
    }
  }

  /** Moving the cursor to the i-th key of a table leaves exactly the later keys. */
  lemma AfterTheIthKey(s: set<Key>, i: nat)
    requires i < |s|
    ensures InOrder(After(s, InOrder(s)[i])) == InOrder(s)[i + 1..]
  {
    hide InOrder, Before;
    var all := InOrder(s);
    InOrderIsSorted(s);
    forall k ensures k in all[i + 1..] <==> k in After(s, all[i]) {
      TailOfAscending(all, i, k);
    }
    AscendingIsInOrder(all[i + 1..], After(s, all[i]));
  }

  lemma TakeFirst(page: seq<Key>, k: Key, rest: set<Key>)
    requires IsFirst(k, rest)
    ensures page + InOrder(rest) == page + [k] + InOrder(rest - {k})
  {
    InOrderStartsWithFirst(k, rest);
  }

  method First(s: set<Key>) returns (k: Key)
    requires s != {}
    ensures IsFirst(k, s)
  {
    FirstExists(s);
    k :| k in s && IsFirst(k, s);
  }

  /** Reading a page: the ordered, limited select of the index. */
  method Select(s: set<Key>, cursor: Key, limit: nat) returns (page: seq<Key>)
    ensures page == Page(s, cursor, limit)
  {
    page := [];
    var rest := After(s, cursor);
    ghost var all := InOrder(rest);
    while rest != {} && |page| < limit
      invariant |page| <= limit
      invariant page + InOrder(rest) == all
      decreases |rest|
    {
      var k := First(rest);
      TakeFirst(page, k, rest);
      page, rest := page + [k], rest - {k};
    }
  }
}
