/** One bounded batch of the legacy handoff backfill: classify a page of the latest-outcome
    table, then enqueue and move the cursor, all or nothing. */
module HandoffBackfill {
  import opened Text
  import opened Keyset
  import opened OutcomeTables

  /** The coverage boundary in force. `parses` and `crosses` stand for reading a timestamp
      and for comparing its evidence window with the boundary. */
  datatype Coverage = NoEpoch | Epoch(parses: string -> bool, crosses: string -> bool)

  datatype Verdict = Invalid | SkipEmpty | EnqueueRow(e: Entry) | TerminalRow(recordId: string)

  function Classify(e: Entry, coverage: Coverage): Verdict {
    if e.recordId == "" || e.row.None? then Invalid
    else
      var reference := e.row.value.content.reference;
      match coverage
      case NoEpoch =>
        if reference == "" then SkipEmpty else EnqueueRow(e.(reference := reference))
      case Epoch(parses, crosses) =>
        if reference == "" || !parses(reference) then Invalid
        else if crosses(reference) then TerminalRow(e.recordId)
        else EnqueueRow(e.(reference := reference))
  }

  /** The verdict on the row a page key names. */
  function VerdictOf(latest: map<string, Entry>, k: Key, coverage: Coverage): Verdict {
    if k.snapshot in latest then Classify(latest[k.snapshot], coverage) else Invalid
  }

  /** An entry that a batch may pass: it has a record id and an object that can be read, and under a
      boundary a reference that reads as a timestamp. */
  predicate Trusted(e: Entry, coverage: Coverage) {
    && e.recordId != "" && e.row.Some?
    && (coverage.Epoch? ==>
          e.row.value.content.reference != "" && coverage.parses(e.row.value.content.reference))
  }

  predicate AllValid(latest: map<string, Entry>, page: seq<Key>, coverage: Coverage) {
    forall i | 0 <= i < |page| :: page[i].snapshot in latest && Trusted(latest[page[i].snapshot], coverage)
  }

  lemma VerdictIsInvalidIff(latest: map<string, Entry>, k: Key, coverage: Coverage)
    ensures VerdictOf(latest, k, coverage).Invalid? <==>
      !(k.snapshot in latest && Trusted(latest[k.snapshot], coverage))
  {
  }

  function CandidateOf(latest: map<string, Entry>, k: Key, coverage: Coverage): Option<string> {
    match VerdictOf(latest, k, coverage) case TerminalRow(rid) => Some(rid) case _ => None
  }

  /** Record ids that must have a durable terminal disposition before the batch applies. */
  function Candidates(latest: map<string, Entry>, page: seq<Key>, coverage: Coverage): seq<string> {
    if page == [] then []
    else
      Candidates(latest, page[..|page| - 1], coverage) + AsSeq(CandidateOf(latest, page[|page| - 1], coverage))
  }

  function EnqueueKey(handoff: map<string, Entry>, latest: map<string, Entry>, k: Key, coverage: Coverage)
    : map<string, Entry>
  {
    match VerdictOf(latest, k, coverage)
    case EnqueueRow(e) => Enqueue(handoff, k.snapshot, e)
    case _ => handoff
  }

  function EnqueuePage(handoff: map<string, Entry>, latest: map<string, Entry>, page: seq<Key>, coverage: Coverage)
    : map<string, Entry>
  {
    if page == [] then handoff
    else
      EnqueueKey(EnqueuePage(handoff, latest, page[..|page| - 1], coverage), latest, page[|page| - 1], coverage)
  }

  function ApplyPage(t: Tables, page: seq<Key>, size: nat, coverage: Coverage): Tables {
    var handoff := EnqueuePage(t.handoff, t.latest, page, coverage);
    if |page| < size then t.(handoff := handoff, cursor := START, backfillDone := true)
    else if page == [] then t.(handoff := handoff)
    else t.(handoff := handoff, cursor := page[|page| - 1])
  }

  /** The batch as a whole: a finished backfill and a page with an invalid row change nothing. */
  ghost function Batch(t: Tables, size: nat, coverage: Coverage): Tables {
    var page := Page(Keys(t.latest), t.cursor, size);
    if t.backfillDone || !AllValid(t.latest, page, coverage) then t
    else ApplyPage(t, page, size, coverage)
  }

  ghost function BatchCandidates(t: Tables, size: nat, coverage: Coverage): seq<string> {
    Candidates(t.latest, Page(Keys(t.latest), t.cursor, size), coverage)
  }

  lemma {:induction false} EnqueuePageKeepsOrder(t: Tables, page: seq<Key>, coverage: Coverage)
    requires Consistent(t)
    ensures Consistent(t.(handoff := EnqueuePage(t.handoff, t.latest, page, coverage)))
  {
    if page != [] {
      EnqueuePageKeepsOrder(t, page[..|page| - 1], coverage);
    }
  }

  /** What the page does to one outcome: its own row is enqueued or left, others stay. */
  lemma {:induction false} EnqueuePageOnOne(t: Tables, page: seq<Key>, coverage: Coverage, id: string)
    requires Consistent(t) && id in t.latest
    ensures var h := EnqueuePage(t.handoff, t.latest, page, coverage);
      && (id in t.handoff && t.handoff[id] == t.latest[id] ==> id in h && h[id] == t.latest[id])
      && (Classify(t.latest[id], coverage).EnqueueRow? && (exists k :: k in page && k.snapshot == id) ==>
            id in h && h[id] == t.latest[id])
  {
    hide Strip;
    if page != [] {
      var n := |page| - 1;
      EnqueuePageOnOne(t, page[..n], coverage, id);
      EnqueuePageKeepsOrder(t, page[..n], coverage);
      assert page == page[..n] + [page[n]];
    }
  }

  lemma {:induction false} CandidatesCoverPage(latest: map<string, Entry>, page: seq<Key>, coverage: Coverage, k: Key)
    requires k in page && VerdictOf(latest, k, coverage).TerminalRow?
    ensures VerdictOf(latest, k, coverage).recordId in Candidates(latest, page, coverage)
  {
    var n := |page| - 1;
    assert page == page[..n] + [page[n]];
    if k != page[n] {
      CandidatesCoverPage(latest, page[..n], coverage, k);
    }
  }

  /** Only rows of the page become candidates, and only terminal ones. */
  lemma {:induction false} CandidatesComeFromPage(latest: map<string, Entry>, page: seq<Key>, coverage: Coverage,
        recordId: string)
    requires recordId in Candidates(latest, page, coverage)
    ensures exists k :: k in page && VerdictOf(latest, k, coverage) == TerminalRow(recordId)
  {
    hide VerdictOf;
    var n := |page| - 1;
    assert page == page[..n] + [page[n]];
    if recordId in Candidates(latest, page[..n], coverage) {
      CandidatesComeFromPage(latest, page[..n], coverage, recordId);
    }
  }

  /** A row that is not to be enqueued keeps its handoff as it was. */
  lemma {:induction false} PageLeavesOthers(handoff: map<string, Entry>, latest: map<string, Entry>, page: seq<Key>,
                                            coverage: Coverage, id: string)
    requires id in latest && !Classify(latest[id], coverage).EnqueueRow?
    ensures var h := EnqueuePage(handoff, latest, page, coverage);
      (id in h <==> id in handoff) && (id in h ==> h[id] == handoff[id])
  {
    hide Classify;
    if page != [] {
      PageLeavesOthers(handoff, latest, page[..|page| - 1], coverage, id);
    }
  }

  /** The coverage boundary decides for each row of a valid page: a window that crosses it makes
      the row a terminal candidate and leaves its handoff alone; one that does not is enqueued
      at its latest revision. Without a boundary nothing is terminal. */
  lemma BoundaryDecides(t: Tables, page: seq<Key>, coverage: Coverage, k: Key)
    requires Consistent(t) && AllValid(t.latest, page, coverage) && k in page && k.snapshot in t.latest
    ensures var e, h := t.latest[k.snapshot], EnqueuePage(t.handoff, t.latest, page, coverage);
      && (coverage.Epoch? && coverage.crosses(e.reference) ==>
            e.recordId in Candidates(t.latest, page, coverage)
            && (k.snapshot in h <==> k.snapshot in t.handoff)
            && (k.snapshot in h ==> h[k.snapshot] == t.handoff[k.snapshot]))
      && (coverage.Epoch? && !coverage.crosses(e.reference) ==> k.snapshot in h && h[k.snapshot] == e)
      && (coverage.NoEpoch? ==> Candidates(t.latest, page, coverage) == [])
      && (coverage.NoEpoch? && e.reference != "" ==> k.snapshot in h && h[k.snapshot] == e)
      && (coverage.NoEpoch? && e.reference == "" ==>
            (k.snapshot in h <==> k.snapshot in t.handoff)
            && (k.snapshot in h ==> h[k.snapshot] == t.handoff[k.snapshot]))
  {
    var id := k.snapshot;
    var i :| 0 <= i < |page| && page[i] == k;
    assert Trusted(t.latest[page[i].snapshot], coverage);
    EnqueuePageOnOne(t, page, coverage, id);
    if coverage.NoEpoch? {
      if t.latest[id].reference == "" {
        PageLeavesOthers(t.handoff, t.latest, page, coverage, id);
      }
      if Candidates(t.latest, page, coverage) != [] {
        var recordId := Candidates(t.latest, page, coverage)[0];
        CandidatesComeFromPage(t.latest, page, coverage, recordId);
        assert false;
      }
    } else if coverage.crosses(t.latest[id].reference) {
      CandidatesCoverPage(t.latest, page, coverage, k);
      PageLeavesOthers(t.handoff, t.latest, page, coverage, id);
    }
  }

  /** A row that the page holds ends enqueued, terminal, or without an evidence window. */
  lemma PageRowIsAccounted(t: Tables, page: seq<Key>, size: nat, coverage: Coverage, terminal: set<string>, k: Key)
    requires Consistent(t) && AllValid(t.latest, page, coverage)
    requires forall r | r in Candidates(t.latest, page, coverage) :: r in terminal
    requires k in page && k.snapshot in t.latest
    ensures Accounted(ApplyPage(t, page, size, coverage), terminal, k.snapshot)
  {
    EnqueuePageOnOne(t, page, coverage, k.snapshot);
    var i :| 0 <= i < |page| && page[i] == k;
    if VerdictOf(t.latest, k, coverage).TerminalRow? {
      CandidatesCoverPage(t.latest, page, coverage, k);
    }
  }

  /** A batch whose terminal candidates were persisted first loses no outcome. */
  lemma BatchLosesNothing(t: Tables, size: nat, coverage: Coverage, terminal: set<string>)
    requires Consistent(t) && NothingLost(t, terminal)
    requires forall r | r in BatchCandidates(t, size, coverage) :: r in terminal
    ensures Consistent(Batch(t, size, coverage)) && NothingLost(Batch(t, size, coverage), terminal)
  {
    var keys := Keys(t.latest);
    var page := Page(keys, t.cursor, size);
    if !t.backfillDone && AllValid(t.latest, page, coverage) {
      EnqueuePageKeepsOrder(t, page, coverage);
      var u := ApplyPage(t, page, size, coverage);
      forall id | id in t.latest ensures Accounted(u, terminal, id) {
        var k := Key(t.latest[id].reference, id);
        assert Accounted(t, terminal, id);
        KeysIdentify(t.latest, k);
        if k in page {
          PageRowIsAccounted(t, page, size, coverage, terminal, k);
        } else {
          EnqueuePageOnOne(t, page, coverage, id);
          if Before(t.cursor, k) {
            PageLeavesNoGap(keys, t.cursor, size, k);
          }
        }
      }
    }
  }

  /** A run of consecutive batches over one table. */
  ghost predicate BackfillRun(run: seq<Tables>, size: nat, coverage: Coverage) {
    forall i | 0 <= i < |run| - 1 :: run[i + 1] == Batch(run[i], size, coverage)
  }

  /** A fixed table of valid rows on which the backfill has not started. */
  ghost predicate FreshTable(t: Tables, coverage: Coverage) {
    && Consistent(t) && t.cursor == START && !t.backfillDone
    && forall id | id in t.latest :: Trusted(t.latest[id], coverage)
  }

  lemma PagesOfFreshTableAreValid(t: Tables, u: Tables, size: nat, coverage: Coverage)
    requires FreshTable(t, coverage) && u.latest == t.latest
    ensures AllValid(u.latest, Page(Keys(u.latest), u.cursor, size), coverage)
  {
    var page := Page(Keys(u.latest), u.cursor, size);
    forall i | 0 <= i < |page|
      ensures page[i].snapshot in u.latest && Trusted(u.latest[page[i].snapshot], coverage)
    {
      PageIsPastCursor(Keys(u.latest), u.cursor, size, page[i]);
    }
  }

  /** What is left past the cursor is the tail of the ordered table from index `i`. */
  ghost predicate Standing(t: Tables, i: nat) {
    var keys := InOrder(Keys(t.latest));
    !t.backfillDone && i <= |keys| && InOrder(After(Keys(t.latest), t.cursor)) == keys[i..]
  }

  lemma PageFromStanding(t: Tables, i: nat, size: nat)
    requires Standing(t, i)
    ensures !t.backfillDone && |InOrder(Keys(t.latest))| == |Keys(t.latest)|
    ensures var keys := InOrder(Keys(t.latest));
      Page(Keys(t.latest), t.cursor, size) == keys[i..if i + size <= |keys| then i + size else |keys|]
  {
    var keys := InOrder(Keys(t.latest));
    assert i + size <= |keys| ==> keys[i..][..size] == keys[i..i + size];
  }

  /** One batch over valid rows moves on by `size` keys, or finishes. */
  lemma BatchMovesOn(t: Tables, i: nat, size: nat, coverage: Coverage)
    requires Standing(t, i) && size >= 1
    requires AllValid(t.latest, Page(Keys(t.latest), t.cursor, size), coverage)
    ensures var u := Batch(t, size, coverage);
      && u.latest == t.latest
      && (i + size <= |Keys(t.latest)| ==> Standing(u, i + size))
      && (u.backfillDone <==> i + size > |Keys(t.latest)|)
  {
    hide EnqueuePage, AllValid, Page, InOrder, After, Keys;
    var keys := InOrder(Keys(t.latest));
    PageFromStanding(t, i, size);
    if i + size <= |keys| {
      AfterTheIthKey(Keys(t.latest), i + size - 1);
    }
  }

  lemma FreshTableStands(t: Tables, coverage: Coverage)
    requires FreshTable(t, coverage)
    ensures Standing(t, 0)
  {
    assert After(Keys(t.latest), START) == Keys(t.latest);
  }

  lemma FreshBatchMovesOn(t: Tables, u: Tables, i: nat, size: nat, coverage: Coverage)
    requires FreshTable(t, coverage) && u.latest == t.latest && Standing(u, i) && size >= 1
    ensures var v := Batch(u, size, coverage);
      && v.latest == t.latest
      && (i + size <= |Keys(t.latest)| ==> Standing(v, i + size))
      && (v.backfillDone <==> i + size > |Keys(t.latest)|)
  {
    PagesOfFreshTableAreValid(t, u, size, coverage);
    BatchMovesOn(u, i, size, coverage);
  }

  /** Keys read by `n` full batches. */
  function Read(n: nat, size: nat): nat {
    if n == 0 then 0 else Read(n - 1, size) + size
  }

  lemma RunStep(run: seq<Tables>, size: nat, coverage: Coverage, i: nat)
    requires BackfillRun(run, size, coverage) && i + 1 < |run|
    ensures run[i + 1] == Batch(run[i], size, coverage)
  {
  }

  /** Before completion, `n` batches have consumed exactly the first `n * size` keys. */
  lemma {:induction false} BatchesConsumeInOrder(run: seq<Tables>, size: nat, coverage: Coverage, n: nat)
    requires n < |run| && BackfillRun(run, size, coverage) && FreshTable(run[0], coverage)
    requires size >= 1 && Read(n, size) <= |Keys(run[0].latest)|
    ensures run[n].latest == run[0].latest && Standing(run[n], Read(n, size))
  {
    hide BackfillRun, FreshTable, Standing, Batch;
    if n == 0 {
      FreshTableStands(run[0], coverage);
    } else {
      BatchesConsumeInOrder(run, size, coverage, n - 1);
      RunStep(run, size, coverage, n - 1);
      FreshBatchMovesOn(run[0], run[n - 1], Read(n - 1, size), size, coverage);
    }
  }

  /** Pagination is complete and exact: while rows are left, the `n`-th batch reads exactly
      the keys with index `Read(n, size)` up to the next `size`, and it completes the backfill
      exactly when it is not full. */
  lemma BackfillIsExact(run: seq<Tables>, size: nat, coverage: Coverage, n: nat)
    requires n + 1 < |run| && BackfillRun(run, size, coverage) && FreshTable(run[0], coverage)
    requires size >= 1 && Read(n, size) <= |run[0].latest|
    ensures var i, keys := Read(n, size), InOrder(Keys(run[0].latest));
      && |keys| == |run[0].latest|
      && run[n].latest == run[0].latest && !run[n].backfillDone
      && Page(Keys(run[n].latest), run[n].cursor, size) == keys[i..if i + size <= |keys| then i + size else |keys|]
      && (run[n + 1].backfillDone <==> i + size > |keys|)
  {
    hide *;
    KeysCount(run[0].latest);
    BatchesConsumeInOrder(run, size, coverage, n);
    PageFromStanding(run[n], Read(n, size), size);
    RunStep(run, size, coverage, n);
    FreshBatchMovesOn(run[0], run[n], Read(n, size), size, coverage);
  }

  lemma {:induction false} ReadIsProduct(n: nat, size: nat)
    ensures Read(n, size) == n * size
  {
    if n > 0 {
      ReadIsProduct(n - 1, size);
    }
  }

  lemma LastFullBatch(total: nat, size: nat)
    requires size >= 1
    ensures Read(total / size, size) <= total < Read(total / size, size) + size
  {
    ReadIsProduct(total / size, size);
  }

  /** Over `n` valid rows the backfill completes after exactly `n / size + 1` calls. */
  lemma CompletionCall(run: seq<Tables>, size: nat, coverage: Coverage)
    requires size >= 1 && run != [] && |run| == |run[0].latest| / size + 2
    requires BackfillRun(run, size, coverage) && FreshTable(run[0], coverage)
    ensures !run[|run| - 2].backfillDone && run[|run| - 1].backfillDone
  {
    hide *;
    LastFullBatch(|run[0].latest|, size);
    BackfillIsExact(run, size, coverage, |run| - 2);
  }

  lemma {:induction false} KeysCount(latest: map<string, Entry>)
    ensures |Keys(latest)| == |latest|
    decreases |latest|
  {
    if latest == map[] {
      assert Keys(latest) == {};
    } else {
      var id :| id in latest;
      var rest := latest - {id};
      KeysCount(rest);
      var k := Key(latest[id].reference, id);
      forall j ensures j in Keys(latest) <==> j in Keys(rest) + {k} {
        KeysIdentify(latest, j);
        KeysIdentify(rest, j);
      }
      KeysIdentify(rest, k);
      assert Keys(latest) == Keys(rest) + {k};
      assert latest.Keys == rest.Keys + {id};
    }
  }

  /** A batch that meets a row it may not pass changes neither the handoff nor the cursor. */
  lemma InvalidRowFreezesBatch(t: Tables, size: nat, coverage: Coverage, k: Key)
    requires k in Page(Keys(t.latest), t.cursor, size)
    requires k.snapshot in t.latest ==> !Trusted(t.latest[k.snapshot], coverage)
    ensures Batch(t, size, coverage) == t
  {
    var page := Page(Keys(t.latest), t.cursor, size);
    var i :| 0 <= i < |page| && page[i] == k;
  }
}
