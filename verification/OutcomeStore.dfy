/** The outcome store as the program changes it: a ledger file, a database with one open
    transaction, and the terminal dispositions kept by accountability. Every operation takes
    the point at which the process dies; what is not committed by then is gone. */
module OutcomeStore {
  import opened Text
  import opened Keyset
  import opened LedgerBytes
  import opened OutcomeTables
  import opened HandoffBackfill
  import opened OutcomeMachine
  import opened RevisionChain

  /** Position of the last newline in a chunk, or -1. */
  function LastNewline(chunk: Bytes): (n: int)
    ensures -1 <= n < |chunk|
    ensures n >= 0 ==> chunk[n] == NEWLINE
    ensures forall k | n < k < |chunk| :: chunk[k] != NEWLINE
  {
    if chunk == [] then -1
    else if chunk[|chunk| - 1] == NEWLINE then |chunk| - 1
    else LastNewline(chunk[..|chunk| - 1])
  }

  function Least(a: nat, b: nat): nat {
    if a < b then a else b
  }

  function PairOf(row: LedgerRow): (string, string) {
    (Strip(row.content.snapshotId), Strip(row.recordId))
  }

  function PairsOf(rows: seq<LedgerRow>): seq<(string, string)> {
    seq(|rows|, i requires 0 <= i < |rows| => PairOf(rows[i]))
  }

  /** Some row names a snapshot and a record id, white space around either aside. */
  predicate Names(rows: seq<LedgerRow>, id: string, recordId: string) {
    exists i :: 0 <= i < |rows| && Strip(rows[i].content.snapshotId) == id && Strip(rows[i].recordId) == recordId
  }

  lemma NamesByPair(rows: seq<LedgerRow>, id: string, recordId: string)
    ensures (id, recordId) in PairsOf(rows) <==> Names(rows, id, recordId)
  {
    hide Strip;
    if Names(rows, id, recordId) {
      var i :| 0 <= i < |rows| && Strip(rows[i].content.snapshotId) == id && Strip(rows[i].recordId) == recordId;
      assert PairsOf(rows)[i] == (id, recordId);
    }
  }

  /** Acknowledging rows removes a waiting outcome if and only if one of them names its snapshot
      with the record id that is waiting; every other one keeps waiting unchanged, none is added. */
  ghost predicate RemovesNamed(before: map<string, Entry>, after: map<string, Entry>, rows: seq<LedgerRow>) {
    && (forall id | id in after :: id in before && after[id] == before[id])
    && (forall id | id in before :: id !in after <==> Names(rows, id, before[id].recordId))
  }

  lemma AcknowledgingRemovesNamed(t: Tables, rows: seq<LedgerRow>)
    requires Consistent(t)
    ensures RemovesNamed(t.handoff, AcknowledgeAll(t, PairsOf(rows)).handoff, rows)
  {
    var u := AcknowledgeAll(t, PairsOf(rows));
    forall id | id in t.handoff
      ensures id !in u.handoff <==> Names(rows, id, t.handoff[id].recordId)
      ensures id in u.handoff ==> u.handoff[id] == t.handoff[id]
    {
      AcknowledgeRemovesExactlyItsRecord(t, PairsOf(rows), id);
      NamesByPair(rows, id, t.handoff[id].recordId);
    }
  }

  /** One due snapshot: the label that was built for it, if any, and whether it is queued only
      for migration to a newer label schema. */
  datatype Due = Due(found: Option<Label>, migrationOnly: bool)

  /** The label of a due snapshot that may add a row: a migration takes complete labels only. */
  function Kept(d: Due): Option<Label> {
    if d.found.None? || (d.migrationOnly && !d.found.value.windowComplete) then None else d.found
  }

  function Buildable(due: seq<Due>): seq<Label> {
    if due == [] then [] else Buildable(due[..|due| - 1]) + AsSeq(Kept(due[|due| - 1]))
  }

  /** The stored objects the page keys name, damaged ones left out. */
  function RowsAt(handoff: map<string, Entry>, page: seq<Key>): seq<LedgerRow> {
    if page == [] then []
    else
      var last := page[|page| - 1];
      RowsAt(handoff, page[..|page| - 1]) + if last.snapshot in handoff then AsSeq(handoff[last.snapshot].row) else []
  }

  function UpsertObject(t: Tables, row: LedgerRow): Tables {
    match OutcomeTables.Indexed(row) case Some(r) => Upsert(t, r) case None => t
  }

  lemma {:induction false} RowsAtHolds(handoff: map<string, Entry>, page: seq<Key>, row: LedgerRow)
    ensures row in RowsAt(handoff, page) <==>
      exists i :: 0 <= i < |page| && page[i].snapshot in handoff && handoff[page[i].snapshot].row == Some(row)
  {
    if page != [] {
      RowsAtHolds(handoff, page[..|page| - 1], row);
    }
  }

  /** Without damaged objects the rows are those of the page, one for one and in its order. */
  lemma {:induction false} RowsAtFollowPage(handoff: map<string, Entry>, page: seq<Key>)
    requires forall i | 0 <= i < |page| :: page[i].snapshot in handoff && handoff[page[i].snapshot].row.Some?
    ensures |RowsAt(handoff, page)| == |page|
    ensures forall i | 0 <= i < |page| :: Some(RowsAt(handoff, page)[i]) == handoff[page[i].snapshot].row
  {
    if page != [] {
      RowsAtFollowPage(handoff, page[..|page| - 1]);
    }
  }

  /** What delivery leaves behind: acknowledging the rows of a page removes every outcome of the
      page whose stored object can be read, and no other. */
  lemma AcknowledgingPageClearsIt(t: Tables, page: seq<Key>, id: string)
    requires Consistent(t) && id in t.handoff
    ensures id !in AcknowledgeAll(t, PairsOf(RowsAt(t.handoff, page))).handoff <==>
      t.handoff[id].row.Some? && exists i :: 0 <= i < |page| && page[i].snapshot == id
  {
    var rows := RowsAt(t.handoff, page);
    AcknowledgingRemovesNamed(t, rows);
    hide Strip, RowsAt, PairsOf, AcknowledgeAll;
    if t.handoff[id].row.Some? {
      RowsAtHolds(t.handoff, page, t.handoff[id].row.value);
      if i :| 0 <= i < |page| && page[i].snapshot == id {
        var k :| 0 <= k < |rows| && rows[k] == t.handoff[id].row.value;
        assert Names(rows, id, t.handoff[id].recordId);
      }
    }
    if Names(rows, id, t.handoff[id].recordId) {
      var k :| 0 <= k < |rows| && Strip(rows[k].content.snapshotId) == id
        && Strip(rows[k].recordId) == t.handoff[id].recordId;
      assert rows[k] in rows;
      RowsAtHolds(t.handoff, page, rows[k]);
    }
  }

  lemma UpsertOneMore(t: Tables, rows: seq<LedgerRow>, row: LedgerRow)
    ensures UpsertAll(t, IndexRows(rows + [row])) == UpsertObject(UpsertAll(t, IndexRows(rows)), row)
  {
    hide OutcomeTables.Indexed, Upsert;
    IndexRowsAppended(rows, row);
    var before := IndexRows(rows);
    AsSeqCases(before, OutcomeTables.Indexed(row));
    if OutcomeTables.Indexed(row).Some? {
      JoinEndsAsSecond(before, [OutcomeTables.Indexed(row).value]);
      assert before + [] == before;
    }
  }

  lemma SliceInTwo(f: Bytes, start: nat, mid: nat, end: nat)
    requires start <= mid <= end <= |f|
    ensures f[start..end] == f[start..mid] + f[mid..end]
  {
  }

  lemma SliceBoundary(f: Bytes, start: nat, n: nat)
    requires start < n <= |f|
    ensures Boundary(f[start..n], n - start) <==> Boundary(f, n)
  {
    assert f[start..n][n - start - 1] == f[n - 1];
  }

  predicate NewlineFree(f: Bytes, start: nat, end: nat) {
    end <= |f| && forall k | start <= k < end :: f[k] != NEWLINE
  }

  lemma LineSlice(f: Bytes, pos: nat, nl: nat)
    requires pos <= nl < |f| && f[nl] == NEWLINE && NewlineFree(f, pos, nl)
    ensures f[pos..nl + 1] == f[pos..nl] + [NEWLINE] && NEWLINE !in f[pos..nl]
  {
  }

  lemma BoundaryAfterLine(file: Bytes, start: nat, pos: nat, nl: nat)
    requires start <= pos <= nl < |file| && file[nl] == NEWLINE && Boundary(file[start..pos], pos - start)
    ensures Boundary(file[start..nl + 1], nl + 1 - start) && Boundary(file[start..pos], |file[start..pos]|)
  {
    SliceBoundary(file, start, nl + 1);
  }

  /** Reading one more finished line. */
  lemma OneMoreLine(file: Bytes, start: nat, pos: nat, nl: nat, decode: Decode)
    requires start <= pos <= nl < |file| && file[nl] == NEWLINE && NewlineFree(file, pos, nl)
    requires Boundary(file[start..pos], pos - start)
    ensures Boundary(file[start..nl + 1], nl + 1 - start)
    ensures Rows(file[start..nl + 1], decode) == Rows(file[start..pos], decode) + AsSeq(decode(file[pos..nl]))
  {
    hide *;
    BoundaryAfterLine(file, start, pos, nl);
    LineSlice(file, pos, nl);
    SliceInTwo(file, start, pos, nl + 1);
    RowsOfJoin(file[start..pos], file[pos..nl] + [NEWLINE], decode);
    RowsOfOneLine(file[pos..nl], decode);
  }

  lemma BoundaryBeforeTail(file: Bytes, start: nat, pos: nat)
    requires start <= pos <= |file| && Boundary(file[start..pos], pos - start) && Boundary(file, start)
    ensures Boundary(file[start..pos], |file[start..pos]|) && Boundary(file[..pos], |file[..pos]|)
  {
    if start < pos {
      SliceBoundary(file, start, pos);
    }
    if 0 < pos {
      SliceBoundary(file, 0, pos);
    }
  }

  lemma TailSlices(file: Bytes, start: nat, pos: nat)
    requires start <= pos <= |file| && NewlineFree(file, pos, |file|)
    ensures NEWLINE !in file[pos..] && file == file[..pos] + file[pos..]
    ensures file[start..] == file[start..pos] + file[pos..]
    ensures |file[..pos]| == pos
  {
  }

  /** No finished line is left after `pos`. */
  lemma NoMoreLines(file: Bytes, start: nat, pos: nat, decode: Decode)
    requires start <= pos <= |file| && NewlineFree(file, pos, |file|)
    requires Boundary(file[start..pos], pos - start) && Boundary(file, start)
    ensures Rows(file[start..], decode) == Rows(file[start..pos], decode)
    ensures WholeLength(file) == pos
  {
    hide *;
    BoundaryBeforeTail(file, start, pos);
    TailSlices(file, start, pos);
    UnfinishedTail(file[start..pos], file[pos..], decode);
    UnfinishedTail(file[..pos], file[pos..], decode);
  }

  lemma RepairedByLastNewline(f: Bytes, last: int, decode: Decode)
    requires f != [] && f[|f| - 1] != NEWLINE && -1 <= last < |f|
    requires last >= 0 ==> f[last] == NEWLINE
    requires forall k | last < k < |f| :: f[k] != NEWLINE
    ensures WholeLength(f) == last + 1
    ensures Repaired(f, decode) == if decode(f[last + 1..]).Some? then f + [NEWLINE] else f[..last + 1]
  {
    var w := WholeLength(f);
    assert w <= last + 1 by {
      assert w > 0 ==> f[w - 1] == NEWLINE;
    }
  }

  /** Committing appended rows directly gives what reconciling the longer file would give. */
  lemma DirectCommitIsReconcile(t: Tables, base: Bytes, rows: seq<LedgerRow>, codec: Codec<LedgerRow>)
    requires IsObjectCodec(codec) && Boundary(base, |base|) && t.offset == |base|
    ensures var file := base + Written(rows, codec);
      Reconciled(t, file, codec.decode) == UpsertAll(t, IndexRows(rows)).(offset := |file|)
  {
    var file := base + Written(rows, codec);
    assert file[t.offset..] == [] + Written(rows, codec);
    RowsOfWritten([], rows, codec);
    RowsOfWritten(base, rows, codec);
    assert Lines([]) == [] && Rows([], codec.decode) == [];
    assert [] + rows == rows;
    WholeOfBoundary(file);
    hide Rows, IndexRows, UpsertAll, Written;
  }

  lemma WholeOfBoundary(f: Bytes)
    requires Boundary(f, |f|)
    ensures WholeLength(f) == |f|
  {
  }

  class Store {
    const codec: Codec<LedgerRow>
    const hash: Hash
    var file: Bytes
    var committed: Tables
    var working: Tables
    var terminal: set<string>

    ghost function State(): Machine
      reads this
    {
      Machine(file, committed, terminal)
    }

    /** Between operations no transaction is open, and the machine invariant holds. */
    ghost predicate Valid()
      reads this
    {
      working == committed && Sound(State(), codec.decode) && IsObjectCodec(codec)
    }

    constructor (codec: Codec<LedgerRow>, hash: Hash)
      requires IsObjectCodec(codec)
      ensures Valid() && State() == Machine([], EMPTY, {}) && this.codec == codec && this.hash == hash
    {
      this.codec, this.hash := codec, hash;
      file, committed, working, terminal := [], EMPTY, EMPTY, {};
      new;
      EmptyStoreIsSound(codec.decode);
    }

    /** Close or drop the unfinished last line, scanning backwards in chunks. */
    method RepairTail() returns (repaired: bool)
      modifies this`file
      ensures file == Repaired(old(file), codec.decode)
      ensures repaired <==> old(file) != [] && old(file)[|old(file)| - 1] != 10
    {
      if file == [] || file[|file| - 1] == NEWLINE {
        return false;
      }
      var cursor, last := |file|, -1;
      while cursor > 0 && last < 0
        invariant 0 <= cursor <= |file| && last == -1
        invariant forall k | cursor <= k < |file| :: file[k] != NEWLINE
        decreases cursor
      {
        var start := if cursor > CHUNK then cursor - CHUNK else 0;
        var chunk := file[start..cursor];
        var at := LastNewline(chunk);
        assert forall k | start <= k < cursor :: file[k] == chunk[k - start];
        if at >= 0 {
          last := start + at;
          break;
        }
        cursor := start;
      }
      RepairedByLastNewline(file, last, codec.decode);
      if codec.decode(file[last + 1..]).Some? {
        file := file + [NEWLINE];
      } else {
        file := file[..last + 1];
      }
      return true;
    }

    /** Upsert one ledger object into the index and the handoff. */
    method UpsertOutcome(row: LedgerRow)
      modifies this`working
      ensures working == UpsertObject(old(working), row)
    {
      hide Strip;
      var id, recordId := Strip(row.content.snapshotId), Strip(row.recordId);
      if id == "" || row.revision.None? {
        return;
      }
      var e := Entry(recordId, row.revision.value, row.content.reference, Some(row));
      var changed := id !in working.latest || e.revision >= working.latest[id].revision;
      if changed {
        working := working.(latest := working.latest[id := e],
                            acknowledged := set p | p in working.acknowledged && p.0 != id);
      }
      if recordId == "" {
        if changed {
          working := working.(handoff := working.handoff - {id});
        }
        return;
      }
      if id !in working.handoff || e.revision >= working.handoff[id].revision {
        working := working.(handoff := working.handoff[id := e]);
      }
    }

    /** Index the finished lines past the stored offset and commit. */
    method ReconcileOutput() returns (ok: bool)
      requires working == committed
      modifies this`working, this`committed
      ensures ok <==> old(committed.offset) <= |file|
      ensures !ok ==> committed == old(committed)
      ensures ok && Boundary(file, old(committed.offset)) ==>
        committed == Reconciled(old(committed), file, codec.decode)
      ensures working == committed
    {
      hide Rows, IndexRows, UpsertAll, UpsertObject;
      ghost var start, before := committed.offset, committed;
      if committed.offset > |file| {
        return false;
      }
      var pos := committed.offset;
      assert file[start..start] == [];
      EmptySlice(before, codec.decode);
      while pos < |file|
        invariant start <= pos <= |file| && committed == before
        invariant Boundary(file[start..pos], pos - start)
        invariant working == UpsertAll(before, IndexRows(Rows(file[start..pos], codec.decode)))
      {
        var nl := NextNewline(file, pos);
        if nl == |file| {
          break;
        }
        OneMoreLine(file, start, pos, nl, codec.decode);
        ghost var rows := Rows(file[start..pos], codec.decode);
        var parsed := codec.decode(file[pos..nl]);
        AsSeqCases(rows, parsed);
        match parsed {
          case None =>
          case Some(row) =>
            UpsertOneMore(before, rows, row);
            UpsertOutcome(row);
        }
        pos := nl + 1;
      }
      if Boundary(file, start) {
        NoMoreLines(file, start, pos, codec.decode);
      }
      working := working.(offset := pos);
      committed := working;
      return true;
    }

    /** The waiting outcomes, oldest evidence first. `crash` counts the durable writes made
        before the process dies. */
    method PendingOutcomes(limit: nat, crash: nat) returns (rows: seq<LedgerRow>, finished: bool)
      requires Valid()
      modifies this
      ensures Valid() && terminal == old(terminal)
      ensures finished <==> limit >= 1 && crash >= 2
      ensures limit < 1 || crash == 0 ==> State() == old(State()) && rows == []
      ensures limit >= 1 && crash == 1 ==> file == Repaired(old(file), codec.decode) && committed == old(committed)
      ensures finished ==>
        && file == Repaired(old(file), codec.decode)
        && committed == Reconciled(old(committed), file, codec.decode)
        && rows == RowsAt(committed.handoff, Page(Keys(committed.handoff), START, limit))
    {
      hide Sound, Reconciled, Repaired, Purged;
      rows, finished := [], false;
      if limit < 1 || crash == 0 { return; }
      RepairKeepsSound(State(), codec.decode);
      var _ := RepairTail();
      if crash == 1 { return; }
      ReconcileKeepsSound(State(), codec.decode);
      var _ := ReconcileOutput();
      PurgeIsIdle(committed);
      working := Purged(working);
      committed := working;
      var page := Select(Keys(committed.handoff), START, limit);
      for i := 0 to |page|
        invariant rows == RowsAt(committed.handoff, page[..i])
      {
        assert page[..i + 1][..i] == page[..i];
        var k := page[i];
        rows := rows + if k.snapshot in committed.handoff then AsSeq(committed.handoff[k.snapshot].row) else [];
      }
      assert page[..|page|] == page;
      finished := true;
    }

    /** Delete the waiting rows that carry an acknowledged (snapshot, record id) pair. */
    method DeleteAcknowledged(outcomes: seq<LedgerRow>) returns (deleted: nat)
      modifies this`working
      ensures working == AcknowledgeAll(old(working), PairsOf(outcomes))
      ensures deleted == |old(working.handoff)| - |working.handoff|
    {
      hide Strip;
      deleted := 0;
      ghost var pairs := PairsOf(outcomes);
      for i := 0 to |outcomes|
        invariant working == AcknowledgeAll(old(working), pairs[..i])
        invariant deleted == |old(working.handoff)| - |working.handoff|
      {
        assert pairs[..i + 1][..i] == pairs[..i];
        var (id, recordId) := PairOf(outcomes[i]);
        if id != "" && recordId != "" && id in working.handoff && working.handoff[id].recordId == recordId {
          OneRowLess(working.handoff, id);
          working := working.(handoff := working.handoff - {id},
                              acknowledged := working.acknowledged + {(id, recordId)});
          deleted := deleted + 1;
        }
      }
      assert pairs[..|outcomes|] == pairs;
    }

    /** Index the ledger, then delete the acknowledged rows, in two commits. */
    method AcknowledgeOutcomes(outcomes: seq<LedgerRow>, crash: nat) returns (deleted: nat, finished: bool)
      requires Valid()
      modifies this`working, this`committed
      ensures Valid()
      ensures finished <==> outcomes == [] || crash >= 2
      ensures finished && outcomes != [] ==>
        var indexed := Reconciled(old(committed), file, codec.decode);
        && committed == AcknowledgeAll(indexed, PairsOf(outcomes))
        && RemovesNamed(indexed.handoff, committed.handoff, outcomes)
        && deleted == |indexed.handoff| - |committed.handoff|
      ensures outcomes == [] || crash == 0 ==> deleted == 0 && committed == old(committed)
      ensures outcomes != [] && crash == 1 ==>
        deleted == 0 && committed == Reconciled(old(committed), file, codec.decode)
    {
      hide Sound, Reconciled, Strip, AcknowledgeAll, PairsOf, RemovesNamed;
      deleted, finished := 0, outcomes == [];
      if outcomes == [] || crash == 0 { return; }
      ReconcileKeepsSound(State(), codec.decode);
      var _ := ReconcileOutput();
      if crash == 1 { return; }
      AcknowledgeKeepsSound(State(), PairsOf(outcomes), codec.decode);
      SoundIsConsistent(State(), codec.decode);
      AcknowledgingRemovesNamed(committed, outcomes);
      deleted := DeleteAcknowledged(outcomes);
      committed := working;
      finished := true;
    }

    /** Enqueue the rows of a plan, one by one, inside the open transaction. */
    method EnqueuePlan(latest: map<string, Entry>, plan: seq<Key>, coverage: Coverage)
      requires PlansToEnqueue(latest, plan, coverage)
      modifies this`working
      ensures working == old(working).(handoff := EnqueuePage(old(working.handoff), latest, plan, coverage))
    {
      hide VerdictOf, Enqueue;
      ghost var handoff := working.handoff;
      for i := 0 to |plan|
        invariant working == old(working).(handoff := EnqueuePage(handoff, latest, plan[..i], coverage))
      {
        assert plan[..i + 1][..i] == plan[..i] && plan[..i + 1][i] == plan[i];
        var e := VerdictOf(latest, plan[i], coverage).e;
        working := working.(handoff := Enqueue(working.handoff, plan[i].snapshot, e));
      }
      assert plan[..|plan|] == plan;
    }

    /** Classify one page and, unless this is a dry run, enqueue it and move the cursor.
        `ok` is false when an invalid row under a coverage boundary raises. */
    method AdvanceBackfillLocked(size: nat, coverage: Coverage, dryRun: bool)
      returns (ok: bool, candidates: seq<string>, complete: bool)
      requires size >= 1 && working == committed
      modifies this`working, this`committed
      ensures working == committed
      ensures ok <==> (old(committed.backfillDone) || coverage.NoEpoch?
        || AllValid(old(committed.latest), Page(Keys(old(committed.latest)), old(committed.cursor), size), coverage))
      ensures ok && !old(committed.backfillDone) ==> candidates == BatchCandidates(old(committed), size, coverage)
      ensures old(committed.backfillDone) ==> candidates == []
      ensures committed == if dryRun || !ok then old(committed) else Batch(old(committed), size, coverage)
      ensures ok && !dryRun ==> complete == committed.backfillDone
    {
      hide Page, Keys, VerdictOf, InOrder, Candidates, EnqueuePage, AllValid, PlansToEnqueue, Enqueues;
      ok, candidates, complete := true, [], committed.backfillDone;
      if committed.backfillDone { return; }
      var latest := committed.latest;
      var page := Select(Keys(latest), committed.cursor, size);
      BatchCases(committed, page, size, coverage);
      var plan, skipped;
      ok, plan, candidates, skipped := ClassifyPage(latest, page, coverage);
      if !ok { return; }
      if skipped > 0 {
        plan, complete := [], false;
      } else {
        complete := |page| < size;
      }
      if dryRun { return; }
      EnqueuesMeans(committed.handoff, latest, plan, page, coverage);
      EnqueuePlan(latest, plan, coverage);
      if page != [] && skipped == 0 {
        working := working.(cursor := page[|page| - 1]);
      }
      if complete {
        working := working.(cursor := START, backfillDone := true);
      }
      committed := working;
    }

    /** One backfill batch under one lock: classify, persist the terminal dispositions, and
        only then enqueue and move the cursor. */
    method AdvanceBackfill(size: nat, coverage: Coverage, crash: nat) returns (ok: bool)
      requires Valid() && size >= 1
      modifies this
      ensures Valid() && file == old(file)
      ensures ok <==> (old(committed.backfillDone) || coverage.NoEpoch?
        || AllValid(old(committed.latest), Page(Keys(old(committed.latest)), old(committed.cursor), size), coverage))
      ensures !ok || old(committed.backfillDone) || crash == 0 ==> State() == old(State())
      ensures ok && !old(committed.backfillDone) && crash == 1 ==>
        State() == Next(old(State()), PersistTerminal(size, coverage), codec.decode)
      ensures ok && !old(committed.backfillDone) && crash >= 2 ==>
        State() == Next(Next(old(State()), PersistTerminal(size, coverage), codec.decode),
                        ApplyBatch(size, coverage), codec.decode)
    {
      hide Sound, Batch, BatchCandidates, Page, Keys;
      var candidates, complete;
      ok, candidates, complete := AdvanceBackfillLocked(size, coverage, true);
      if !ok || crash == 0 || committed.backfillDone { return; }
      PersistKeepsSound(State(), size, coverage, codec.decode);
      terminal := terminal + set r | r in candidates;
      if crash == 1 { return; }
      ApplyKeepsSound(State(), size, coverage, codec.decode);
      ok, candidates, complete := AdvanceBackfillLocked(size, coverage, false);
    }

    /** Append the rows of the due snapshots and index them. The process dies after `cut` bytes
        of the append, or before its commit when `dieBeforeCommit`. */
    method BuildBounded(due: seq<Due>, cut: nat, dieBeforeCommit: bool) returns (finished: bool)
      requires Valid()
      modifies this
      ensures Valid() && terminal == old(terminal)
      ensures var base := Repaired(old(file), codec.decode);
        var indexed := Reconciled(old(committed), base, codec.decode);
        var written := Written(PendingRows(indexed.latest, Buildable(due), hash), codec);
        && indexed.latest == Replay(IndexRows(Rows(base, codec.decode)))
        && file == base + written[..Least(cut, |written|)]
        && (finished <==> cut >= |written| && !dieBeforeCommit)
        && committed == (if finished then Reconciled(indexed, file, codec.decode) else indexed)
        && BuildStep(old(file), file, Buildable(due), Least(cut, |written|), hash, codec)
    {
      hide BuildStep, Sound, Reconciled, Repaired, PendingRows, Buildable, Strip, Columns;
      hide Written, Rows, IndexRows, Replay, UpsertAll, UpsertObject;
      finished := false;
      RepairKeepsSound(State(), codec.decode);
      var _ := RepairTail();
      ReconcileKeepsSound(State(), codec.decode);
      IndexAfterReconcile(State(), codec.decode);
      var _ := ReconcileOutput();
      var base := file;
      var pending: seq<LedgerRow> := [];
      ghost var indexed := State();
      NothingPending(committed.latest, hash);
      assert due[..0] == [];
      for i := 0 to |due|
        invariant State() == indexed && working == committed
        invariant pending == PendingRows(committed.latest, Buildable(due[..i]), hash)
      {
        assert due[..i + 1] == due[..i] + [due[i]];
        DueAdds(committed.latest, due[..i], due[i], hash);
        assert pending + [] == pending;
        if due[i].found.Some? && !(due[i].migrationOnly && !due[i].found.value.windowComplete) {
          var content := due[i].found.value;
          var prior := PriorRow(committed.latest, content.snapshotId);
          if prior.None? || prior.value.recordId != hash(content) {
            var revision := if prior.None? then 1
                            else (if prior.value.revision.Some? then prior.value.revision.value else 0) + 1;
            pending := pending + [LedgerRow(content, hash(content), Some(revision))];
          }
        }
      }
      assert due[..|due|] == due;
      var written := Written(pending, codec);
      BuiltFile(old(file), Buildable(due), Least(cut, |written|), hash, codec, committed.latest);
      AppendKeepsSound(State(), written[..Least(cut, |written|)], codec.decode);
      if cut < |written| {
        file := file + written[..cut];
        return;
      }
      file := file + written;
      assert written[..|written|] == written;
      if dieBeforeCommit { return; }
      DirectCommitIsReconcile(committed, base, pending, codec);
      ReconcileKeepsSound(State(), codec.decode);
      EmptyUpsert(committed);
      assert pending[..0] == [];
      for i := 0 to |pending|
        modifies this`working
        invariant working == UpsertAll(committed, IndexRows(pending[..i]))
      {
        assert pending[..i + 1] == pending[..i] + [pending[i]];
        UpsertOneMore(committed, pending[..i], pending[i]);
        UpsertOutcome(pending[i]);
      }
      assert pending[..|pending|] == pending;
      working := working.(offset := |file|);
      committed := working;
      finished := true;
    }
  }

  lemma BatchCases(t: Tables, page: seq<Key>, size: nat, coverage: Coverage)
    requires page == Page(Keys(t.latest), t.cursor, size) && !t.backfillDone
    ensures Batch(t, size, coverage)
         == if AllValid(t.latest, page, coverage) then ApplyPage(t, page, size, coverage) else t
  {
  }

  /** Keys whose rows a batch enqueues. */
  predicate PlansToEnqueue(latest: map<string, Entry>, plan: seq<Key>, coverage: Coverage) {
    forall i | 0 <= i < |plan| :: VerdictOf(latest, plan[i], coverage).EnqueueRow?
  }

  /** Enqueuing the plan does to any handoff what enqueuing the page does. */
  ghost predicate Enqueues(latest: map<string, Entry>, plan: seq<Key>, page: seq<Key>, coverage: Coverage) {
    && PlansToEnqueue(latest, plan, coverage)
    && forall handoff :: EnqueuePage(handoff, latest, plan, coverage) == EnqueuePage(handoff, latest, page, coverage)
  }

  lemma EnqueuesMeans(handoff: map<string, Entry>, latest: map<string, Entry>, plan: seq<Key>, page: seq<Key>,
                      coverage: Coverage)
    ensures Enqueues(latest, plan, page, coverage) ==>
      PlansToEnqueue(latest, plan, coverage)
      && EnqueuePage(handoff, latest, plan, coverage) == EnqueuePage(handoff, latest, page, coverage)
    ensures PlansToEnqueue(latest, [], coverage) && EnqueuePage(handoff, latest, [], coverage) == handoff
  {
    hide VerdictOf;
  }

  lemma EnqueueOneMore(handoff: map<string, Entry>, latest: map<string, Entry>, page: seq<Key>, k: Key,
                       coverage: Coverage)
    ensures EnqueuePage(handoff, latest, page + [k], coverage)
         == EnqueueKey(EnqueuePage(handoff, latest, page, coverage), latest, k, coverage)
  {
    hide VerdictOf, EnqueueKey;
    JoinEndsAsSecond(page, [k]);
    assert page + [] == page;
  }

  lemma PlanGrows(latest: map<string, Entry>, plan: seq<Key>, page: seq<Key>, k: Key, coverage: Coverage)
    requires Enqueues(latest, plan, page, coverage)
    ensures var longer := if VerdictOf(latest, k, coverage).EnqueueRow? then plan + [k] else plan;
      Enqueues(latest, longer, page + [k], coverage)
  {
    hide VerdictOf, EnqueuePage, Enqueue;
    var longer := if VerdictOf(latest, k, coverage).EnqueueRow? then plan + [k] else plan;
    forall handoff
      ensures EnqueuePage(handoff, latest, longer, coverage) == EnqueuePage(handoff, latest, page + [k], coverage)
    {
      EnqueueOneMore(handoff, latest, plan, k, coverage);
      EnqueueOneMore(handoff, latest, page, k, coverage);
    }
  }

  lemma PageGrows(latest: map<string, Entry>, plan: seq<Key>, page: seq<Key>, k: Key, coverage: Coverage)
    requires Enqueues(latest, plan, page, coverage)
    ensures AllValid(latest, page + [k], coverage)
       <==> AllValid(latest, page, coverage) && !VerdictOf(latest, k, coverage).Invalid?
    ensures Candidates(latest, page + [k], coverage)
         == Candidates(latest, page, coverage) + AsSeq(CandidateOf(latest, k, coverage))
    ensures var longer := if VerdictOf(latest, k, coverage).EnqueueRow? then plan + [k] else plan;
      Enqueues(latest, longer, page + [k], coverage)
  {
    hide VerdictOf, Trusted;
    VerdictIsInvalidIff(latest, k, coverage);
    PlanGrows(latest, plan, page, k, coverage);
    hide Enqueues;
    JoinEndsAsSecond(page, [k]);
    assert page + [] == page;
    assert forall i | 0 <= i < |page| :: (page + [k])[i] == page[i];
    assert (page + [k])[|page|] == k;
  }

  lemma PageOfNone(latest: map<string, Entry>, coverage: Coverage)
    ensures AllValid(latest, [], coverage) && Candidates(latest, [], coverage) == []
    ensures Enqueues(latest, [], [], coverage)
  {
  }

  lemma InvalidInPage(latest: map<string, Entry>, page: seq<Key>, i: nat, coverage: Coverage)
    requires i < |page| && VerdictOf(latest, page[i], coverage).Invalid?
    ensures !AllValid(latest, page, coverage)
  {
    hide VerdictOf, Trusted;
    VerdictIsInvalidIff(latest, page[i], coverage);
  }

  /** The classification loop shared by the dry run and the apply phase. */
  method ClassifyPage(latest: map<string, Entry>, page: seq<Key>, coverage: Coverage)
    returns (ok: bool, plan: seq<Key>, candidates: seq<string>, skipped: nat)
    ensures ok <==> coverage.NoEpoch? || AllValid(latest, page, coverage)
    ensures ok ==> (skipped == 0 <==> AllValid(latest, page, coverage))
    ensures ok ==> candidates == Candidates(latest, page, coverage) && Enqueues(latest, plan, page, coverage)
  {
    hide VerdictOf, AllValid, Candidates, Enqueues;
    ok, plan, candidates, skipped := true, [], [], 0;
    PageOfNone(latest, coverage);
    assert page[..0] == [];
    for i := 0 to |page|
      invariant ok && (skipped == 0 <==> AllValid(latest, page[..i], coverage))
      invariant coverage.Epoch? ==> skipped == 0
      invariant candidates == Candidates(latest, page[..i], coverage)
      invariant Enqueues(latest, plan, page[..i], coverage)
    {
      assert page[..i + 1] == page[..i] + [page[i]];
      PageGrows(latest, plan, page[..i], page[i], coverage);
      match VerdictOf(latest, page[i], coverage) {
        case Invalid =>
          if coverage.Epoch? {
            InvalidInPage(latest, page, i, coverage);
            ok := false;
            return;
          }
          skipped := skipped + 1;
        case SkipEmpty =>
        case TerminalRow(recordId) =>
          candidates := candidates + [recordId];
        case EnqueueRow(e) =>
          plan := plan + [page[i]];
      }
      assert candidates + [] == candidates;
    }
    assert page[..|page|] == page;
  }

  lemma IndexAfterReconcile(m: Machine, decode: Decode)
    requires Sound(m, decode) && Boundary(m.file, |m.file|)
    ensures Reconciled(m.tables, m.file, decode).latest == Replay(IndexRows(Rows(m.file, decode)))
    ensures Reconciled(m.tables, m.file, decode).offset == |m.file|
  {
    ReconcileIndexesEverything(m.tables, m.file, decode);
    WholeOfBoundary(m.file);
    hide UpsertAll, NewRows, Rows, IndexRows, Replay;
  }

  lemma AppendKeepsSound(m: Machine, bytes: Bytes, decode: Decode)
    requires Sound(m, decode)
    ensures Sound(m.(file := m.file + bytes), decode)
  {
    StepKeepsSound(m, AppendBytes(bytes), decode);
    hide Sound;
  }

  lemma PersistKeepsSound(m: Machine, size: nat, coverage: Coverage, decode: Decode)
    requires Sound(m, decode)
    ensures Sound(m.(terminal := m.terminal + set r | r in BatchCandidates(m.tables, size, coverage)), decode)
  {
    StepKeepsSound(m, PersistTerminal(size, coverage), decode);
    hide Sound, BatchCandidates;
  }

  lemma ApplyKeepsSound(m: Machine, size: nat, coverage: Coverage, decode: Decode)
    requires Sound(m, decode) && forall r | r in BatchCandidates(m.tables, size, coverage) :: r in m.terminal
    ensures Sound(m.(tables := Batch(m.tables, size, coverage)), decode)
  {
    StepKeepsSound(m, ApplyBatch(size, coverage), decode);
    hide Sound, BatchCandidates, Batch;
  }

  lemma SoundIsConsistent(m: Machine, decode: Decode)
    requires Sound(m, decode)
    ensures Consistent(m.tables)
  {
  }

  lemma EmptyStoreIsSound(decode: Decode)
    ensures Sound(Machine([], EMPTY, {}), decode)
  {
    var none: Bytes := [];
    assert none[..0] == none && Lines(none) == [];
    assert Rows(none, decode) == [] && IndexRows([]) == [];
  }

  lemma RepairKeepsSound(m: Machine, decode: Decode)
    requires Sound(m, decode)
    ensures Sound(m.(file := Repaired(m.file, decode)), decode)
  {
    StepKeepsSound(m, RepairTail, decode);
    hide Sound, Repaired;
  }

  lemma ReconcileKeepsSound(m: Machine, decode: Decode)
    requires Sound(m, decode)
    ensures m.tables.offset <= |m.file| && Boundary(m.file, m.tables.offset)
    ensures Sound(m.(tables := Reconciled(m.tables, m.file, decode)), decode)
    ensures Consistent(Reconciled(m.tables, m.file, decode))
  {
    StepKeepsSound(m, Reconcile, decode);
    hide Reconciled, NothingLost, Consistent;
  }

  lemma AcknowledgeKeepsSound(m: Machine, pairs: seq<(string, string)>, decode: Decode)
    requires Sound(m, decode)
    ensures Sound(m.(tables := AcknowledgeAll(m.tables, pairs)), decode)
  {
    StepKeepsSound(m, Acknowledge(pairs), decode);
    hide Sound, AcknowledgeAll;
  }

  lemma OneRowLess(handoff: map<string, Entry>, id: string)
    requires id in handoff
    ensures |handoff - {id}| == |handoff| - 1
  {
    assert (handoff - {id}).Keys == handoff.Keys - {id};
  }

  lemma BuiltFile(before: Bytes, labels: seq<Label>, k: nat, hash: Hash, codec: Codec<LedgerRow>,
                  latest: map<string, Entry>)
    requires latest == Replay(IndexRows(Rows(Repaired(before, codec.decode), codec.decode)))
    requires k <= |Written(PendingRows(latest, labels, hash), codec)|
    ensures var written := Written(PendingRows(latest, labels, hash), codec);
      BuildStep(before, Repaired(before, codec.decode) + written[..k], labels, k, hash, codec)
  {
    hide Repaired, Rows, IndexRows, Replay, PendingRows, Written;
  }

  lemma EmptyUpsert(t: Tables)
    ensures UpsertAll(t, IndexRows([])) == t
  {
  }

  /** What one more due snapshot adds to the chosen rows. */
  lemma DueAdds(latest: map<string, Entry>, due: seq<Due>, d: Due, hash: Hash)
    ensures PendingRows(latest, Buildable(due + [d]), hash)
         == PendingRows(latest, Buildable(due), hash)
            + (if Kept(d).Some? then AsSeq(RowFor(latest, Kept(d).value, hash)) else [])
  {
    hide RowFor;
    JoinEndsAsSecond(due, [d]);
    assert due + [] == due;
    var labels := Buildable(due);
    AsSeqCases(labels, Kept(d));
    if Kept(d).Some? {
      JoinEndsAsSecond(labels, [Kept(d).value]);
      assert labels + [] == labels;
    }
  }

  lemma NothingPending(latest: map<string, Entry>, hash: Hash)
    ensures Buildable([]) == [] && PendingRows(latest, [], hash) == []
  {
  }

  lemma EmptySlice(t: Tables, decode: Decode)
    ensures UpsertAll(t, IndexRows(Rows([], decode))) == t
  {
    assert Lines([]) == [];
  }
}
