/** Choosing the rows a bounded build appends, and the revision chain they form. */
module RevisionChain {
  import opened Text
  import opened LedgerBytes
  import opened OutcomeTables

  /** The content hash of a label; it sees neither the revision nor earlier rows. */
  type Hash = Label -> string

  /** The stored row of a snapshot, looked up by the id exactly as the snapshot spells it. */
  function PriorRow(latest: map<string, Entry>, snapshotId: string): Option<LedgerRow> {
    if snapshotId in latest then latest[snapshotId].row else None
  }

  /** The row a label adds, unless its content is already the latest one. */
  function RowFor(latest: map<string, Entry>, content: Label, hash: Hash): Option<LedgerRow> {
    match PriorRow(latest, content.snapshotId)
    case None => Some(LedgerRow(content, hash(content), Some(1)))
    case Some(prior) =>
      if prior.recordId == hash(content) then None
      else Some(LedgerRow(content, hash(content), Some((if prior.revision.Some? then prior.revision.value else 0) + 1)))
  }

  function PendingRows(latest: map<string, Entry>, labels: seq<Label>, hash: Hash): seq<LedgerRow> {
    if labels == [] then []
    else
      PendingRows(latest, labels[..|labels| - 1], hash) + AsSeq(RowFor(latest, labels[|labels| - 1], hash))
  }

  /** The rows of one snapshot, in ledger order. */
  function Of(rows: seq<IndexRow>, id: string): seq<Entry> {
    if rows == [] then []
    else
      var last := rows[|rows| - 1];
      Of(rows[..|rows| - 1], id) + if last.id == id then [last.entry] else []
  }

  /** Revisions 1, 2, 3, ... and a new record id at every step. */
  ghost predicate Chained(c: seq<Entry>) {
    forall i | 0 <= i < |c| ::
      c[i].revision == i + 1 && c[i].row.Some? && c[i].row.value.revision == Some(i + 1)
      && (i > 0 && c[i - 1].row.Some? ==> c[i].row.value.recordId != c[i - 1].row.value.recordId)
  }

  ghost predicate Chain(rows: seq<IndexRow>) {
    forall id :: Chained(Of(rows, id))
  }

  lemma PrefixOfChained(c: seq<Entry>, d: seq<Entry>)
    requires Chained(c + d)
    ensures Chained(c)
  {
    assert forall i | 0 <= i < |c| :: (c + d)[i] == c[i];
  }

  lemma LastOfChained(c: seq<Entry>, e: Entry)
    requires Chained(c + [e])
    ensures Chained(c) && e.revision == |c| + 1 && (c + [e])[|c|] == e
    ensures c != [] ==> c[|c| - 1].revision == |c|
  {
    PrefixOfChained(c, [e]);
    assert (c + [e])[|c|] == e;
  }

  /** In a chain the index holds the last row of each snapshot. */
  lemma {:induction false} IndexHoldsLastOfChain(rows: seq<IndexRow>, id: string)
    requires Chained(Of(rows, id))
    ensures id in Replay(rows) <==> Of(rows, id) != []
    ensures id in Replay(rows) ==> Replay(rows)[id] == Of(rows, id)[|Of(rows, id)| - 1]
  {
    if rows != [] {
      hide *;
      var n := |rows| - 1;
      var before, last := Of(rows[..n], id), rows[n];
      if last.id == id {
        LastOfChained(before, last.entry);
      } else {
        assert before + [] == before;
      }
      IndexHoldsLastOfChain(rows[..n], id);
    }
  }

  lemma OfAppended(rows: seq<IndexRow>, r: IndexRow, id: string)
    ensures Of(rows + [r], id) == Of(rows, id) + if r.id == id then [r.entry] else []
  {
    JoinEndsAsSecond(rows, [r]);
    assert rows + [] == rows;
    hide Of;
  }

  ghost predicate Extends(c: seq<Entry>, e: Entry) {
    e.revision == |c| + 1 && e.row.Some? && e.row.value.revision == Some(|c| + 1)
    && (c != [] && c[|c| - 1].row.Some? ==> e.row.value.recordId != c[|c| - 1].row.value.recordId)
  }

  lemma ChainedGrows(c: seq<Entry>, e: Entry)
    requires Chained(c)
    ensures Chained(c + [e]) <==> Extends(c, e)
  {
    assert forall i | 0 <= i < |c| :: (c + [e])[i] == c[i];
    assert (c + [e])[|c|] == e;
  }

  /** One more row extends its snapshot's chain exactly when it carries the next revision
      and a new record id. */
  lemma ChainGrowsByOne(rows: seq<IndexRow>, r: IndexRow)
    requires Chain(rows)
    ensures Chain(rows + [r]) <==> Extends(Of(rows, r.id), r.entry)
  {
    assert Chained(Of(rows, r.id));
    ChainedGrows(Of(rows, r.id), r.entry);
    OfAppended(rows, r, r.id);
    hide Extends, Chained, Of;
    if Extends(Of(rows, r.id), r.entry) {
      forall id ensures Chained(Of(rows + [r], id)) {
        OfAppended(rows, r, id);
        assert Chained(Of(rows, id));
        assert Of(rows, id) + [] == Of(rows, id);
      }
    }
  }

  lemma {:induction false} IndexRowsAreStripped(rows: seq<LedgerRow>, i: nat)
    requires i < |IndexRows(rows)|
    ensures var id := IndexRows(rows)[i].id; Strip(id) == id && id != ""
  {
    var n := |rows| - 1;
    var before, last := IndexRows(rows[..n]), OutcomeTables.Indexed(rows[n]);
    hide Strip;
    if i < |before| {
      IndexRowsAreStripped(rows[..n], i);
    } else {
      StripIsIdempotent(rows[n].content.snapshotId);
    }
  }

  lemma IndexedKeysAreStripped(rows: seq<LedgerRow>, id: string)
    requires id in Replay(IndexRows(rows))
    ensures Strip(id) == id && id != ""
  {
    hide Strip, Replay, IndexRows;
    var i := ReplayHasGoverningRow(IndexRows(rows), id);
    IndexRowsAreStripped(rows, i);
  }

  lemma IndexRowsAppended(rows: seq<LedgerRow>, row: LedgerRow)
    ensures IndexRows(rows + [row]) == IndexRows(rows) + AsSeq(OutcomeTables.Indexed(row))
  {
    hide OutcomeTables.Indexed;
    JoinEndsAsSecond(rows, [row]);
    assert rows + [] == rows;
  }

  /** Exactly when one new row keeps the chain: the snapshot spells its id without
      surrounding white space, or the index has not met the stripped id yet. */
  lemma RowKeepsChainIff(rows: seq<LedgerRow>, content: Label, hash: Hash)
    requires Chain(IndexRows(rows))
    requires RowFor(Replay(IndexRows(rows)), content, hash).Some?
    ensures var latest, row := Replay(IndexRows(rows)), RowFor(Replay(IndexRows(rows)), content, hash).value;
      Chain(IndexRows(rows + [row])) <==>
        (Strip(content.snapshotId) == content.snapshotId || Strip(content.snapshotId) !in latest)
  {
    hide Strip, IndexRows, Replay, Of;
    var index := IndexRows(rows);
    var row := RowFor(Replay(index), content, hash).value;
    var id := Strip(content.snapshotId);
    IndexRowsAppended(rows, row);
    assert Chained(Of(index, id));
    IndexHoldsLastOfChain(index, id);
    if content.snapshotId in Replay(index) {
      IndexedKeysAreStripped(rows, content.snapshotId);
    }
    if id != "" {
      ChainGrowsByOne(index, OutcomeTables.Indexed(row).value);
    } else {
      assert index + [] == index;
      if "" in Replay(index) { IndexedKeysAreStripped(rows, ""); }
    }
  }

  lemma IndexOfOneRow(row: LedgerRow)
    requires Strip(row.content.snapshotId) != "" && row.revision.Some?
    ensures Replay(IndexRows([row])).Keys == {Strip(row.content.snapshotId)}
  {
    hide Strip;
    var r := OutcomeTables.Indexed(row).value;
    hide OutcomeTables.Indexed;
    IndexRowsAppended([], row);
    assert [] + [row] == [row] && [] + [r] == [r];
    hide IndexRows;
    assert [r][..0] == [];
    assert Replay([r]) == map[r.id := r.entry];
  }

  lemma EmptyChain()
    ensures Chain(IndexRows([])) && Replay(IndexRows([])) == map[]
  {
    assert forall id :: Of([], id) == [];
  }

  lemma NoPriorRow(latest: map<string, Entry>, content: Label, hash: Hash)
    requires content.snapshotId !in latest
    ensures RowFor(latest, content, hash) == Some(LedgerRow(content, hash(content), Some(1)))
  {
  }

  /** A padded id repeats revision 1, and does so although nothing about the label changed:
      the index keeps the stripped id, and the next build looks up the padded one. */
  lemma PaddedIdRepeatsRevisionOne(content: Label, hash: Hash)
    requires Strip(content.snapshotId) != content.snapshotId && Strip(content.snapshotId) != ""
    ensures var row := LedgerRow(content, hash(content), Some(1));
      && RowFor(Replay(IndexRows([])), content, hash) == Some(row)
      && RowFor(Replay(IndexRows([row])), content, hash) == Some(row)
      && !Chain(IndexRows([row, row]))
  {
    hide *;
    var row := LedgerRow(content, hash(content), Some(1));
    EmptyChain();
    IndexOfOneRow(row);
    NoPriorRow(Replay(IndexRows([])), content, hash);
    NoPriorRow(Replay(IndexRows([row])), content, hash);
    assert [row] + [row] == [row, row] && [] + [row] == [row];
    RowKeepsChainIff([], content, hash);
    RowKeepsChainIff([row], content, hash);
  }

  lemma StripStartSkips(pad: char, id: string)
    requires IsSpace(pad)
    ensures StripStart([pad] + id) == StripStart(id)
  {
    assert ([pad] + id)[1..] == id;
    hide IsSpace;
  }

  lemma PaddingStripsAway(pad: char, id: string)
    requires IsSpace(pad) && Strip(id) == id
    ensures Strip([pad] + id) == id != [pad] + id
  {
    StripStartSkips(pad, id);
    hide StripStart, StripEnd;
    assert |[pad] + id| == |id| + 1;
  }

  /** Every id has such a spelling: any white space before it makes its builds repeat revision 1. */
  lemma EveryIdCanBePadded(content: Label, pad: char, hash: Hash)
    requires IsSpace(pad) && Strip(content.snapshotId) == content.snapshotId && content.snapshotId != ""
    ensures var padded := content.(snapshotId := [pad] + content.snapshotId);
      var row := LedgerRow(padded, hash(padded), Some(1));
      && Strip(padded.snapshotId) == content.snapshotId
      && RowFor(Replay(IndexRows([])), padded, hash) == Some(row)
      && RowFor(Replay(IndexRows([row])), padded, hash) == Some(row)
      && !Chain(IndexRows([row, row]))
  {
    hide *;
    PaddingStripsAway(pad, content.snapshotId);
    PaddedIdRepeatsRevisionOne(content.(snapshotId := [pad] + content.snapshotId), hash);
  }

  /** The queue gives a build at most one label per snapshot, and these are spelled plainly. */
  ghost predicate PlainBatch(labels: seq<Label>) {
    && (forall i | 0 <= i < |labels| ::
         Strip(labels[i].snapshotId) == labels[i].snapshotId && labels[i].snapshotId != "")
    && forall i, j | 0 <= i < j < |labels| :: labels[i].snapshotId != labels[j].snapshotId
  }

  lemma {:induction false} PendingRowsComeFromLabels(latest: map<string, Entry>, labels: seq<Label>, hash: Hash)
    ensures forall row | row in PendingRows(latest, labels, hash) :: row.content in labels
  {
    if labels != [] {
      PendingRowsComeFromLabels(latest, labels[..|labels| - 1], hash);
      assert labels == labels[..|labels| - 1] + [labels[|labels| - 1]];
    }
  }

  /** Nothing in `extra` belongs to `id`. */
  ghost predicate Foreign(extra: seq<LedgerRow>, id: string) {
    forall row | row in extra :: Strip(row.content.snapshotId) != id
  }

  lemma {:induction false} OfOthers(rows: seq<LedgerRow>, extra: seq<LedgerRow>, id: string)
    requires Foreign(extra, id)
    ensures Of(IndexRows(rows + extra), id) == Of(IndexRows(rows), id)
    decreases |extra|
  {
    hide Strip, IndexRows, Of;
    if extra == [] {
      assert rows + extra == rows;
    } else {
      var n := |extra| - 1;
      var row := extra[n];
      assert extra == extra[..n] + [row] && rows + extra == rows + extra[..n] + [row];
      OfOthers(rows, extra[..n], id);
      var before := IndexRows(rows + extra[..n]);
      IndexRowsAppended(rows + extra[..n], row);
      assert before + [] == before;
      if OutcomeTables.Indexed(row).Some? {
        OfAppended(before, OutcomeTables.Indexed(row).value, id);
        assert Of(before, id) + [] == Of(before, id);
      }
    }
  }

  /** Rows of other snapshots do not change the row a label adds. */
  lemma ForeignRowsDoNotMatter(rows: seq<LedgerRow>, extra: seq<LedgerRow>, content: Label, hash: Hash)
    requires Chain(IndexRows(rows)) && Chain(IndexRows(rows + extra)) && Foreign(extra, content.snapshotId)
    ensures RowFor(Replay(IndexRows(rows + extra)), content, hash) == RowFor(Replay(IndexRows(rows)), content, hash)
  {
    hide Strip, IndexRows, Replay, Of, Foreign;
    var id := content.snapshotId;
    OfOthers(rows, extra, id);
    assert Chained(Of(IndexRows(rows), id)) && Chained(Of(IndexRows(rows + extra), id));
    IndexHoldsLastOfChain(IndexRows(rows), id);
    IndexHoldsLastOfChain(IndexRows(rows + extra), id);
  }

  lemma PlainRowExtendsChain(rows: seq<LedgerRow>, extra: seq<LedgerRow>, content: Label, hash: Hash)
    requires Chain(IndexRows(rows)) && Chain(IndexRows(rows + extra)) && Foreign(extra, content.snapshotId)
    requires Strip(content.snapshotId) == content.snapshotId
    ensures Chain(IndexRows(rows + (extra + AsSeq(RowFor(Replay(IndexRows(rows)), content, hash)))))
  {
    hide *;
    var row := RowFor(Replay(IndexRows(rows)), content, hash);
    AsSeqCases(extra, row);
    ForeignRowsDoNotMatter(rows, extra, content, hash);
    AppendIsAssociative(rows, extra, AsSeq(row));
    if row.Some? {
      RowKeepsChainIff(rows + extra, content, hash);
    }
  }

  lemma ChainAt(rows: seq<IndexRow>, id: string)
    requires Chain(rows)
    ensures Chained(Of(rows, id))
  {
  }

  lemma PlainRowIsIndexed(row: LedgerRow)
    requires Strip(row.content.snapshotId) == row.content.snapshotId != "" && row.revision.Some?
    ensures var r := OutcomeTables.Indexed(row);
      r.Some? && r.value.id == row.content.snapshotId && r.value.entry.row == Some(row)
  {
    hide Strip;
  }

  lemma RowForShape(latest: map<string, Entry>, content: Label, hash: Hash)
    requires RowFor(latest, content, hash).Some?
    ensures var row := RowFor(latest, content, hash).value;
      row.content == content && row.recordId == hash(content) && row.revision.Some?
  {
  }

  lemma SameContentAddsNothing(latest: map<string, Entry>, content: Label, hash: Hash, row: LedgerRow)
    requires content.snapshotId in latest && latest[content.snapshotId].row == Some(row)
    requires row.recordId == hash(content)
    ensures RowFor(latest, content, hash).None?
  {
  }

  /** Once its row is in the ledger, a label adds nothing more. */
  lemma RowSettlesLabel(rows: seq<LedgerRow>, content: Label, hash: Hash)
    requires Chain(IndexRows(rows)) && Strip(content.snapshotId) == content.snapshotId != ""
    requires RowFor(Replay(IndexRows(rows)), content, hash).Some?
    ensures var row := RowFor(Replay(IndexRows(rows)), content, hash).value;
      RowFor(Replay(IndexRows(rows + [row])), content, hash).None?
  {
    hide *;
    var row := RowFor(Replay(IndexRows(rows)), content, hash).value;
    var id := content.snapshotId;
    RowForShape(Replay(IndexRows(rows)), content, hash);
    RowKeepsChainIff(rows, content, hash);
    PlainRowIsIndexed(row);
    var r := OutcomeTables.Indexed(row);
    AsSeqCases(IndexRows(rows), r);
    IndexRowsAppended(rows, row);
    OfAppended(IndexRows(rows), r.value, id);
    ChainAt(IndexRows(rows + [row]), id);
    IndexHoldsLastOfChain(IndexRows(rows + [row]), id);
    SameContentAddsNothing(Replay(IndexRows(rows + [row])), content, hash, row);
  }

  /** The pending rows of the earlier labels of a plain batch do not touch a later one. */
  lemma EarlierLabelsAreForeign(latest: map<string, Entry>, labels: seq<Label>, hash: Hash, n: nat)
    requires PlainBatch(labels) && n < |labels|
    ensures Foreign(PendingRows(latest, labels[..n], hash), labels[n].snapshotId)
  {
    var p := PendingRows(latest, labels[..n], hash);
    PendingRowsComeFromLabels(latest, labels[..n], hash);
    hide Strip;
    forall row | row in p ensures Strip(row.content.snapshotId) != labels[n].snapshotId {
      var i :| 0 <= i < n && labels[i] == row.content;
    }
  }

  lemma PlainPrefix(labels: seq<Label>, n: nat)
    requires PlainBatch(labels) && n <= |labels|
    ensures PlainBatch(labels[..n])
    ensures n < |labels| ==> Strip(labels[n].snapshotId) == labels[n].snapshotId
  {
    hide Strip;
  }

  lemma PendingRowsEnd(latest: map<string, Entry>, labels: seq<Label>, hash: Hash)
    requires labels != []
    ensures PendingRows(latest, labels, hash)
         == PendingRows(latest, labels[..|labels| - 1], hash) + AsSeq(RowFor(latest, labels[|labels| - 1], hash))
  {
  }

  /** The pending rows of a plain batch keep the chain. */
  lemma {:induction false} BatchKeepsChain(rows: seq<LedgerRow>, labels: seq<Label>, hash: Hash)
    requires Chain(IndexRows(rows)) && PlainBatch(labels)
    ensures Chain(IndexRows(rows + PendingRows(Replay(IndexRows(rows)), labels, hash)))
  {
    if labels == [] {
      assert rows + [] == rows;
    } else {
      hide *;
      var n := |labels| - 1;
      var latest := Replay(IndexRows(rows));
      PlainPrefix(labels, n);
      BatchKeepsChain(rows, labels[..n], hash);
      EarlierLabelsAreForeign(latest, labels, hash, n);
      PlainRowExtendsChain(rows, PendingRows(latest, labels[..n], hash), labels[n], hash);
      PendingRowsEnd(latest, labels, hash);
    }
  }

  /** Any number of the pending rows, in order, are the pending rows of the first labels. */
  lemma {:induction false} PrefixOfPending(latest: map<string, Entry>, labels: seq<Label>, hash: Hash,
        k: nat) returns (m: nat)
    requires k <= |PendingRows(latest, labels, hash)|
    ensures m <= |labels| && PendingRows(latest, labels, hash)[..k] == PendingRows(latest, labels[..m], hash)
  {
    if k == |PendingRows(latest, labels, hash)| {
      m := |labels|;
      assert labels[..m] == labels;
    } else {
      var n := |labels| - 1;
      PendingRowsEnd(latest, labels, hash);
      hide *;
      m := PrefixOfPending(latest, labels[..n], hash, k);
      assert labels[..n][..m] == labels[..m];
    }
  }

  // ----- any batch at all -----

  lemma {:induction false} PendingRowsAreChosen(latest: map<string, Entry>, labels: seq<Label>, hash: Hash)
    ensures forall row | row in PendingRows(latest, labels, hash) :: RowFor(latest, row.content, hash) == Some(row)
  {
    if labels != [] {
      PendingRowsAreChosen(latest, labels[..|labels| - 1], hash);
      PendingRowsEnd(latest, labels, hash);
      if RowFor(latest, labels[|labels| - 1], hash).Some? {
        RowForShape(latest, labels[|labels| - 1], hash);
      }
      hide RowFor, PendingRows;
    }
  }

  /** One row fits after others chosen in the same build: its id is blank and the row is not
      indexed, or the id is spelled plainly or new to the index and no earlier row has it. */
  ghost predicate RowFits(latest: map<string, Entry>, earlier: seq<LedgerRow>, row: LedgerRow) {
    var id := Strip(row.content.snapshotId);
    id == "" || ((id == row.content.snapshotId || id !in latest) && Foreign(earlier, id))
  }

  ghost predicate RowsFit(latest: map<string, Entry>, p: seq<LedgerRow>) {
    forall i | 0 <= i < |p| :: RowFits(latest, p[..i], p[i])
  }

  lemma RowsFitOneMore(latest: map<string, Entry>, p: seq<LedgerRow>)
    requires p != []
    ensures RowsFit(latest, p) <==> RowsFit(latest, p[..|p| - 1]) && RowFits(latest, p[..|p| - 1], p[|p| - 1])
  {
    hide RowFits;
    var n := |p| - 1;
    assert forall i | 0 <= i < n :: p[..n][..i] == p[..i] && p[..n][i] == p[i];
  }

  /** The rows of a snapshot in a longer ledger begin with those of the shorter one. */
  lemma {:induction false} OfPrefix(rows: seq<LedgerRow>, extra: seq<LedgerRow>, id: string) returns (more: seq<Entry>)
    ensures Of(IndexRows(rows + extra), id) == Of(IndexRows(rows), id) + more
    ensures !Foreign(extra, id) && id != "" && (forall row | row in extra :: row.revision.Some?) ==> more != []
    decreases |extra|
  {
    hide Strip, IndexRows, Of;
    more := [];
    if extra == [] {
      assert rows + extra == rows;
    } else {
      var n := |extra| - 1;
      var row := extra[n];
      assert extra == extra[..n] + [row] && rows + extra == rows + extra[..n] + [row];
      more := OfPrefix(rows, extra[..n], id);
      var before := IndexRows(rows + extra[..n]);
      IndexRowsAppended(rows + extra[..n], row);
      assert before + [] == before;
      if OutcomeTables.Indexed(row).Some? {
        var r := OutcomeTables.Indexed(row).value;
        OfAppended(before, r, id);
        var last := if r.id == id then [r.entry] else [];
        AppendIsAssociative(Of(IndexRows(rows), id), more, last);
        more := more + last;
      }
    }
  }

  lemma ChainOfPrefix(rows: seq<LedgerRow>, extra: seq<LedgerRow>)
    requires Chain(IndexRows(rows + extra))
    ensures Chain(IndexRows(rows))
  {
    hide IndexRows, Of, Chained;
    forall id ensures Chained(Of(IndexRows(rows), id)) {
      var more := OfPrefix(rows, extra, id);
      assert Chained(Of(IndexRows(rows + extra), id));
      PrefixOfChained(Of(IndexRows(rows), id), more);
    }
  }

  /** A chosen row carries at most the next revision of its snapshot. */
  lemma RevisionIsAtMostNext(rows: seq<LedgerRow>, row: LedgerRow, hash: Hash)
    requires Chain(IndexRows(rows)) && RowFor(Replay(IndexRows(rows)), row.content, hash) == Some(row)
    ensures row.revision.Some? && row.revision.value <= |Of(IndexRows(rows), Strip(row.content.snapshotId))| + 1
  {
    hide Strip, IndexRows, Replay, Of;
    var id := row.content.snapshotId;
    if id in Replay(IndexRows(rows)) {
      IndexedKeysAreStripped(rows, id);
      assert Chained(Of(IndexRows(rows), id));
      IndexHoldsLastOfChain(IndexRows(rows), id);
    }
  }

  lemma RowFitsIff(rows: seq<LedgerRow>, q: seq<LedgerRow>, row: LedgerRow, hash: Hash)
    requires Chain(IndexRows(rows)) && Chain(IndexRows(rows + q))
    requires RowFor(Replay(IndexRows(rows)), row.content, hash) == Some(row)
    requires forall r | r in q :: r.revision.Some?
    ensures Chain(IndexRows(rows + q + [row])) <==> RowFits(Replay(IndexRows(rows)), q, row)
  {
    hide Strip, IndexRows, Replay, Of, Chain, Foreign, RowFor;
    var id := Strip(row.content.snapshotId);
    IndexRowsAppended(rows + q, row);
    IndexRowsAppended(rows, row);
    RevisionIsAtMostNext(rows, row, hash);
    var long, short := IndexRows(rows + q), IndexRows(rows);
    if id == "" {
      assert long + [] == long;
    } else {
      var r := OutcomeTables.Indexed(row).value;
      ChainGrowsByOne(long, r);
      ChainGrowsByOne(short, r);
      RowKeepsChainIff(rows, row.content, hash);
      if Foreign(q, id) {
        OfOthers(rows, q, id);
      } else {
        var more := OfPrefix(rows, q, id);
      }
    }
  }

  /** Exactly when the rows a build has chosen keep the chain: each of them fits after those
      before it. */
  lemma {:induction false} ChosenRowsKeepChainIff(rows: seq<LedgerRow>, p: seq<LedgerRow>, hash: Hash)
    requires Chain(IndexRows(rows))
    requires forall row | row in p :: RowFor(Replay(IndexRows(rows)), row.content, hash) == Some(row)
    ensures Chain(IndexRows(rows + p)) <==> RowsFit(Replay(IndexRows(rows)), p)
  {
    if p == [] {
      assert rows + p == rows;
    } else {
      hide IndexRows, Replay, Chain, RowsFit, RowFits, RowFor;
      var n := |p| - 1;
      assert p == p[..n] + [p[n]];
      ChosenRowsKeepChainIff(rows, p[..n], hash);
      RowsFitOneMore(Replay(IndexRows(rows)), p);
      AppendIsAssociative(rows, p[..n], [p[n]]);
      if Chain(IndexRows(rows + p[..n])) {
        forall r | r in p[..n] ensures r.revision.Some? {
          RowForShape(Replay(IndexRows(rows)), r.content, hash);
        }
        RowFitsIff(rows, p[..n], p[n], hash);
      } else if Chain(IndexRows(rows + p)) {
        ChainOfPrefix(rows + p[..n], [p[n]]);
      }
    }
  }

  /** One build: repair the tail, index the whole file, choose the rows, append them, and
      be killed after `cut` appended bytes (or not, when `cut` is all of them). */
  ghost predicate BuildStep(before: Bytes, after: Bytes, labels: seq<Label>, cut: nat, hash: Hash,
                            codec: Codec<LedgerRow>) {
    var base := Repaired(before, codec.decode);
    var written := Written(PendingRows(Replay(IndexRows(Rows(base, codec.decode))), labels, hash), codec);
    cut <= |written| && after == base + written[..cut]
  }

  ghost predicate BuildRun(files: seq<Bytes>, batches: seq<seq<Label>>, cuts: seq<nat>, hash: Hash,
                           codec: Codec<LedgerRow>) {
    |files| == |batches| + 1 == |cuts| + 1 && files[0] == []
    && forall i | 0 <= i < |batches| :: BuildStep(files[i], files[i + 1], batches[i], cuts[i], hash, codec)
  }

  lemma BuildStepKeepsChain(before: Bytes, after: Bytes, labels: seq<Label>, cut: nat, hash: Hash,
                            codec: Codec<LedgerRow>)
    requires IsObjectCodec(codec) && BuildStep(before, after, labels, cut, hash, codec) && PlainBatch(labels)
    requires Chain(IndexRows(Rows(Repaired(before, codec.decode), codec.decode)))
    ensures Chain(IndexRows(Rows(Repaired(after, codec.decode), codec.decode)))
  {
    var base := Repaired(before, codec.decode);
    var rows := Rows(base, codec.decode);
    var latest := Replay(IndexRows(rows));
    var p := PendingRows(latest, labels, hash);
    assert cut <= |Written(p, codec)| && after == base + Written(p, codec)[..cut];
    assert Boundary(base, |base|);
    hide *;
    TornAppendKeepsWholeRows(base, p, cut, codec);
    var k := Survivors(p, cut, codec);
    var m := PrefixOfPending(latest, labels, hash, k);
    PlainPrefix(labels, m);
    BatchKeepsChain(rows, labels[..m], hash);
  }

  /** The rows of a build that reach the ledger whole fit it. */
  ghost predicate BuildFits(before: Bytes, labels: seq<Label>, cut: nat, hash: Hash, codec: Codec<LedgerRow>) {
    var latest := Replay(IndexRows(Rows(Repaired(before, codec.decode), codec.decode)));
    var p := PendingRows(latest, labels, hash);
    RowsFit(latest, p[..Survivors(p, cut, codec)])
  }

  lemma BuildStepKeepsChainIff(before: Bytes, after: Bytes, labels: seq<Label>, cut: nat, hash: Hash,
                               codec: Codec<LedgerRow>)
    requires IsObjectCodec(codec) && BuildStep(before, after, labels, cut, hash, codec)
    requires Chain(IndexRows(Rows(Repaired(before, codec.decode), codec.decode)))
    ensures Chain(IndexRows(Rows(Repaired(after, codec.decode), codec.decode)))
       <==> BuildFits(before, labels, cut, hash, codec)
  {
    var base := Repaired(before, codec.decode);
    var rows := Rows(base, codec.decode);
    var latest := Replay(IndexRows(rows));
    var p := PendingRows(latest, labels, hash);
    var k := Survivors(p, cut, codec);
    assert cut <= |Written(p, codec)| && after == base + Written(p, codec)[..cut];
    assert Boundary(base, |base|);
    assert BuildFits(before, labels, cut, hash, codec) <==> RowsFit(latest, p[..k]);
    assert forall row | row in p[..k] :: row in p;
    hide *;
    TornAppendKeepsWholeRows(base, p, cut, codec);
    PendingRowsAreChosen(latest, labels, hash);
    ChosenRowsKeepChainIff(rows, p[..k], hash);
  }

  lemma BuildRunShape(files: seq<Bytes>, batches: seq<seq<Label>>, cuts: seq<nat>, hash: Hash, codec: Codec<LedgerRow>)
    requires BuildRun(files, batches, cuts, hash, codec)
    ensures |files| == |batches| + 1 == |cuts| + 1
  {
    hide BuildStep;
  }

  lemma BuildRunStarts(files: seq<Bytes>, batches: seq<seq<Label>>, cuts: seq<nat>, hash: Hash, codec: Codec<LedgerRow>)
    requires BuildRun(files, batches, cuts, hash, codec)
    ensures Chain(IndexRows(Rows(Repaired(files[0], codec.decode), codec.decode)))
  {
    assert Lines([]) == [];
    assert Rows(Repaired([], codec.decode), codec.decode) == [];
    hide BuildStep;
  }

  lemma BuildRunStep(files: seq<Bytes>, batches: seq<seq<Label>>, cuts: seq<nat>, hash: Hash,
                     codec: Codec<LedgerRow>, i: nat)
    requires BuildRun(files, batches, cuts, hash, codec) && i < |batches|
    ensures BuildStep(files[i], files[i + 1], batches[i], cuts[i], hash, codec)
  {
    hide BuildStep;
  }

  /** In a file, each snapshot's rows read 1, 2, 3, ... without gap or repeat, and neighbouring
      rows differ in record id. */
  ghost predicate FileChains(file: Bytes, decode: Decoder<LedgerRow>) {
    Chain(IndexRows(Rows(Repaired(file, decode), decode)))
  }

  ghost predicate FitsUpTo(files: seq<Bytes>, batches: seq<seq<Label>>, cuts: seq<nat>, hash: Hash,
                           codec: Codec<LedgerRow>, i: nat) {
    forall j | 0 <= j < i && j < |files| && j < |batches| && j < |cuts| ::
      BuildFits(files[j], batches[j], cuts[j], hash, codec)
  }

  ghost predicate ChainsUpTo(files: seq<Bytes>, decode: Decoder<LedgerRow>, i: nat) {
    forall j | 0 <= j <= i && j < |files| :: FileChains(files[j], decode)
  }

  lemma OneMoreBuild(files: seq<Bytes>, batches: seq<seq<Label>>, cuts: seq<nat>, hash: Hash,
                     codec: Codec<LedgerRow>, i: nat)
    requires i < |files| && i < |batches| && i < |cuts| && i + 1 < |files|
    ensures FitsUpTo(files, batches, cuts, hash, codec, i + 1)
       <==> FitsUpTo(files, batches, cuts, hash, codec, i) && BuildFits(files[i], batches[i], cuts[i], hash, codec)
    ensures ChainsUpTo(files, codec.decode, i + 1)
       <==> ChainsUpTo(files, codec.decode, i) && FileChains(files[i + 1], codec.decode)
    ensures ChainsUpTo(files, codec.decode, i) ==> FileChains(files[i], codec.decode)
  {
    hide BuildFits, FileChains;
  }

  lemma NoBuildYet(files: seq<Bytes>, batches: seq<seq<Label>>, cuts: seq<nat>, hash: Hash, codec: Codec<LedgerRow>)
    requires files != [] && FileChains(files[0], codec.decode)
    ensures FitsUpTo(files, batches, cuts, hash, codec, 0) && ChainsUpTo(files, codec.decode, 0)
  {
    hide FileChains;
  }

  /** Over any sequence of bounded builds from an empty ledger, whatever their batches, killed
      after any byte: the revision chains are whole after every build if and only if the rows
      that reached the ledger fitted it in every build. */
  lemma {:induction false} EveryBuildKeepsChainIff(files: seq<Bytes>, batches: seq<seq<Label>>, cuts: seq<nat>,
                                                   hash: Hash, codec: Codec<LedgerRow>, i: nat)
    requires BuildRun(files, batches, cuts, hash, codec) && IsObjectCodec(codec) && i < |files|
    ensures ChainsUpTo(files, codec.decode, i) <==> FitsUpTo(files, batches, cuts, hash, codec, i)
  {
    assert forall j | 0 <= j < |files| ::
      FileChains(files[j], codec.decode) == Chain(IndexRows(Rows(Repaired(files[j], codec.decode), codec.decode)));
    hide *;
    BuildRunShape(files, batches, cuts, hash, codec);
    if i == 0 {
      BuildRunStarts(files, batches, cuts, hash, codec);
      NoBuildYet(files, batches, cuts, hash, codec);
    } else {
      EveryBuildKeepsChainIff(files, batches, cuts, hash, codec, i - 1);
      OneMoreBuild(files, batches, cuts, hash, codec, i - 1);
      BuildRunStep(files, batches, cuts, hash, codec, i - 1);
      if FileChains(files[i - 1], codec.decode) {
        BuildStepKeepsChainIff(files[i - 1], files[i], batches[i - 1], cuts[i - 1], hash, codec);
      }
    }
  }

  /** In particular the chains are whole after every build of plain batches, crashed or not. */
  lemma {:induction false} EveryBuildKeepsChain(files: seq<Bytes>, batches: seq<seq<Label>>, cuts: seq<nat>,
                                                hash: Hash, codec: Codec<LedgerRow>, i: nat)
    requires BuildRun(files, batches, cuts, hash, codec) && IsObjectCodec(codec) && i < |files|
    requires forall j | 0 <= j < |batches| :: PlainBatch(batches[j])
    ensures Chain(IndexRows(Rows(Repaired(files[i], codec.decode), codec.decode)))
  {
    hide *;
    BuildRunShape(files, batches, cuts, hash, codec);
    if i == 0 {
      BuildRunStarts(files, batches, cuts, hash, codec);
    } else {
      EveryBuildKeepsChain(files, batches, cuts, hash, codec, i - 1);
      BuildRunStep(files, batches, cuts, hash, codec, i - 1);
      BuildStepKeepsChain(files[i - 1], files[i], batches[i - 1], cuts[i - 1], hash, codec);
    }
  }

  ghost predicate Settled(rows: seq<LedgerRow>, labels: seq<Label>, hash: Hash) {
    forall c | c in labels :: RowFor(Replay(IndexRows(rows)), c, hash).None?
  }

  lemma {:induction false} SettledMeansNoRows(rows: seq<LedgerRow>, labels: seq<Label>, hash: Hash)
    requires Settled(rows, labels, hash)
    ensures PendingRows(Replay(IndexRows(rows)), labels, hash) == []
  {
    hide IndexRows, Replay, RowFor;
    if labels != [] {
      assert labels == labels[..|labels| - 1] + [labels[|labels| - 1]];
      SettledMeansNoRows(rows, labels[..|labels| - 1], hash);
    }
  }

  /** Appending the row of the last label keeps the earlier ones settled. */
  lemma SettledGrows(rows: seq<LedgerRow>, row: LedgerRow, labels: seq<Label>, hash: Hash)
    requires Chain(IndexRows(rows)) && Chain(IndexRows(rows + [row])) && Settled(rows, labels, hash)
    requires forall c | c in labels :: Strip(row.content.snapshotId) != c.snapshotId
    ensures Settled(rows + [row], labels, hash)
  {
    hide Strip, IndexRows, Replay, RowFor, Chain;
    forall c | c in labels ensures RowFor(Replay(IndexRows(rows + [row])), c, hash).None? {
      ForeignRowsDoNotMatter(rows, [row], c, hash);
    }
  }

  lemma PlainLast(labels: seq<Label>)
    requires labels != [] && PlainBatch(labels)
    ensures var c := labels[|labels| - 1];
      && Strip(c.snapshotId) == c.snapshotId != ""
      && forall d | d in labels[..|labels| - 1] :: Strip(c.snapshotId) != d.snapshotId
  {
    hide Strip;
  }

  lemma SettledByLast(rows: seq<LedgerRow>, labels: seq<Label>, hash: Hash)
    requires labels != [] && Settled(rows, labels[..|labels| - 1], hash)
    requires RowFor(Replay(IndexRows(rows)), labels[|labels| - 1], hash).None?
    ensures Settled(rows, labels, hash)
  {
    hide IndexRows, Replay, RowFor;
    assert labels == labels[..|labels| - 1] + [labels[|labels| - 1]];
  }

  lemma LastLabelSettles(rows: seq<LedgerRow>, extra: seq<LedgerRow>, labels: seq<Label>, hash: Hash)
    requires labels != [] && PlainBatch(labels) && Settled(rows + extra, labels[..|labels| - 1], hash)
    requires Chain(IndexRows(rows)) && Chain(IndexRows(rows + extra))
    requires Foreign(extra, labels[|labels| - 1].snapshotId)
    ensures Settled(rows + (extra + AsSeq(RowFor(Replay(IndexRows(rows)), labels[|labels| - 1], hash))), labels, hash)
  {
    hide *;
    var n := |labels| - 1;
    var c := labels[n];
    var row := RowFor(Replay(IndexRows(rows)), c, hash);
    AsSeqCases(extra, row);
    ForeignRowsDoNotMatter(rows, extra, c, hash);
    AppendIsAssociative(rows, extra, AsSeq(row));
    if row.Some? {
      PlainLast(labels);
      RowForShape(Replay(IndexRows(rows)), c, hash);
      RowSettlesLabel(rows + extra, c, hash);
      RowKeepsChainIff(rows + extra, c, hash);
      SettledGrows(rows + extra, row.value, labels[..n], hash);
      SettledByLast(rows + extra + [row.value], labels, hash);
    } else {
      SettledByLast(rows + extra, labels, hash);
    }
  }

  lemma {:induction false} BuildSettlesBatch(rows: seq<LedgerRow>, labels: seq<Label>, hash: Hash)
    requires Chain(IndexRows(rows)) && PlainBatch(labels)
    ensures Settled(rows + PendingRows(Replay(IndexRows(rows)), labels, hash), labels, hash)
  {
    if labels != [] {
      hide *;
      var n := |labels| - 1;
      var latest := Replay(IndexRows(rows));
      PlainPrefix(labels, n);
      BuildSettlesBatch(rows, labels[..n], hash);
      BatchKeepsChain(rows, labels[..n], hash);
      EarlierLabelsAreForeign(latest, labels, hash, n);
      PendingRowsEnd(latest, labels, hash);
      LastLabelSettles(rows, PendingRows(latest, labels[..n], hash), labels, hash);
    }
  }

  /** Re-running a build over unchanged labels appends nothing. */
  lemma RerunAppendsNothing(rows: seq<LedgerRow>, labels: seq<Label>, hash: Hash)
    requires Chain(IndexRows(rows)) && PlainBatch(labels)
    ensures var p := PendingRows(Replay(IndexRows(rows)), labels, hash);
      PendingRows(Replay(IndexRows(rows + p)), labels, hash) == []
  {
    hide *;
    BuildSettlesBatch(rows, labels, hash);
    SettledMeansNoRows(rows + PendingRows(Replay(IndexRows(rows)), labels, hash), labels, hash);
  }

  // ----- acknowledging along a chain -----

  /** Every row carries the content hash as its record id, and that is never blank. */
  ghost predicate Hashed(rows: seq<LedgerRow>, hash: Hash) {
    forall row | row in rows ::
      row.recordId == hash(row.content) && Strip(row.recordId) == row.recordId && row.recordId != ""
  }

  /** The index entries of one snapshot carry the content hashes of their rows. */
  ghost predicate HashedEntries(c: seq<Entry>, hash: Hash) {
    forall i | 0 <= i < |c| ::
      c[i].recordId != "" && c[i].row.Some? && c[i].recordId == hash(c[i].row.value.content)
  }

  lemma {:induction false} OfHashed(rows: seq<LedgerRow>, hash: Hash, id: string)
    requires Hashed(rows, hash)
    ensures HashedEntries(Of(IndexRows(rows), id), hash)
  {
    hide Strip, IndexRows, Of;
    if rows == [] {
      EmptyOf(id);
    } else {
      var n := |rows| - 1;
      var row := rows[n];
      assert rows == rows[..n] + [row];
      OfHashed(rows[..n], hash, id);
      IndexRowsAppended(rows[..n], row);
      assert IndexRows(rows[..n]) + [] == IndexRows(rows[..n]);
      if OutcomeTables.Indexed(row).Some? {
        OfAppended(IndexRows(rows[..n]), OutcomeTables.Indexed(row).value, id);
        assert Of(IndexRows(rows[..n]), id) + [] == Of(IndexRows(rows[..n]), id);
      }
    }
  }

  lemma EmptyOf(id: string)
    ensures Of(IndexRows([]), id) == [] && IndexRows([]) == []
  {
  }

  lemma UpsertEnds(rows: seq<IndexRow>, id: string)
    requires rows != []
    ensures var before, last := UpsertAll(EMPTY, rows[..|rows| - 1]), rows[|rows| - 1];
      var after := UpsertAll(EMPTY, rows);
      && (last.id != id ==> (id in after.handoff <==> id in before.handoff)
                            && (id in before.handoff ==> after.handoff[id] == before.handoff[id]))
      && (last.id == id && last.entry.recordId != ""
          && (id in before.handoff ==> last.entry.revision >= before.handoff[id].revision) ==>
            id in after.handoff && after.handoff[id] == last.entry)
  {
  }

  /** Along a chain whose rows carry record ids, the last row of each snapshot is waiting. */
  lemma {:induction false} LastOfChainWaits(rows: seq<IndexRow>, id: string)
    requires Chained(Of(rows, id)) && forall i | 0 <= i < |Of(rows, id)| :: Of(rows, id)[i].recordId != ""
    ensures var t := UpsertAll(EMPTY, rows);
      && (id in t.handoff <==> Of(rows, id) != [])
      && (id in t.handoff ==> t.handoff[id] == Of(rows, id)[|Of(rows, id)| - 1])
  {
    if rows != [] {
      hide *;
      var n := |rows| - 1;
      var before, last := Of(rows[..n], id), rows[n];
      UpsertEnds(rows, id);
      if last.id == id {
        LastOfChained(before, last.entry);
        assert forall i | 0 <= i < |before| :: (before + [last.entry])[i] == before[i];
        assert (before + [last.entry])[|before|] == last.entry;
      } else {
        assert before + [] == before;
      }
      LastOfChainWaits(rows[..n], id);
    }
  }

  lemma IndexedIsConsistent(rows: seq<LedgerRow>)
    ensures Consistent(UpsertAll(EMPTY, IndexRows(rows)))
  {
    assert Consistent(EMPTY) && NothingLost(EMPTY, {});
    hide *;
    IndexRowsComeFromLedger(rows);
    UpsertAllLosesNothing(EMPTY, IndexRows(rows), {});
  }

  lemma HashedAt(c: seq<Entry>, hash: Hash, k: nat)
    requires HashedEntries(c, hash) && k < |c|
    ensures c[k].row.Some? && c[k].recordId == hash(c[k].row.value.content)
    ensures forall i | 0 <= i < |c| :: c[i].recordId != ""
  {
  }

  /** Acknowledging one record id removes the waiting outcome of the snapshot exactly when it
      is the waiting record id. */
  lemma OneAcknowledgement(t: Tables, id: string, recordId: string)
    requires Consistent(t) && id in t.handoff
    ensures id !in AcknowledgeAll(t, [(id, recordId)]).handoff <==> recordId == t.handoff[id].recordId
  {
    hide AcknowledgeAll, Consistent;
    AcknowledgeRemovesExactlyItsRecord(t, [(id, recordId)], id);
  }

  /** The rule of acknowledgement on a chain: acknowledging the k-th revision removes the
      waiting last one if and only if the two contents have the same hash. */
  lemma AcknowledgingRemovesIff(rows: seq<LedgerRow>, hash: Hash, id: string, k: nat)
    requires Chain(IndexRows(rows)) && Hashed(rows, hash) && k < |Of(IndexRows(rows), id)|
    ensures var c, t := Of(IndexRows(rows), id), UpsertAll(EMPTY, IndexRows(rows));
      && id in t.handoff && t.handoff[id] == c[|c| - 1] && t.handoff[id].revision == |c|
      && c[k].row.Some? && c[|c| - 1].row.Some?
      && (id !in AcknowledgeAll(t, [(id, c[k].recordId)]).handoff <==>
            hash(c[k].row.value.content) == hash(c[|c| - 1].row.value.content))
  {
    hide *;
    var c := Of(IndexRows(rows), id);
    OfHashed(rows, hash, id);
    HashedAt(c, hash, k);
    HashedAt(c, hash, |c| - 1);
    ChainAt(IndexRows(rows), id);
    LastOfChainWaits(IndexRows(rows), id);
    IndexedIsConsistent(rows);
    OneAcknowledgement(UpsertAll(EMPTY, IndexRows(rows)), id, c[k].recordId);
  }

  /** What one label adds to a chain. */
  lemma NextOnChain(rows: seq<LedgerRow>, content: Label, hash: Hash)
    requires Chain(IndexRows(rows))
    ensures var c := Of(IndexRows(rows), content.snapshotId);
      && (c != [] ==> c[|c| - 1].row.Some?)
      && PendingRows(Replay(IndexRows(rows)), [content], hash) ==
           if c != [] && c[|c| - 1].row.value.recordId == hash(content) then []
           else [LedgerRow(content, hash(content), Some(|c| + 1))]
  {
    var c := Of(IndexRows(rows), content.snapshotId);
    ChainAt(IndexRows(rows), content.snapshotId);
    IndexHoldsLastOfChain(IndexRows(rows), content.snapshotId);
    hide IndexRows, Replay, Of;
    assert [content][..0] == [];
    assert PendingRows(Replay(IndexRows(rows)), [], hash) == [];
  }

  /** A label of a plain id, whose hash is not blank. */
  ghost predicate PlainLabel(content: Label, hash: Hash) {
    Strip(content.snapshotId) == content.snapshotId != "" && Strip(hash(content)) == hash(content) != ""
  }

  /** The row that a label adds after `n` rows of its snapshot. */
  function RowAfter(content: Label, hash: Hash, n: nat): LedgerRow {
    LedgerRow(content, hash(content), Some(n + 1))
  }

  lemma ChosenAlone(latest: map<string, Entry>, content: Label, hash: Hash, row: LedgerRow)
    requires PendingRows(latest, [content], hash) == [row]
    ensures RowFor(latest, row.content, hash) == Some(row)
  {
    hide RowFor, PendingRows;
    PendingRowsAreChosen(latest, [content], hash);
    assert row in [row];
  }

  lemma OfAppendedRow(rows: seq<LedgerRow>, content: Label, hash: Hash, n: nat) returns (e: Entry)
    requires PlainLabel(content, hash)
    ensures e.row == Some(RowAfter(content, hash, n)) && e.recordId == hash(content)
    ensures Of(IndexRows(rows + [RowAfter(content, hash, n)]), content.snapshotId)
         == Of(IndexRows(rows), content.snapshotId) + [e]
  {
    hide Strip, IndexRows, Of;
    var row := RowAfter(content, hash, n);
    PlainRowIsIndexed(row);
    e := OutcomeTables.Indexed(row).value.entry;
    IndexRowsAppended(rows, row);
    OfAppended(IndexRows(rows), OutcomeTables.Indexed(row).value, content.snapshotId);
  }

  /** A build of one label that differs from the last content extends the chain by its row. */
  lemma BuildExtendsChain(rows: seq<LedgerRow>, content: Label, hash: Hash, c: seq<Entry>) returns (e: Entry)
    requires Chain(IndexRows(rows)) && Hashed(rows, hash) && PlainLabel(content, hash)
    requires c == Of(IndexRows(rows), content.snapshotId)
    requires c != [] ==> c[|c| - 1].row.Some? && c[|c| - 1].row.value.recordId != hash(content)
    ensures var row := RowAfter(content, hash, |c|);
      && PendingRows(Replay(IndexRows(rows)), [content], hash) == [row]
      && Chain(IndexRows(rows + [row])) && Hashed(rows + [row], hash)
      && Of(IndexRows(rows + [row]), content.snapshotId) == c + [e]
      && e.row == Some(row) && e.recordId == hash(content)
  {
    assert RowAfter(content, hash, |c|).content == content && Strip(content.snapshotId) == content.snapshotId;
    NextIsRowAfter(rows, content, hash, c);
    hide *;
    var row := RowAfter(content, hash, |c|);
    ChosenAlone(Replay(IndexRows(rows)), content, hash, row);
    RowKeepsChainIff(rows, content, hash);
    e := OfAppendedRow(rows, content, hash, |c|);
  }

  lemma NextIsRowAfter(rows: seq<LedgerRow>, content: Label, hash: Hash, c: seq<Entry>)
    requires Chain(IndexRows(rows)) && c == Of(IndexRows(rows), content.snapshotId)
    requires c != [] ==> c[|c| - 1].row.Some? && c[|c| - 1].row.value.recordId != hash(content)
    ensures PendingRows(Replay(IndexRows(rows)), [content], hash) == [RowAfter(content, hash, |c|)]
  {
    hide Chain, IndexRows, Replay, PendingRows, Of;
    NextOnChain(rows, content, hash);
  }

  /** The ledger `rows` holds exactly the chain `c` of the snapshot. */
  ghost predicate Holds(rows: seq<LedgerRow>, hash: Hash, id: string, c: seq<Entry>) {
    Chain(IndexRows(rows)) && Hashed(rows, hash) && Of(IndexRows(rows), id) == c
  }

  /** What the last entry of a chain was built from. */
  predicate EndsWith(c: seq<Entry>, row: LedgerRow) {
    c != [] && c[|c| - 1].row == Some(row) && c[|c| - 1].recordId == row.recordId
  }

  lemma NothingBuilt(hash: Hash, id: string)
    ensures Holds([], hash, id, [])
  {
    EmptyChain();
    EmptyOf(id);
    hide Chain, Of, IndexRows;
  }

  /** One more build of a label that differs from the last content. */
  lemma BuildOn(rows: seq<LedgerRow>, c: seq<Entry>, last: LedgerRow, content: Label, hash: Hash)
    returns (d: seq<Entry>)
    requires Holds(rows, hash, content.snapshotId, c) && PlainLabel(content, hash)
    requires c != [] ==> EndsWith(c, last) && last.recordId != hash(content)
    ensures var row := RowAfter(content, hash, |c|);
      && PendingRows(Replay(IndexRows(rows)), [content], hash) == [row]
      && Holds(rows + [row], hash, content.snapshotId, d) && EndsWith(d, row)
      && |d| == |c| + 1 && d[..|c|] == c
  {
    hide Chain, Hashed, PlainLabel, PendingRows, Replay, Of, IndexRows;
    var e := BuildExtendsChain(rows, content, hash, c);
    d := c + [e];
    JoinEndsAsSecond(c, [e]);
  }

  lemma RowAfterIs(content: Label, hash: Hash, n: nat)
    ensures RowAfter(content, hash, n).recordId == hash(content) && RowAfter(content, hash, n).content == content
  {
  }

  lemma FirstOfPrefix(c: seq<Entry>, d: seq<Entry>, e: seq<Entry>, row: LedgerRow)
    requires |c| == 1 && |d| == 2 && |e| == 3 && d[..1] == c && e[..2] == d && EndsWith(c, row)
    ensures e[0].row == Some(row) && e[0].recordId == row.recordId
  {
    assert e[0] == e[..2][0] == d[0] == d[..1][0];
  }

  lemma ThreeRows(one: LedgerRow, two: LedgerRow, three: LedgerRow)
    ensures [] + [one] == [one] && [one] + [two] == [one, two] && [one, two] + [three] == [one, two, three]
  {
  }

  /** Three builds of the labels a, b and a again, and the chain they form. */
  lemma ThreeBuilds(a: Label, b: Label, hash: Hash) returns (c: seq<Entry>)
    requires PlainLabel(a, hash) && PlainLabel(b, hash) && a.snapshotId == b.snapshotId && hash(a) != hash(b)
    ensures var one, two, three := RowAfter(a, hash, 0), RowAfter(b, hash, 1), RowAfter(a, hash, 2);
      && PendingRows(Replay(IndexRows([])), [a], hash) == [one]
      && PendingRows(Replay(IndexRows([one])), [b], hash) == [two]
      && PendingRows(Replay(IndexRows([one, two])), [a], hash) == [three]
      && Holds([one, two, three], hash, a.snapshotId, c) && |c| == 3
      && c[0].row == Some(one) && c[0].recordId == one.recordId && EndsWith(c, three)
  {
    hide *;
    var one, two, three := RowAfter(a, hash, 0), RowAfter(b, hash, 1), RowAfter(a, hash, 2);
    RowAfterIs(a, hash, 0);
    RowAfterIs(b, hash, 1);
    ThreeRows(one, two, three);
    NothingBuilt(hash, a.snapshotId);
    var first := BuildOn([], [], one, a, hash);
    var second := BuildOn([one], first, one, b, hash);
    c := BuildOn([one, two], second, two, a, hash);
    FirstOfPrefix(first, second, c, one);
  }

  lemma HoldsMeans(rows: seq<LedgerRow>, hash: Hash, id: string, c: seq<Entry>, row: LedgerRow)
    requires Holds(rows, hash, id, c) && EndsWith(c, row)
    ensures Chain(IndexRows(rows)) && Hashed(rows, hash) && Of(IndexRows(rows), id) == c
    ensures c != [] && c[|c| - 1].row == Some(row)
  {
  }

  /** It does happen: builds of the labels a, b and a again give revisions 1, 2 and 3, and
      acknowledging revision 1 removes the waiting revision 3. */
  lemma AcknowledgingAnOldRevisionCanRemoveANewOne(a: Label, b: Label, hash: Hash)
    requires PlainLabel(a, hash) && PlainLabel(b, hash) && a.snapshotId == b.snapshotId && hash(a) != hash(b)
    ensures var one, two, three := RowAfter(a, hash, 0), RowAfter(b, hash, 1), RowAfter(a, hash, 2);
      && PendingRows(Replay(IndexRows([])), [a], hash) == [one]
      && PendingRows(Replay(IndexRows([one])), [b], hash) == [two]
      && PendingRows(Replay(IndexRows([one, two])), [a], hash) == [three]
      && var t := UpsertAll(EMPTY, IndexRows([one, two, three]));
         && a.snapshotId in t.handoff && t.handoff[a.snapshotId].row == Some(three)
         && t.handoff[a.snapshotId].revision == 3
         && a.snapshotId !in AcknowledgeAll(t, [(a.snapshotId, hash(a))]).handoff
  {
    hide *;
    var rows := [RowAfter(a, hash, 0), RowAfter(b, hash, 1), RowAfter(a, hash, 2)];
    RowAfterIs(a, hash, 0);
    RowAfterIs(a, hash, 2);
    var c := ThreeBuilds(a, b, hash);
    HoldsMeans(rows, hash, a.snapshotId, c, RowAfter(a, hash, 2));
    AcknowledgingRemovesIff(rows, hash, a.snapshotId, 0);
  }
}
