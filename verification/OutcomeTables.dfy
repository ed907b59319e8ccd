/** The SQLite tables behind the outcome ledger: the latest-outcome index, the
    accountability handoff, and the upsert both are maintained by. */
module OutcomeTables {
  import opened Text
  import opened Keyset

  /** One forward-outcome label; `body` stands for every field that is not named here. */
  datatype Label = Label(snapshotId: string, reference: string, windowComplete: bool, body: string)

  /** One ledger object. `revision` is `None` when it does not read as an integer. */
  datatype LedgerRow = LedgerRow(content: Label, recordId: string, revision: Option<int>)

  /** One table row. `row` is the stored JSON, `None` when it no longer reads as an object. */
  datatype Entry = Entry(recordId: string, revision: int, reference: string, row: Option<LedgerRow>)

  /** The committed tables. `acknowledged` is a history variable that the database does not
      store: the (snapshot, record id) pairs whose handoff row an acknowledgement deleted
      after that outcome became the latest one. */
  datatype Tables = Tables(
    latest: map<string, Entry>,
    handoff: map<string, Entry>,
    acknowledged: set<(string, string)>,
    cursor: Key,
    backfillDone: bool,
    offset: nat)

  const EMPTY := Tables(map[], map[], {}, START, false, 0)

  /** What the index takes from a ledger object: the stripped key and the columns. */
  datatype IndexRow = IndexRow(id: string, entry: Entry)

  /** Objects without a snapshot id or an integer revision are ignored by the index. */
  function Indexed(row: LedgerRow): Option<IndexRow> {
    var id := Strip(row.content.snapshotId);
    if id == "" || row.revision.None? then None
    else Some(IndexRow(id, Entry(Strip(row.recordId), row.revision.value, row.content.reference, Some(row))))
  }

  function IndexRows(rows: seq<LedgerRow>): seq<IndexRow> {
    if rows == [] then []
    else
      IndexRows(rows[..|rows| - 1]) + AsSeq(Indexed(rows[|rows| - 1]))
  }

  function UpsertLatest(latest: map<string, Entry>, r: IndexRow): map<string, Entry> {
    if r.id !in latest || r.entry.revision >= latest[r.id].revision then latest[r.id := r.entry] else latest
  }

  function Enqueue(handoff: map<string, Entry>, id: string, e: Entry): map<string, Entry> {
    if id !in handoff || e.revision >= handoff[id].revision then handoff[id := e] else handoff
  }

  function Upsert(t: Tables, r: IndexRow): Tables {
    var id, e := r.id, r.entry;
    var becameLatest := id !in t.latest || e.revision >= t.latest[id].revision;
    t.(latest := UpsertLatest(t.latest, r),
       handoff := if e.recordId != "" then Enqueue(t.handoff, id, e)
                  else if becameLatest then t.handoff - {id} else t.handoff,
       acknowledged := if becameLatest then set p | p in t.acknowledged && p.0 != id else t.acknowledged)
  }

  function UpsertAll(t: Tables, rows: seq<IndexRow>): (r: Tables)
    ensures r.cursor == t.cursor && r.backfillDone == t.backfillDone && r.offset == t.offset
  {
    if rows == [] then t else Upsert(UpsertAll(t, rows[..|rows| - 1]), rows[|rows| - 1])
  }

  /** The index rebuilt from nothing. */
  function Replay(rows: seq<IndexRow>): map<string, Entry> {
    if rows == [] then map[] else UpsertLatest(Replay(rows[..|rows| - 1]), rows[|rows| - 1])
  }

  /** Indexing new rows incrementally gives the index of a full replay. */
  lemma {:induction false} IncrementalIsReplay(t: Tables, before: seq<IndexRow>, rows: seq<IndexRow>)
    requires t.latest == Replay(before)
    ensures UpsertAll(t, rows).latest == Replay(before + rows)
    decreases |rows|
  {
    if rows == [] {
      assert before + rows == before;
    } else {
      JoinEndsAsSecond(before, rows);
      IncrementalIsReplay(t, before, rows[..|rows| - 1]);
    }
  }

  /** Row `i` speaks for `id`: no row for `id` has a greater revision, and none with the
      same revision comes later. */
  ghost predicate Governs(rows: seq<IndexRow>, i: nat, id: string) {
    i < |rows| && rows[i].id == id
    && forall j | 0 <= j < |rows| && rows[j].id == id ::
         rows[j].entry.revision < rows[i].entry.revision
         || (rows[j].entry.revision == rows[i].entry.revision && j <= i)
  }

  lemma {:induction false} ReplayHasGoverningRow(rows: seq<IndexRow>, id: string) returns (i: nat)
    ensures id !in Replay(rows) ==> forall j | 0 <= j < |rows| :: rows[j].id != id
    ensures id in Replay(rows) ==> Governs(rows, i, id) && Replay(rows)[id] == rows[i].entry
    decreases |rows|
  {
    i := 0;
    if rows != [] {
      var n := |rows| - 1;
      var prefix, last := rows[..n], rows[n];
      i := ReplayHasGoverningRow(prefix, id);
      assert forall j | 0 <= j < n :: prefix[j] == rows[j];
      if last.id == id && (id !in Replay(prefix) || last.entry.revision >= Replay(prefix)[id].revision) {
        i := n;
      }
    }
  }

  /** The index holds, per snapshot, exactly the last ledger row of greatest revision. */
  lemma IndexIsLastGreatestRevision(rows: seq<IndexRow>, id: string, e: Entry)
    ensures (id in Replay(rows) && Replay(rows)[id] == e)
       <==> exists i: nat :: Governs(rows, i, id) && e == rows[i].entry
  {
    var i := ReplayHasGoverningRow(rows, id);
    if j: nat :| Governs(rows, j, id) && e == rows[j].entry {
      assert id in Replay(rows);
      assert i == j;
    }
  }

  /** The columns of an entry come from its stored object, if that can be read. */
  predicate Columns(id: string, e: Entry) {
    e.row.Some? ==>
      && id == Strip(e.row.value.content.snapshotId) && e.recordId == Strip(e.row.value.recordId)
      && e.reference == e.row.value.content.reference
  }

  /** What every reachable database satisfies besides the two theorems. */
  ghost predicate Consistent(t: Tables) {
    && (forall id | id in t.latest :: id != "" && Columns(id, t.latest[id]))
    && (forall id | id in t.handoff :: id in t.latest && t.handoff[id].recordId != ""
          && t.handoff[id].revision <= t.latest[id].revision && Columns(id, t.handoff[id]))
  }

  /** The keys of the latest-outcome table. */
  function Keys(latest: map<string, Entry>): set<Key> {
    set id | id in latest :: Key(latest[id].reference, id)
  }

  lemma KeysIdentify(latest: map<string, Entry>, k: Key)
    ensures k in Keys(latest) <==> k.snapshot in latest && latest[k.snapshot].reference == k.reference
  {
  }

  /** One outcome that accountability must see is accounted for. */
  ghost predicate Accounted(t: Tables, terminal: set<string>, id: string)
    requires id in t.latest
  {
    var e := t.latest[id];
    e.recordId != "" && e.reference != "" ==>
      || (id in t.handoff && t.handoff[id] == e)
      || (id, e.recordId) in t.acknowledged
      || e.recordId in terminal
      || (!t.backfillDone && Before(t.cursor, Key(e.reference, id)))
  }

  ghost predicate NothingLost(t: Tables, terminal: set<string>) {
    forall id | id in t.latest :: Accounted(t, terminal, id)
  }

  /** Rows that come from ledger objects carry a key and repeat their reference column. */
  predicate FromLedger(r: IndexRow) {
    r.id != "" && r.entry.row.Some? && Columns(r.id, r.entry)
  }

  lemma {:induction false} IndexRowsComeFromLedger(rows: seq<LedgerRow>)
    ensures forall i | 0 <= i < |IndexRows(rows)| :: FromLedger(IndexRows(rows)[i])
  {
    if rows != [] {
      IndexRowsComeFromLedger(rows[..|rows| - 1]);
    }
  }

  lemma {:induction false} IndexRowsJoin(a: seq<LedgerRow>, b: seq<LedgerRow>)
    ensures IndexRows(a + b) == IndexRows(a) + IndexRows(b)
    decreases |b|
  {
    if b == [] {
      assert a + b == a;
    } else {
      hide *;
      var n := |b| - 1;
      JoinEndsAsSecond(a, b);
      IndexRowsJoin(a, b[..n]);
      AppendIsAssociative(IndexRows(a), IndexRows(b[..n]), AsSeq(Indexed(b[n])));
    }
  }

  lemma UpsertLosesNothing(t: Tables, r: IndexRow, terminal: set<string>)
    requires Consistent(t) && NothingLost(t, terminal) && FromLedger(r)
    ensures Consistent(Upsert(t, r)) && NothingLost(Upsert(t, r), terminal)
  {
    hide Before, Columns;
    var u := Upsert(t, r);
    forall id | id in u.latest ensures Accounted(u, terminal, id) {
      if id in t.latest {
        assert Accounted(t, terminal, id);
      }
    }
  }

  lemma {:induction false} UpsertAllLosesNothing(t: Tables, rows: seq<IndexRow>, terminal: set<string>)
    requires Consistent(t) && NothingLost(t, terminal)
    requires forall i | 0 <= i < |rows| :: FromLedger(rows[i])
    ensures Consistent(UpsertAll(t, rows)) && NothingLost(UpsertAll(t, rows), terminal)
  {
    if rows != [] {
      var n := |rows| - 1;
      UpsertAllLosesNothing(t, rows[..n], terminal);
      UpsertLosesNothing(UpsertAll(t, rows[..n]), rows[n], terminal);
    }
  }

  /** Acknowledging one (snapshot id, record id) pair, both already stripped. */
  function Acknowledged(t: Tables, pair: (string, string)): Tables {
    var id, rid := pair.0, pair.1;
    if id == "" || rid == "" || id !in t.handoff || t.handoff[id].recordId != rid then t
    else t.(handoff := t.handoff - {id}, acknowledged := t.acknowledged + {(id, rid)})
  }

  function AcknowledgeAll(t: Tables, pairs: seq<(string, string)>): (r: Tables)
    ensures r.latest == t.latest && r.cursor == t.cursor && r.backfillDone == t.backfillDone && r.offset == t.offset
    ensures r.handoff.Keys <= t.handoff.Keys
  {
    if pairs == [] then t
    else Acknowledged(AcknowledgeAll(t, pairs[..|pairs| - 1]), pairs[|pairs| - 1])
  }

  lemma AcknowledgeLosesNothing(t: Tables, pair: (string, string), terminal: set<string>)
    requires Consistent(t) && NothingLost(t, terminal)
    ensures Consistent(Acknowledged(t, pair)) && NothingLost(Acknowledged(t, pair), terminal)
  {
    var u := Acknowledged(t, pair);
    forall id | id in u.latest ensures Accounted(u, terminal, id) {
      assert Accounted(t, terminal, id);
    }
  }

  lemma {:induction false} AcknowledgeAllLosesNothing(t: Tables, pairs: seq<(string, string)>, terminal: set<string>)
    requires Consistent(t) && NothingLost(t, terminal)
    ensures Consistent(AcknowledgeAll(t, pairs)) && NothingLost(AcknowledgeAll(t, pairs), terminal)
  {
    if pairs != [] {
      var n := |pairs| - 1;
      AcknowledgeAllLosesNothing(t, pairs[..n], terminal);
      AcknowledgeLosesNothing(AcknowledgeAll(t, pairs[..n]), pairs[n], terminal);
    }
  }

  /** An acknowledgement removes a waiting outcome exactly when some acknowledged pair names
      the snapshot with the record id that is waiting; otherwise the outcome keeps waiting. */
  lemma {:induction false} AcknowledgeRemovesExactlyItsRecord(t: Tables, pairs: seq<(string, string)>, id: string)
    requires Consistent(t) && id in t.handoff
    ensures id !in AcknowledgeAll(t, pairs).handoff <==> (id, t.handoff[id].recordId) in pairs
    ensures id in AcknowledgeAll(t, pairs).handoff ==> AcknowledgeAll(t, pairs).handoff[id] == t.handoff[id]
  {
    if pairs != [] {
      var n := |pairs| - 1;
      AcknowledgeRemovesExactlyItsRecord(t, pairs[..n], id);
      assert pairs == pairs[..n] + [pairs[n]];
      assert id in t.latest && t.handoff[id].recordId != "";
    }
  }
}
