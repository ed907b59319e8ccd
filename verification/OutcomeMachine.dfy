/** The durable steps of outcome maturation and accountability handoff, and what every run
    of them keeps. A crash is a run that stops: a step is one durable write or one commit. */
module OutcomeMachine {
  import opened Text
  import opened Keyset
  import opened LedgerBytes
  import opened OutcomeTables
  import opened HandoffBackfill

  type Decode = Decoder<LedgerRow>

  /** The ledger file, the committed tables, and the record ids that accountability has
      given a durable terminal disposition. */
  datatype Machine = Machine(file: Bytes, tables: Tables, terminal: set<string>)

  datatype Step =
    | AppendBytes(bytes: Bytes)                          // any writer, whole or torn
    | RepairTail
    | Reconcile
    | PurgeBlank
    | Acknowledge(pairs: seq<(string, string)>)
    | PersistTerminal(size: nat, coverage: Coverage)     // dispositions of the next batch
    | ApplyBatch(size: nat, coverage: Coverage)

  /** The rows on the finished lines between the stored offset and the end of the file. */
  function NewRows(t: Tables, file: Bytes, decode: Decode): seq<IndexRow> {
    if t.offset <= |file| then IndexRows(Rows(file[t.offset..], decode)) else []
  }

  function Reconciled(t: Tables, file: Bytes, decode: Decode): Tables {
    UpsertAll(t, NewRows(t, file, decode)).(offset := WholeLength(file))
  }

  function Purged(t: Tables): Tables {
    t.(handoff := map id | id in t.handoff && id != "" && t.handoff[id].recordId != "" :: t.handoff[id])
  }

  /** Only the apply phase of a batch has a guard: its dispositions were persisted first. */
  ghost predicate Enabled(m: Machine, s: Step) {
    match s
    case ApplyBatch(size, coverage) => forall r | r in BatchCandidates(m.tables, size, coverage) :: r in m.terminal
    case _ => true
  }

  ghost function Next(m: Machine, s: Step, decode: Decode): Machine {
    match s
    case AppendBytes(bytes) => m.(file := m.file + bytes)
    case RepairTail => m.(file := Repaired(m.file, decode))
    case Reconcile => m.(tables := Reconciled(m.tables, m.file, decode))
    case PurgeBlank => m.(tables := Purged(m.tables))
    case Acknowledge(pairs) => m.(tables := AcknowledgeAll(m.tables, pairs))
    case PersistTerminal(size, coverage) =>
      m.(terminal := m.terminal + set r | r in BatchCandidates(m.tables, size, coverage))
    case ApplyBatch(size, coverage) => m.(tables := Batch(m.tables, size, coverage))
  }

  ghost predicate IndexMatches(t: Tables, file: Bytes, decode: Decode) {
    Boundary(file, t.offset) && t.latest == Replay(IndexRows(Rows(file[..t.offset], decode)))
  }

  ghost predicate Sound(m: Machine, decode: Decode) {
    IndexMatches(m.tables, m.file, decode) && Consistent(m.tables) && NothingLost(m.tables, m.terminal)
  }

  /** A database whose index was built from the ledger but whose outcomes were never handed
      off is a sound start, and so is an empty one. */
  lemma LegacyStartIsSound(m: Machine, decode: Decode)
    requires IndexMatches(m.tables, m.file, decode) && Consistent(m.tables)
    requires m.tables.cursor == START && !m.tables.backfillDone
    ensures Sound(m, decode)
  {
  }

  lemma OffsetWithinWholeLines(t: Tables, file: Bytes)
    requires Boundary(file, t.offset)
    ensures t.offset <= WholeLength(file)
    ensures file[..t.offset] + file[t.offset..] == file
  {
    assert t.offset > 0 ==> file[t.offset - 1] == NEWLINE;
  }

  /** Reconciling leaves the index equal to the replay of every finished ledger line. */
  lemma ReconcileIndexesEverything(t: Tables, file: Bytes, decode: Decode)
    requires IndexMatches(t, file, decode)
    ensures Reconciled(t, file, decode).latest == Replay(IndexRows(Rows(file, decode)))
    ensures IndexMatches(Reconciled(t, file, decode), file, decode)
  {
    var old_, new_ := file[..t.offset], file[t.offset..];
    OffsetWithinWholeLines(t, file);
    RowsOfJoin(old_, new_, decode);
    IndexRowsJoin(Rows(old_, decode), Rows(new_, decode));
    IncrementalIsReplay(t, IndexRows(Rows(old_, decode)), IndexRows(Rows(new_, decode)));
    LinesIgnoreUnfinishedTail(file);
  }

  lemma ReconcileLosesNothing(t: Tables, file: Bytes, decode: Decode, terminal: set<string>)
    requires Consistent(t) && NothingLost(t, terminal)
    ensures Consistent(Reconciled(t, file, decode)) && NothingLost(Reconciled(t, file, decode), terminal)
  {
    if t.offset <= |file| {
      IndexRowsComeFromLedger(Rows(file[t.offset..], decode));
    }
    var u := UpsertAll(t, NewRows(t, file, decode));
    UpsertAllLosesNothing(t, NewRows(t, file, decode), terminal);
    SameButOffset(u, Reconciled(t, file, decode), terminal);
  }

  lemma SameButOffset(t: Tables, u: Tables, terminal: set<string>)
    requires u == t.(offset := u.offset) && Consistent(t) && NothingLost(t, terminal)
    ensures Consistent(u) && NothingLost(u, terminal)
  {
    forall id | id in u.latest ensures Accounted(u, terminal, id) {
      assert Accounted(t, terminal, id);
    }
  }

  /** Under the invariant the blank-identity purge finds nothing to delete. */
  lemma PurgeIsIdle(t: Tables)
    requires Consistent(t)
    ensures Purged(t) == t
  {
    assert Purged(t).handoff == t.handoff;
  }

  lemma MoreDispositionsLoseNothing(t: Tables, terminal: set<string>, more: set<string>)
    requires NothingLost(t, terminal)
    ensures NothingLost(t, terminal + more)
  {
    forall id | id in t.latest ensures Accounted(t, terminal + more, id) {
      assert Accounted(t, terminal, id);
    }
  }

  /** Every durable step keeps the machine sound. */
  lemma StepKeepsSound(m: Machine, s: Step, decode: Decode)
    requires Sound(m, decode) && Enabled(m, s)
    ensures Sound(Next(m, s, decode), decode)
  {
    var t := m.tables;
    match s
    case AppendBytes(bytes) =>
      assert (m.file + bytes)[..t.offset] == m.file[..t.offset];
    case RepairTail =>
      RepairKeepsPrefix(m.file, decode, t.offset);
    case Reconcile =>
      ReconcileIndexesEverything(t, m.file, decode);
      ReconcileLosesNothing(t, m.file, decode, m.terminal);
    case PurgeBlank =>
      PurgeIsIdle(t);
    case Acknowledge(pairs) =>
      AcknowledgeAllLosesNothing(t, pairs, m.terminal);
    case PersistTerminal(size, coverage) =>
      MoreDispositionsLoseNothing(t, m.terminal, set r | r in BatchCandidates(t, size, coverage));
    case ApplyBatch(size, coverage) =>
      BatchLosesNothing(t, size, coverage, m.terminal);
  }

  ghost predicate Run(ms: seq<Machine>, steps: seq<Step>, decode: Decode) {
    |ms| == |steps| + 1
    && forall i | 0 <= i < |steps| :: Enabled(ms[i], steps[i]) && ms[i + 1] == Next(ms[i], steps[i], decode)
  }

  /** No outcome is lost, and the offset and index are right, in every state of every run. */
  lemma {:induction false} EveryRunIsSound(ms: seq<Machine>, steps: seq<Step>, decode: Decode, i: nat)
    requires Run(ms, steps, decode) && Sound(ms[0], decode) && i < |ms|
    ensures Sound(ms[i], decode)
  {
    if i > 0 {
      EveryRunIsSound(ms, steps, decode, i - 1);
      StepKeepsSound(ms[i - 1], steps[i - 1], decode);
      assert ms[i - 1 + 1] == Next(ms[i - 1], steps[i - 1], decode);
    }
  }

  /** After any history, one reconcile makes the index the fold of upsert over the whole ledger. */
  lemma IndexEqualsFullReplay(ms: seq<Machine>, steps: seq<Step>, decode: Decode, i: nat)
    requires Run(ms, steps, decode) && Sound(ms[0], decode) && i < |steps| && steps[i].Reconcile?
    ensures ms[i + 1].tables.latest == Replay(IndexRows(Rows(ms[i].file, decode)))
    ensures ms[i + 1].tables.offset == WholeLength(ms[i].file)
  {
    EveryRunIsSound(ms, steps, decode, i);
    ReconcileIndexesEverything(ms[i].tables, ms[i].file, decode);
  }

  /** Finished lines are never lost: each state's finished prefix stays a prefix forever. */
  lemma {:induction false} FinishedLinesSurvive(ms: seq<Machine>, steps: seq<Step>, decode: Decode, i: nat, j: nat)
    requires Run(ms, steps, decode) && i <= j < |ms|
    ensures ms[i].file[..WholeLength(ms[i].file)] <= ms[j].file
    ensures WholeLength(ms[i].file) <= WholeLength(ms[j].file)
  {
    hide WholeLength, Next, Enabled;
    if i < j {
      FinishedLinesSurvive(ms, steps, decode, i, j - 1);
      assert ms[j - 1 + 1] == Next(ms[j - 1], steps[j - 1], decode);
      FinishedLinesSurviveStep(ms[j - 1], steps[j - 1], decode, WholeLength(ms[i].file));
    }
  }

  lemma FinishedLinesSurviveStep(m: Machine, s: Step, decode: Decode, w: nat)
    requires w <= WholeLength(m.file)
    ensures w <= WholeLength(Next(m, s, decode).file) && m.file[..w] <= Next(m, s, decode).file
  {
    var n := Next(m, s, decode);
    var whole := WholeLength(m.file);
    if s.RepairTail? {
      RepairKeepsPrefix(m.file, decode, whole);
    }
    assert n.file[..whole] == m.file[..whole];
    assert m.file[..whole][..w] == m.file[..w];
    assert whole > 0 ==> n.file[..whole][whole - 1] == n.file[whole - 1];
  }
}
