/** The prospective capture pass: a persisted cursor that moves over the committed log only
    across rows that reached a terminal disposition. Instants are whole microseconds. */
module EvidenceCapture {
  import opened Text

  const MAX_LIMIT := 32
  const BATCH_SECONDS := 5.0
  const RECORD_SECONDS := 10.0

  /** A place in the canonical log. */
  datatype Position = Position(epoch: int, sequence: int)

  predicate Before(a: Position, b: Position) {
    a.epoch < b.epoch || (a.epoch == b.epoch && a.sequence < b.sequence)
  }

  /** `readable` is false for a row the reader rejects; `boundary` is `None` when the snapshot
      carries no usable instant. */
  datatype Row = Row(at: Position, readable: bool, boundary: Option<int>)

  predicate Ordered(log: seq<Row>) {
    forall i, j | 0 <= i < j < |log| :: Before(log[i].at, log[j].at)
  }

  datatype Build =
    | PointInTimeViolation | AnchorPending | EvidenceStale | Failure | NotEvidence | OtherDirection | Evidence

  datatype Status = OK | DUPLICATE_OK | REJECTED | RETRYABLE | Unexpected

  /** What the world answers when one snapshot is processed. */
  datatype Reply = Reply(supportedDirection: bool, hasBuilder: bool, hasSubmit: bool, build: Build, status: Status)

  datatype Disposition = ReaderRejected | Rejected | StaleEvidence | Recorded | Duplicate | Retry

  /** The disposition of one readable snapshot, gate by gate. */
  function Process(row: Row, acquired: int, maxAge: int, reply: Reply): Disposition {
    match row.boundary
    case None => Rejected
    case Some(boundary) =>
      if acquired - boundary > maxAge then StaleEvidence
      else if acquired < boundary then Retry
      else if !reply.supportedDirection then Rejected
      else if !reply.hasBuilder || !reply.hasSubmit then Retry
      else
        match reply.build
        case PointInTimeViolation => Rejected
        case AnchorPending => Retry
        case EvidenceStale => StaleEvidence
        case Failure => Retry
        case NotEvidence => Rejected
        case OtherDirection => Rejected
        case Evidence =>
          match reply.status
          case OK => Recorded
          case DUPLICATE_OK => Duplicate
          case _ => Retry
  }

  function DispositionOf(row: Row, acquired: int, maxAge: int, reply: Reply): Disposition {
    if row.readable then Process(row, acquired, maxAge, reply) else ReaderRejected
  }

  predicate IsTerminal(d: Disposition) {
    !d.Retry?
  }

  /** A row is certain to be terminal, whatever the world answers, exactly when the reader
      rejects it, it has no boundary, or its boundary is older than the maximum age: nothing
      blocks the cursor longer than that. */
  lemma CertainlyTerminalIff(row: Row, acquired: int, maxAge: int)
    ensures (forall reply :: IsTerminal(DispositionOf(row, acquired, maxAge, reply)))
       <==> !row.readable || row.boundary.None? || acquired - row.boundary.value > maxAge
  {
    var pending := Reply(true, true, true, AnchorPending, OK);
    assert row.readable && row.boundary.Some? && acquired - row.boundary.value <= maxAge ==>
      DispositionOf(row, acquired, maxAge, pending).Retry?;
  }

  /** Positions are ordered by epoch first and by sequence within an epoch; any two different ones
      are comparable, in one direction only. */
  lemma PositionsAreOrdered(a: Position, b: Position, c: Position)
    ensures (a.epoch < b.epoch ==> Before(a, b)) && (Before(a, b) ==> a.epoch <= b.epoch)
    ensures a.epoch == b.epoch ==> (Before(a, b) <==> a.sequence < b.sequence)
    ensures Before(a, b) || a == b || Before(b, a)
    ensures !(Before(a, b) && Before(b, a)) && (Before(a, b) && Before(b, c) ==> Before(a, c))
  {
  }

  /** How many rows lie at or before the cursor. */
  function Passed(log: seq<Row>, cursor: Position): (n: nat)
    ensures n <= |log|
  {
    if log == [] then 0
    else if Before(cursor, log[|log| - 1].at) then Passed(log[..|log| - 1], cursor)
    else |log|
  }

  lemma {:induction false} PassedToRow(log: seq<Row>, i: nat)
    requires Ordered(log) && i < |log|
    ensures Passed(log, log[i].at) == i + 1
    decreases |log|
  {
    var n := |log| - 1;
    if i < n {
      assert Ordered(log[..n]) by {
        assert forall k | 0 <= k < n :: log[..n][k] == log[k];
      }
      PassedToRow(log[..n], i);
      assert log[..n][i] == log[i];
    }
  }

  /** What one pass brings: the acquisition instant, the age limit, the world's answers, the
      configured budget, the clock's readings in order, and how many cursor saves it lives for. */
  datatype Pass = Pass(
    acquired: int, maxAge: int, replies: Position -> Reply, resolved: real, tick: nat -> real, saves: nat)

  /** The row can never be used: it is unreadable, has no boundary, or is past its age. */
  predicate Unusable(row: Row, pass: Pass) {
    !row.readable || row.boundary.None? || pass.acquired - row.boundary.value > pass.maxAge
  }

  /** The row is inside its age window. */
  predicate InWindow(row: Row, pass: Pass) {
    row.readable && row.boundary.Some? && 0 <= pass.acquired - row.boundary.value <= pass.maxAge
  }

  /** The answer rules the row out for good: its direction is not supported, or the build looked
      at it and found no evidence for it that may be published. */
  predicate RuledOut(reply: Reply) {
    || !reply.supportedDirection
    || (reply.hasBuilder && reply.hasSubmit
        && reply.build in {PointInTimeViolation, EvidenceStale, NotEvidence, OtherDirection})
  }

  /** The writer has the evidence, newly or from before. */
  predicate Committed(reply: Reply) {
    && reply.supportedDirection && reply.hasBuilder && reply.hasSubmit && reply.build == Evidence
    && reply.status in {OK, DUPLICATE_OK}
  }

  /** A row the cursor may pass. */
  predicate TerminalRow(row: Row, pass: Pass) {
    || Unusable(row, pass)
    || (InWindow(row, pass) && (RuledOut(pass.replies(row.at)) || Committed(pass.replies(row.at))))
  }

  /** The gates find a row terminal exactly when it is unusable, ruled out or committed; evidence
      counts as recorded exactly when the writer answered OK to it, and as a duplicate exactly when
      it answered DUPLICATE_OK. */
  lemma TerminalRowIff(row: Row, pass: Pass)
    ensures var reply, d := pass.replies(row.at), DispositionOf(row, pass.acquired, pass.maxAge, pass.replies(row.at));
      && (IsTerminal(d) <==> TerminalRow(row, pass))
      && (d == Recorded <==> !Unusable(row, pass) && InWindow(row, pass) && Committed(reply) && reply.status == OK)
      && (d == Duplicate <==>
            !Unusable(row, pass) && InWindow(row, pass) && Committed(reply) && reply.status == DUPLICATE_OK)
      && (d == ReaderRejected <==> !row.readable)
      && (d == StaleEvidence ==> row.readable && row.boundary.Some?)
      && (InWindow(row, pass) && d == StaleEvidence <==>
            InWindow(row, pass) && reply.supportedDirection && RuledOut(reply) && reply.build == EvidenceStale)
  {
  }

  /** How many rows from `n` on are terminal in a row. */
  function Streak(log: seq<Row>, n: nat, pass: Pass): (k: nat)
    ensures n <= |log| ==> n + k <= |log|
    decreases |log| - n
  {
    if n < |log| && TerminalRow(log[n], pass) then 1 + Streak(log, n + 1, pass) else 0
  }

  lemma {:induction false} StreakIsTerminal(log: seq<Row>, n: nat, pass: Pass, i: nat)
    requires n <= i < n + Streak(log, n, pass)
    ensures i < |log| && TerminalRow(log[i], pass)
    decreases |log| - n
  {
    if n < i {
      StreakIsTerminal(log, n + 1, pass, i);
    }
  }

  lemma {:induction false} StreakContinues(log: seq<Row>, n: nat, pass: Pass, k: nat)
    requires k <= Streak(log, n, pass)
    ensures Streak(log, n + k, pass) == Streak(log, n, pass) - k
    decreases k
  {
    if k > 0 {
      StreakContinues(log, n + 1, pass, k - 1);
    }
  }

  /** The streak goes on past its first `k` rows exactly when the next row is there and terminal. */
  lemma StreakGoesOnIff(log: seq<Row>, n: nat, pass: Pass, k: nat)
    requires n <= |log| && k <= Streak(log, n, pass)
    ensures n + k <= |log|
    ensures k < Streak(log, n, pass) <==> n + k < |log| && TerminalRow(log[n + k], pass)
  {
    hide TerminalRow;
    StreakContinues(log, n, pass, k);
  }

  /** The cursor after taking `k` rows. */
  function Advanced(log: seq<Row>, cursor: Position, k: nat): Position
    requires Passed(log, cursor) + k <= |log|
  {
    if k == 0 then cursor else log[Passed(log, cursor) + k - 1].at
  }

  /** The clamped pass budget. */
  function Budget(resolved: real): (b: real)
    ensures b == if resolved < 5.0 then 5.0 else if resolved > 50.0 then 50.0 else resolved
  {
    var capped := if resolved < 50.0 then resolved else 50.0;
    if capped > BATCH_SECONDS then capped else BATCH_SECONDS
  }

  function BatchLimit(limit: int): (n: nat)
    ensures n == if limit < 1 then 1 else if limit > 32 then 32 else limit
  {
    var l := if limit > 1 then limit else 1;
    if l < MAX_LIMIT then l else MAX_LIMIT
  }

  /** Time left at the i-th reading of the clock. */
  function Left(pass: Pass, i: nat): real {
    pass.tick(0) + Budget(pass.resolved) - pass.tick(i)
  }

  /** The pass gets past its first row: the row is terminal, the batch gate and, for a row that
      needs evidence, the record gate find enough time left, and the process lives to save. */
  predicate TakesFirst(log: seq<Row>, n: nat, pass: Pass) {
    && n < |log| && TerminalRow(log[n], pass) && pass.saves > 0
    && Left(pass, 1) >= BATCH_SECONDS && (log[n].readable ==> Left(pass, 2) >= RECORD_SECONDS)
  }

  /** The readings of the clock between the first and number `n` found enough time for a batch. */
  predicate Timely(pass: Pass, n: nat) {
    forall i | 0 < i < n :: Left(pass, i) >= BATCH_SECONDS
  }

  /** How many of the `k` rows from `n` on are readable. */
  function ReadableRows(log: seq<Row>, n: nat, k: nat): nat
    requires n + k <= |log|
  {
    if k == 0 then 0 else ReadableRows(log, n, k - 1) + if log[n + k - 1].readable then 1 else 0
  }

  lemma NothingRead(log: seq<Row>, n: nat)
    requires n <= |log|
    ensures ReadableRows(log, n, 0) == 0
  {
  }

  lemma ReadableOneMore(log: seq<Row>, n: nat, k: nat)
    requires n + k < |log|
    ensures ReadableRows(log, n, k + 1) == ReadableRows(log, n, k) + if log[n + k].readable then 1 else 0
  {
  }

  /** A pass that took `taken` rows from row `n` on stopped at its reading number `last` of the
      clock, the first to find less time left than its gate needs: the gate of a batch, or that of
      a readable next row. There was one reading for each batch begun before and one for each
      readable row taken. */
  predicate StopsForTime(log: seq<Row>, n: nat, pass: Pass, taken: nat, last: nat, batches: nat)
    requires n + taken <= |log|
  {
    && last == 1 + batches + ReadableRows(log, n, taken) && batches <= taken + 1
    && Timely(pass, last)
    && (Left(pass, last) < BATCH_SECONDS
        || (n + taken < |log| && log[n + taken].readable && Left(pass, last) < RECORD_SECONDS))
  }

  class Capture {
    /** The cursor file; `None` while it is missing or unreadable. */
    var cursorFile: Option<Position>

    constructor ()
      ensures cursorFile.None?
    {
      cursorFile := None;
    }

    /** One bounded pass; `readings` is the number of its last reading of the clock when it stops
        for want of time. */
    method RunPass(log: seq<Row>, limit: int, pass: Pass)
      returns (taken: nat, exhausted: bool, readings: nat, ghost batches: nat)
      requires Ordered(log)
      modifies this
      ensures old(cursorFile).None? ==>
        taken == 0 && !exhausted && cursorFile == if log == [] || pass.saves == 0 then None else Some(log[|log| - 1].at)
      ensures old(cursorFile).Some? ==>
        var c := old(cursorFile).value;
        && taken <= Streak(log, Passed(log, c), pass)
        && cursorFile == Some(Advanced(log, c, taken))
        && (exhausted || taken == pass.saves || taken == Streak(log, Passed(log, c), pass))
        && (taken > 0 <==> TakesFirst(log, Passed(log, c), pass))
      ensures PassMoves(log, old(cursorFile), cursorFile, pass, taken)
      ensures exhausted ==>
        old(cursorFile).Some? && Passed(log, old(cursorFile).value) + taken <= |log|
        && StopsForTime(log, Passed(log, old(cursorFile).value), pass, taken, readings, batches)
    {
      hide DispositionOf, Ordered, IsTerminal, Streak, Passed, TerminalRow, ReadableRows;
      taken, exhausted, readings, batches := 0, false, 1, 0;
      var deadline := pass.tick(0) + Budget(pass.resolved);
      if cursorFile.None? {
        if log != [] && pass.saves > 0 {
          cursorFile := Some(log[|log| - 1].at);
        }
        return;
      }
      ghost var c := cursorFile.value;
      NothingRead(log, Passed(log, c));
      var start := Passed(log, cursorFile.value);
      while true
        invariant taken <= Streak(log, start, pass) && !exhausted
        invariant cursorFile == Some(Advanced(log, c, taken))
        invariant if taken == 0 then readings == 1 else TakesFirst(log, start, pass)
        invariant start + taken <= |log| && readings == 1 + batches + ReadableRows(log, start, taken)
        invariant batches <= taken && Timely(pass, readings)
        decreases |log| - start - taken
      {
        StreakGoesOnIff(log, start, pass, taken);
        if deadline - pass.tick(readings) < BATCH_SECONDS {
          exhausted := true;
          return;
        }
        readings, batches := readings + 1, batches + 1;
        var first := start + taken;
        var size := if |log| - first < BatchLimit(limit) then |log| - first else BatchLimit(limit);
        if size == 0 {
          return;
        }
        for i := 0 to size
          invariant taken == first - start + i && taken <= Streak(log, start, pass)
          invariant cursorFile == Some(Advanced(log, c, taken))
          invariant if taken == 0 then readings == 2 && Left(pass, 1) >= BATCH_SECONDS else TakesFirst(log, start, pass)
          invariant start + taken <= |log| && readings == 1 + batches + ReadableRows(log, start, taken)
          invariant batches <= first - start + 1 && Timely(pass, readings)
        {
          StreakGoesOnIff(log, start, pass, taken);
          var row := log[first + i];
          ReadableOneMore(log, start, taken);
          if row.readable {
            if deadline - pass.tick(readings) < RECORD_SECONDS {
              exhausted := true;
              return;
            }
            readings := readings + 1;
          }
          TerminalRowIff(row, pass);
          if !IsTerminal(DispositionOf(row, pass.acquired, pass.maxAge, pass.replies(row.at))) {
            return;
          }
          if taken == pass.saves {
            return;
          }
          cursorFile := Some(row.at);
          taken := taken + 1;
        }
      }
    }
  }

  /** What one pass may do to the cursor. */
  ghost predicate PassMoves(log: seq<Row>, before: Option<Position>, after: Option<Position>, pass: Pass, taken: nat) {
    match before
    case None => taken == 0 && (after.None? || (log != [] && after == Some(log[|log| - 1].at)))
    case Some(c) =>
      taken <= Streak(log, Passed(log, c), pass) && Passed(log, c) + taken <= |log|
      && after == Some(Advanced(log, c, taken))
      && (taken > 0 <==> TakesFirst(log, Passed(log, c), pass))
  }

  /** The log each pass read, the cursor before each pass and after the last, what each pass
      brought and how many rows it took. */
  datatype History = History(logs: seq<seq<Row>>, cursors: seq<Option<Position>>, passes: seq<Pass>, taken: seq<nat>)

  /** Passes over a log that only grows, from the first start on. */
  ghost predicate Passes(h: History) {
    && |h.logs| == |h.passes| == |h.taken| && |h.cursors| == |h.passes| + 1
    && h.cursors[0].None?
    && (forall i | 0 <= i < |h.logs| :: Ordered(h.logs[i]))
    && (forall i | 0 <= i < |h.logs| - 1 :: h.logs[i] <= h.logs[i + 1])
    && (forall i | 0 <= i < |h.passes| :: PassMoves(h.logs[i], h.cursors[i], h.cursors[i + 1], h.passes[i], h.taken[i]))
  }

  /** Pass `j` took row `r` with a terminal disposition. */
  ghost predicate TakenIn(h: History, j: nat, r: nat) {
    && j < |h.logs| && j < |h.cursors| && j < |h.passes| && j < |h.taken|
    && h.cursors[j].Some? && r < |h.logs[j]|
    && Passed(h.logs[j], h.cursors[j].value) <= r < Passed(h.logs[j], h.cursors[j].value) + h.taken[j]
    && TerminalRow(h.logs[j][r], h.passes[j])
  }

  ghost predicate TakenBetween(h: History, from: nat, until: nat, r: nat) {
    exists j: nat :: from < j < until && TakenIn(h, j, r)
  }

  /** The cursor stands right after the first `n` rows. */
  predicate StandsAfter(log: seq<Row>, cursor: Option<Position>, n: nat) {
    0 < n <= |log| && cursor == Some(log[n - 1].at)
  }

  /** One pass from a known place: it takes exactly the next rows, each with a terminal
      disposition, and stands after them. */
  lemma PassFrom(log: seq<Row>, before: Option<Position>, after: Option<Position>, pass: Pass, taken: nat, n: nat)
    requires Ordered(log) && StandsAfter(log, before, n) && PassMoves(log, before, after, pass, taken)
    ensures Passed(log, before.value) == n && StandsAfter(log, after, n + taken)
    ensures forall r | n <= r < n + taken :: TerminalRow(log[r], pass)
  {
    PassedToRow(log, n - 1);
    forall r | n <= r < n + taken ensures TerminalRow(log[r], pass) {
      StreakIsTerminal(log, n, pass, r);
    }
  }

  lemma PassesAt(h: History, i: nat)
    requires Passes(h) && i < |h.passes|
    ensures |h.logs| == |h.passes| == |h.taken| && |h.cursors| == |h.passes| + 1
    ensures Ordered(h.logs[i]) && (i > 0 ==> h.logs[i - 1] <= h.logs[i])
    ensures PassMoves(h.logs[i], h.cursors[i], h.cursors[i + 1], h.passes[i], h.taken[i])
  {
    hide Ordered, PassMoves;
    if i > 0 {
      assert h.logs[i - 1] <= h.logs[i - 1 + 1];
    }
  }

  /** What the passes after the cold start have done before pass `i`, if the cursor then stands
      after `n` rows: they took exactly the rows from the head on, each of them once. */
  ghost predicate Covered(h: History, cold: nat, i: nat, n: nat) {
    && cold < i <= |h.logs| && i < |h.cursors| && |h.logs[cold]| <= n && StandsAfter(h.logs[i - 1], h.cursors[i], n)
    && AllTaken(h, cold, i, |h.logs[cold]|, n) && OnlyTaken(h, cold, i, |h.logs[cold]|, n) && TakenOnce(h, cold, i)
  }

  ghost predicate AllTaken(h: History, cold: nat, i: nat, head: nat, n: nat) {
    forall r: nat | head <= r < n :: TakenBetween(h, cold, i, r)
  }

  ghost predicate OnlyTaken(h: History, cold: nat, i: nat, head: nat, n: nat) {
    forall j: nat, r: nat | cold < j < i && TakenIn(h, j, r) :: head <= r < n
  }

  ghost predicate TakenOnce(h: History, cold: nat, i: nat) {
    forall j: nat, k: nat, r: nat | cold < j < k < i && TakenIn(h, j, r) :: !TakenIn(h, k, r)
  }

  lemma AllTakenGrows(h: History, cold: nat, i: nat, head: nat, n: nat, k: nat)
    requires AllTaken(h, cold, i, head, n) && cold < i && forall r: nat | n <= r < n + k :: TakenIn(h, i, r)
    ensures AllTaken(h, cold, i + 1, head, n + k)
  {
    var next := i + 1;
    hide TakenIn, TakenBetween;
    forall r: nat ensures TakenBetween(h, cold, next, r) <==> TakenBetween(h, cold, i, r) || TakenIn(h, i, r) {
      MoreIsTakenLater(h, cold, i, r);
    }
  }

  lemma OnlyTakenGrows(h: History, cold: nat, i: nat, head: nat, n: nat, k: nat)
    requires OnlyTaken(h, cold, i, head, n) && head <= n && forall r: nat | TakenIn(h, i, r) :: n <= r < n + k
    ensures OnlyTaken(h, cold, i + 1, head, n + k)
  {
    hide TakenIn;
  }

  lemma TakenOnceGrows(h: History, cold: nat, i: nat, head: nat, n: nat)
    requires TakenOnce(h, cold, i) && OnlyTaken(h, cold, i, head, n) && forall r: nat | TakenIn(h, i, r) :: n <= r
    ensures TakenOnce(h, cold, i + 1)
  {
    hide TakenIn;
  }

  lemma CoveredAtColdStart(h: History, cold: nat)
    requires Passes(h) && cold < |h.passes| && h.cursors[cold].None? && h.cursors[cold + 1].Some?
    ensures Covered(h, cold, cold + 1, |h.logs[cold]|)
  {
    PassesAt(h, cold);
    hide Passes, PassMoves, TakenIn;
  }

  /** From a known place pass `i` takes exactly the rows from `n` on. */
  lemma PassTakes(h: History, i: nat, n: nat)
    requires Passes(h) && 0 < i < |h.passes| && StandsAfter(h.logs[i - 1], h.cursors[i], n)
    ensures i < |h.taken| && StandsAfter(h.logs[i], h.cursors[i + 1], n + h.taken[i])
    ensures forall r: nat :: TakenIn(h, i, r) <==> n <= r < n + h.taken[i]
  {
    PassesAt(h, i);
    hide Passes, Ordered, PassMoves;
    PassFrom(h.logs[i], h.cursors[i], h.cursors[i + 1], h.passes[i], h.taken[i], n);
    hide Passed, TerminalRow;
  }

  lemma MoreIsTakenLater(h: History, from: nat, until: nat, r: nat)
    ensures TakenBetween(h, from, until + 1, r) <==>
      TakenBetween(h, from, until, r) || (from < until && TakenIn(h, until, r))
  {
    hide TakenIn;
    if j: nat :| from < j < until + 1 && TakenIn(h, j, r) {
      if j < until {
        assert TakenBetween(h, from, until, r);
      }
    }
  }

  lemma CoveredAfterPass(h: History, cold: nat, i: nat, n: nat)
    requires Passes(h) && i < |h.passes| && Covered(h, cold, i, n)
    ensures i < |h.taken| && Covered(h, cold, i + 1, n + h.taken[i])
  {
    hide Passes, AllTaken, OnlyTaken, TakenOnce, TakenIn, StandsAfter;
    PassesShape(h);
    PassTakes(h, i, n);
    AllTakenGrows(h, cold, i, |h.logs[cold]|, n, h.taken[i]);
    OnlyTakenGrows(h, cold, i, |h.logs[cold]|, n, h.taken[i]);
    TakenOnceGrows(h, cold, i, |h.logs[cold]|, n);
  }

  lemma PassesShape(h: History)
    requires Passes(h)
    ensures |h.logs| == |h.passes| == |h.taken| && |h.cursors| == |h.passes| + 1
  {
    hide Ordered, PassMoves;
  }

  /** Cursor safety. After the cold start the cursor always stands after a number of rows that
      were there at the start or were taken when they were unusable, ruled out or committed, in log
      order, without a skip, each exactly once; no row at or before the head is ever taken. */
  lemma {:induction false} CursorPassesOnlyTerminalRows(h: History, cold: nat, i: nat) returns (n: nat)
    requires Passes(h) && cold < i <= |h.passes|
    requires h.cursors[cold].None? && h.cursors[cold + 1].Some?
    ensures Covered(h, cold, i, n)
  {
    hide *;
    PassesShape(h);
    if i == cold + 1 {
      CoveredAtColdStart(h, cold);
      n := |h.logs[cold]|;
    } else {
      var m := CursorPassesOnlyTerminalRows(h, cold, i - 1);
      CoveredAfterPass(h, cold, i - 1, m);
      n := m + h.taken[i - 1];
    }
  }

  /** A row past its boundary plus the maximum age. */
  predicate Overdue(row: Row, pass: Pass) {
    row.readable && row.boundary.Some? && pass.acquired - row.boundary.value > pass.maxAge
  }

  /** Progress. In any history, a pass that meets an overdue row next moves the cursor past it if
      and only if its first two gates find enough time left and it lives to save. */
  lemma OverdueRowIsTakenIff(h: History, i: nat, n: nat)
    requires Passes(h) && 0 < i < |h.passes| && StandsAfter(h.logs[i - 1], h.cursors[i], n)
    requires n < |h.logs[i]| && Overdue(h.logs[i][n], h.passes[i])
    ensures i < |h.taken| && StandsAfter(h.logs[i], h.cursors[i + 1], n + h.taken[i])
    ensures h.taken[i] > 0 <==>
      Left(h.passes[i], 1) >= 5.0 && Left(h.passes[i], 2) >= 10.0 && h.passes[i].saves > 0
  {
    PassesAt(h, i);
    PassTakes(h, i, n);
    hide Passes, Ordered;
    PassFrom(h.logs[i], h.cursors[i], h.cursors[i + 1], h.passes[i], h.taken[i], n);
    hide Passed, Streak, TakenIn, StandsAfter, DispositionOf, Left;
  }

  /** A clock that does not run backwards. */
  ghost predicate Forward(tick: nat -> real) {
    forall i, j | i <= j :: tick(i) <= tick(j)
  }

  /** What a budget has to be: some pass with it can take a readable row if and only if ten
      seconds are configured. Below that the clamp leaves less than one record needs. */
  lemma BudgetAdmitsARowIff(resolved: real)
    ensures (exists pass: Pass :: pass.resolved == resolved && Forward(pass.tick)
               && Left(pass, 1) >= 5.0 && Left(pass, 2) >= 10.0)
       <==> resolved >= 10.0
  {
    if resolved >= RECORD_SECONDS {
      var still := Pass(0, 0, _ => Reply(true, true, true, Evidence, OK), resolved, _ => 0.0, 1);
      assert Left(still, 1) >= BATCH_SECONDS && Left(still, 2) >= RECORD_SECONDS && Forward(still.tick);
    }
    forall pass: Pass | pass.resolved == resolved && Forward(pass.tick) && Left(pass, 2) >= RECORD_SECONDS
      ensures resolved >= RECORD_SECONDS
    {
      assert pass.tick(0) <= pass.tick(2);
    }
  }

  /** With such a budget no pass of any history ever gets past a readable row, however old. */
  lemma SmallBudgetNeverTakes(h: History, i: nat, n: nat)
    requires Passes(h) && 0 < i < |h.passes| && StandsAfter(h.logs[i - 1], h.cursors[i], n)
    requires n < |h.logs[i]| && h.logs[i][n].readable
    requires h.passes[i].resolved < 10.0 && Forward(h.passes[i].tick)
    ensures i < |h.taken| && h.taken[i] == 0 && h.cursors[i + 1] == h.cursors[i]
  {
    PassesAt(h, i);
    hide Passes, Ordered;
    PassFrom(h.logs[i], h.cursors[i], h.cursors[i + 1], h.passes[i], h.taken[i], n);
    assert h.passes[i].tick(0) <= h.passes[i].tick(2);
    hide Passed, Streak, TerminalRow;
  }

  /** Losing the cursor file skips rows: the next pass starts at the head, and the rows in
      between are never taken. They are none exactly when the cursor stood at the head. */
  lemma LostCursorSkips(log: seq<Row>, cursor: Option<Position>, n: nat, pass: Pass, after: Option<Position>)
    requires Ordered(log) && StandsAfter(log, cursor, n)
    requires PassMoves(log, None, after, pass, 0) && after.Some?
    ensures StandsAfter(log, after, |log|)
    ensures after == cursor <==> n == |log|
  {
    if n < |log| {
      assert Before(log[n - 1].at, log[|log| - 1].at);
    }
  }
}
