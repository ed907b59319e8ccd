/** What one poll records about the tasks it handled, and which of them it leaves
    undecided for the next poll. */
module BridgePoll {
  import opened Text
  import opened BridgeProtocol
  import opened BridgeStore

  const MAX_DISPOSITIONS := 5000

  const RETRYABLE := {
    "HOST_COMMAND_UNAVAILABLE", "HOST_COMMAND_FAILED", "GH_MISSING", "INVALID_JSON", "OVERSIZED_JSON",
    "COMMENT_PAGE_LIMIT", "INVALID_COMMENTS", "ISSUE_CLOSED_OR_LOCKED", "TASK_NOT_FOUND",
    "OWNER_APPROVAL_REQUIRED", "OWNER_POLICY_APPROVAL_REQUIRED", "INVALID_REVIEW",
    "INVALID_CHECK_RESPONSE", "CHECK_PAGE_LIMIT", "STATUS_WRITE_FAILED" }

  /** How an invocation ended for the poll. `waiting` says that its receipt is in the CI wait. */
  datatype Outcome = Returned(waiting: bool) | Stopped(code: string) | Errored

  datatype Disposition = Handled | Rejected(code: string) | FailedOnce

  datatype Attempt = Attempt(id: int, outcome: Outcome)

  /** What the poll records; `None` leaves the task to the next poll. */
  function DispositionOf(outcome: Outcome): Option<Disposition> {
    match outcome
    case Returned(waiting) => if waiting then None else Some(Handled)
    case Stopped(code) => if code in RETRYABLE then None else Some(Rejected(code))
    case Errored => Some(FailedOnce)
  }

  predicate IsLeast(k: int, keys: set<int>) {
    k in keys && forall j | j in keys :: k <= j
  }

  lemma HasMember(keys: set<int>)
    ensures keys == {} || exists k :: k in keys
  {
    if !exists k :: k in keys {
      assert forall k :: k !in keys;
      assert keys == {};
    }
  }

  lemma {:induction false} LeastExists(keys: set<int>) returns (k: int)
    requires keys != {}
    ensures IsLeast(k, keys)
    decreases |keys|
  {
    HasMember(keys);
    var first :| first in keys;
    var rest := keys - {first};
    k := first;
    if rest != {} {
      var other := LeastExists(rest);
      k := if other < first then other else first;
      assert forall j | j in keys :: j == first || j in rest;
    }
  }

  /** `r` holds the entries of `full` with the highest ids. */
  ghost predicate HighestOf(r: map<int, Disposition>, full: map<int, Disposition>) {
    && (forall k | k in r :: k in full && r[k] == full[k])
    && (forall k, j | k in r && j in full && j !in r :: j < k)
  }

  /** What is kept of a table: all of it, or the entries with the highest ids up to the limit. */
  ghost predicate Kept(r: map<int, Disposition>, full: map<int, Disposition>) {
    HighestOf(r, full) && |r| == if |full| < MAX_DISPOSITIONS then |full| else MAX_DISPOSITIONS
  }

  /** Record one disposition; past the limit the lowest task ids are forgotten. */
  method Decide(entries: map<int, Disposition>, id: int, d: Disposition) returns (r: map<int, Disposition>)
    ensures Kept(r, entries[id := d])
    ensures |entries[id := d]| <= MAX_DISPOSITIONS ==> r == entries[id := d]
  {
    r := entries[id := d];
    while |r| > MAX_DISPOSITIONS
      invariant HighestOf(r, entries[id := d])
      invariant if |entries[id := d]| <= MAX_DISPOSITIONS then r == entries[id := d] else |r| >= MAX_DISPOSITIONS
      decreases |r|
    {
      hide HighestOf;
      var least := LeastKey(r.Keys);
      r := r - {least};
    }
  }

  method LeastKey(keys: set<int>) returns (k: int)
    requires keys != {}
    ensures IsLeast(k, keys)
  {
    ghost var least := LeastExists(keys);
    assert least in keys && IsLeast(least, keys);
    k :| k in keys && IsLeast(k, keys);
  }

  /** `r` is what a table holds after some attempts, one recorded after the other. */
  ghost predicate Records(r: map<int, Disposition>, entries: map<int, Disposition>, attempts: seq<Attempt>)
    decreases |attempts|
  {
    if attempts == [] then r == entries
    else
      var last := attempts[|attempts| - 1];
      exists before :: Records(before, entries, attempts[..|attempts| - 1]) && RecordsOne(r, before, last)
  }

  ghost predicate RecordsOne(r: map<int, Disposition>, before: map<int, Disposition>, attempt: Attempt) {
    if DispositionOf(attempt.outcome).None? then r == before
    else Kept(r, before[attempt.id := DispositionOf(attempt.outcome).value])
  }

  /** What the last deciding attempt on a task decided. */
  function LastDecision(attempts: seq<Attempt>, id: int): Option<Disposition> {
    if attempts == [] then None
    else
      var last := attempts[|attempts| - 1];
      if last.id == id && DispositionOf(last.outcome).Some? then DispositionOf(last.outcome)
      else LastDecision(attempts[..|attempts| - 1], id)
  }

  /** The outcome decides the task: it came back with a task that does not wait for CI, or it was
      stopped for a reason that is not retryable, or some other error ended it. */
  predicate Decides(outcome: Outcome, d: Disposition) {
    match d
    case Handled => outcome == Returned(false)
    case Rejected(code) => outcome == Stopped(code) && code !in RETRYABLE
    case FailedOnce => outcome == Errored
  }

  /** Attempt `i` is the last one that decides the task, and it decides `d`. */
  ghost predicate LastToDecide(attempts: seq<Attempt>, i: nat, id: int, d: Disposition) {
    && i < |attempts| && attempts[i].id == id && Decides(attempts[i].outcome, d)
    && forall j, e | i < j < |attempts| && attempts[j].id == id :: !Decides(attempts[j].outcome, e)
  }

  /** The recorded decision is that of the last attempt that decides the task, if there is one. */
  lemma {:induction false} LastDecisionIs(attempts: seq<Attempt>, id: int)
    ensures LastDecision(attempts, id).None? ==>
      forall i, d | 0 <= i < |attempts| && attempts[i].id == id :: !Decides(attempts[i].outcome, d)
    ensures LastDecision(attempts, id).Some? ==>
      exists i :: LastToDecide(attempts, i, id, LastDecision(attempts, id).value)
  {
    if attempts != [] {
      var n := |attempts| - 1;
      LastDecisionIs(attempts[..n], id);
      DispositionDecides(attempts[n].outcome);
      hide DispositionOf, Decides;
      if attempts[n].id == id && DispositionOf(attempts[n].outcome).Some? {
        assert LastToDecide(attempts, n, id, LastDecision(attempts, id).value);
      } else if LastDecision(attempts[..n], id).Some? {
        var i: nat :| LastToDecide(attempts[..n], i, id, LastDecision(attempts[..n], id).value);
        assert LastToDecide(attempts, i, id, LastDecision(attempts, id).value);
      }
    }
  }

  lemma DispositionDecides(outcome: Outcome)
    ensures forall d :: Decides(outcome, d) <==> DispositionOf(outcome) == Some(d)
  {
  }

  /** What a table holds for a task, once some attempts are recorded: what the last attempt that
      was neither retryable nor waiting for CI decided, or else what it held before. */
  function Due(entries: map<int, Disposition>, attempts: seq<Attempt>, id: int): Option<Disposition> {
    if LastDecision(attempts, id).Some? then LastDecision(attempts, id) else Lookup(entries, id)
  }

  /** Whatever the table still holds is right, and while it has room it forgets nothing. */
  lemma {:induction false} RecordedIsLastDecision(r: map<int, Disposition>, entries: map<int, Disposition>,
                                                  attempts: seq<Attempt>, id: int)
    requires Records(r, entries, attempts)
    ensures id in r ==> Lookup(r, id) == Due(entries, attempts, id)
    ensures |entries| + |attempts| <= MAX_DISPOSITIONS ==>
      |r| <= |entries| + |attempts| && Lookup(r, id) == Due(entries, attempts, id)
    decreases |attempts|
  {
    if attempts != [] {
      var n := |attempts| - 1;
      var before :| Records(before, entries, attempts[..n]) && RecordsOne(r, before, attempts[n]);
      hide Records, RecordsOne, DispositionOf;
      RecordedIsLastDecision(before, entries, attempts[..n], id);
      OneRecorded(r, before, attempts[n], id);
    }
  }

  lemma OneRecorded(r: map<int, Disposition>, before: map<int, Disposition>, attempt: Attempt, id: int)
    requires RecordsOne(r, before, attempt)
    ensures var due :=
        if attempt.id == id && DispositionOf(attempt.outcome).Some? then DispositionOf(attempt.outcome)
        else Lookup(before, id);
      && (id in r ==> Lookup(r, id) == due)
      && (|before| < MAX_DISPOSITIONS ==> |r| <= |before| + 1 && Lookup(r, id) == due)
  {
    hide Kept, DispositionOf;
    if DispositionOf(attempt.outcome).Some? {
      RoomKeepsAll(r, before, attempt.id, DispositionOf(attempt.outcome).value);
    }
  }

  lemma RoomKeepsAll(r: map<int, Disposition>, before: map<int, Disposition>, id: int, d: Disposition)
    requires Kept(r, before[id := d])
    ensures forall k | k in r :: k in before[id := d] && r[k] == before[id := d][k]
    ensures |before| < MAX_DISPOSITIONS ==> r == before[id := d] && |r| <= |before| + 1
  {
    var full := before[id := d];
    if |before| < MAX_DISPOSITIONS {
      assert |r.Keys| == |r| && |full.Keys| == |full|;
      assert forall k | k in r.Keys :: k in r && k in full.Keys;
      SameSizeSubset(r.Keys, full.Keys);
    }
  }

  lemma SameSizeSubset(small: set<int>, large: set<int>)
    requires small <= large && |small| == |large|
    ensures small == large
  {
    HasMember(large - small);
    assert |large - small| == |large| - |small|;
  }

  /** What the poll does with one attempt. */
  method RecordAttempt(entries: map<int, Disposition>, attempt: Attempt) returns (r: map<int, Disposition>)
    ensures RecordsOne(r, entries, attempt)
  {
    match DispositionOf(attempt.outcome) {
      case None =>
        r := entries;
      case Some(d) =>
        r := Decide(entries, attempt.id, d);
    }
  }

  lemma RecordedOneMore(r: map<int, Disposition>, before: map<int, Disposition>, entries: map<int, Disposition>,
                        attempts: seq<Attempt>, attempt: Attempt)
    requires Records(before, entries, attempts) && RecordsOne(r, before, attempt)
    ensures Records(r, entries, attempts + [attempt])
  {
    JoinEndsAsSecond(attempts, [attempt]);
    assert attempts + [] == attempts;
    hide RecordsOne;
    assert Records(before, entries, attempts) && RecordsOne(r, before, attempt);
  }

  /** The next poll considers a task again exactly when no disposition is recorded for it and
      its receipt is free or waits for CI. */
  predicate Candidate(entries: map<int, Disposition>, t: Task, id: int) {
    id !in entries && Eligible(t)
  }

  /** The comments that are candidates, in the order of the comments. */
  function CandidatesOf(comments: seq<int>, entries: map<int, Disposition>, s: State): seq<int> {
    if comments == [] then []
    else
      var last := comments[|comments| - 1];
      CandidatesOf(comments[..|comments| - 1], entries, s)
        + if Candidate(entries, TaskOf(s, last), last) then [last] else []
  }

  /** What the world brings to one invocation. `code` is the reason an error carries, and
      `foreign` says that it is not one of the bridge's own. */
  datatype World = World(course: Course, code: string, foreign: bool)

  /** The outcome the poll sees of an invocation that was not killed. */
  function OutcomeOf(ending: Ending, world: World, t: Task): Outcome {
    Seen(ending, world, t.receipt == Some(PublishedWaitingCi))
  }

  function Seen(ending: Ending, world: World, waiting: bool): Outcome {
    match ending
    case Locked => Stopped("RUN_LOCKED_OWNER_RECOVERY")
    case Raised => if world.foreign then Errored else Stopped(world.code)
    case _ => Returned(waiting)
  }

  /** The state after the steps of several invocations. */
  function After(s: State, parts: seq<seq<Step>>): State {
    if parts == [] then s else Play(After(s, parts[..|parts| - 1]), parts[|parts| - 1])
  }

  /** The steps of one invocation: none if it meets the lock, and otherwise allowed steps on its own
      task, decided by the world, that leave no process behind. */
  predicate Invocation(s: State, part: seq<Step>, id: int, policy: Option<string>, course: Course, budget: Budget) {
    && Allowed(s, part, budget) && Play(s, part).process.Idle?
    && (if s.locked then part == [] else Follows(s, part, id, policy, course, budget))
  }

  /** Every invocation started from where the one before had left the bridge. */
  predicate Invoked(s: State, parts: seq<seq<Step>>, ids: seq<int>, policy: Option<string>,
                    worlds: nat -> World, budget: Budget)
    requires |parts| <= |ids|
  {
    parts == []
    || (Invoked(s, parts[..|parts| - 1], ids, policy, worlds, budget)
        && Invocation(After(s, parts[..|parts| - 1]), parts[|parts| - 1], ids[|parts| - 1], policy,
                      worlds(|parts| - 1).course, budget))
  }

  /** The attempts of a poll, read off the steps of its invocations. */
  function AttemptsOf(s: State, parts: seq<seq<Step>>, ids: seq<int>, worlds: nat -> World): seq<Attempt>
    requires |parts| <= |ids|
  {
    if parts == [] then []
    else
      var n := |parts| - 1;
      AttemptsOf(s, parts[..n], ids, worlds)
        + [Attempt(ids[n], OutcomeOf(EndingOf(parts[n]), worlds(n), TaskOf(After(s, parts), ids[n])))]
  }

  function Joined(parts: seq<seq<Step>>): seq<Step> {
    if parts == [] then [] else Joined(parts[..|parts| - 1]) + parts[|parts| - 1]
  }

  lemma {:induction false} PlaysJoin(s: State, a: seq<Step>, b: seq<Step>, budget: Budget)
    requires Allowed(s, a, budget) && Allowed(Play(s, a), b, budget)
    ensures Allowed(s, a + b, budget) && Play(s, a + b) == Play(Play(s, a), b)
    decreases |b|
  {
    hide Enabled, Next;
    if b == [] {
      assert a + b == a;
    } else {
      JoinEndsAsSecond(a, b);
      PlaysJoin(s, a, b[..|b| - 1], budget);
    }
  }

  /** A poll is one sequence of allowed steps, so from the empty database it is a run. */
  lemma {:induction false} PollIsARun(s: State, parts: seq<seq<Step>>, ids: seq<int>, policy: Option<string>,
                                      worlds: nat -> World, budget: Budget)
    requires |parts| <= |ids| && Invoked(s, parts, ids, policy, worlds, budget)
    ensures Allowed(s, Joined(parts), budget) && Play(s, Joined(parts)) == After(s, parts)
  {
    if parts == [] {
      NothingPlayed(s, budget);
    } else {
      hide Allowed, Play;
      var n := |parts| - 1;
      PollIsARun(s, parts[..n], ids, policy, worlds, budget);
      PlaysJoin(s, Joined(parts[..n]), parts[n], budget);
    }
  }

  lemma OneMorePart(s: State, parts: seq<seq<Step>>, part: seq<Step>, ids: seq<int>, policy: Option<string>,
                    worlds: nat -> World, budget: Budget)
    requires |parts| < |ids| && Invoked(s, parts, ids, policy, worlds, budget)
    requires Invocation(After(s, parts), part, ids[|parts|], policy, worlds(|parts|).course, budget)
    ensures Invoked(s, parts + [part], ids, policy, worlds, budget)
    ensures After(s, parts + [part]) == Play(After(s, parts), part)
  {
    hide Invocation, Play;
    assert (parts + [part])[..|parts|] == parts;
  }

  lemma OneMoreAttempt(s: State, parts: seq<seq<Step>>, part: seq<Step>, ids: seq<int>, worlds: nat -> World)
    requires |parts| < |ids|
    ensures AttemptsOf(s, parts + [part], ids, worlds)
         == AttemptsOf(s, parts, ids, worlds)
          + [Attempt(ids[|parts|],
                     OutcomeOf(EndingOf(part), worlds(|parts|), TaskOf(After(s, parts + [part]), ids[|parts|])))]
  {
    hide Play, After, OutcomeOf, EndingOf;
    assert (parts + [part])[..|parts|] == parts;
  }

  /** The discovery file. */
  class Discovery {
    var saved: map<int, Disposition>

    constructor ()
      ensures saved == map[]
    {
      saved := map[];
    }

    /** The candidates of a poll, in order of their ids: undecided, and never attempted or
        waiting for CI. */
    method Candidates(bridge: Bridge, comments: seq<int>) returns (ids: seq<int>)
      requires bridge.Valid()
      ensures ids == CandidatesOf(comments, saved, bridge.At(Idle))
    {
      ids := [];
      for i := 0 to |comments|
        invariant ids == CandidatesOf(comments[..i], saved, bridge.At(Idle))
      {
        var id := comments[i];
        assert comments[..i + 1][..i] == comments[..i];
        assert Agrees(bridge.receipts, bridge.runs, bridge.tasks, id);
        if id !in saved && (id !in bridge.receipts || bridge.receipts[id] == PublishedWaitingCi) {
          ids := ids + [id];
        } else {
          assert ids + [] == ids;
        }
      }
      assert comments[..|comments|] == comments;
    }

    /** One poll over its candidates, which dies before its attempt number `dies`, or before its
        save when that is past the last one. Each invocation is a sequence of allowed machine
        steps on its own candidate. A poll that dies leaves the discovery file as it was; a
        finished one records its attempts one after the other. */
    method Poll(bridge: Bridge, ids: seq<int>, policy: Option<string>, budget: Budget, worlds: nat -> World, dies: nat)
      returns (finished: bool, ghost parts: seq<seq<Step>>)
      requires bridge.Valid() && Sound(bridge.At(Idle))
      modifies this, bridge
      ensures bridge.Valid() && Sound(bridge.At(Idle))
      ensures |parts| <= |ids| && Invoked(old(bridge.At(Idle)), parts, ids, policy, worlds, budget)
      ensures bridge.At(Idle) == After(old(bridge.At(Idle)), parts)
      ensures |parts| < |ids| ==> |parts| == dies || (parts != [] && Kill in parts[|parts| - 1])
      ensures finished <==> |parts| == |ids| < dies && forall i | 0 <= i < |parts| :: Kill !in parts[i]
      ensures !finished ==> saved == old(saved)
      ensures finished ==> Records(saved, old(saved), AttemptsOf(old(bridge.At(Idle)), parts, ids, worlds))
    {
      hide Sound, Allowed, Invoked, After, Play, Records, RecordsOne, DispositionOf, AttemptsOf, Seen;
      ghost var start := bridge.At(Idle);
      parts, finished := [], false;
      NothingPolled(start, ids, policy, worlds, budget);
      var entries := saved;
      ghost var attempts: seq<Attempt> := [];
      NothingRecorded(entries);
      for i := 0 to |ids|
        invariant bridge.Valid() && Sound(bridge.At(Idle)) && saved == old(saved)
        invariant |parts| == i <= dies && Invoked(start, parts, ids, policy, worlds, budget)
        invariant bridge.At(Idle) == After(start, parts)
        invariant forall j | 0 <= j < i :: Kill !in parts[j]
        invariant attempts == AttemptsOf(start, parts, ids, worlds) && Records(entries, saved, attempts)
      {
        if dies == i {
          return;
        }
        var ending;
        ghost var part;
        ending, part := bridge.Invoke(ids[i], policy, budget, worlds(i).course);
        OneMorePart(start, parts, part, ids, policy, worlds, budget);
        OneMoreAttempt(start, parts, part, ids, worlds);
        parts := parts + [part];
        if ending.Killed? {
          assert Kill in parts[i];
          return;
        }
        var waiting := bridge.IsWaiting(ids[i]);
        var attempt := Attempt(ids[i], Seen(ending, worlds(i), waiting));
        ghost var before := entries;
        entries := RecordAttempt(entries, attempt);
        RecordedOneMore(entries, before, saved, attempts, attempt);
        attempts := attempts + [attempt];
      }
      if dies == |ids| {
        return;
      }
      saved, finished := entries, true;
    }
  }

  lemma NothingRecorded(entries: map<int, Disposition>)
    ensures Records(entries, entries, [])
  {
  }

  lemma NothingPolled(s: State, ids: seq<int>, policy: Option<string>, worlds: nat -> World, budget: Budget)
    ensures Invoked(s, [], ids, policy, worlds, budget) && After(s, []) == s && AttemptsOf(s, [], ids, worlds) == []
  {
  }

  /** A retryable reason leaves a task to the next poll exactly when it struck before the
      claim or in the CI wait. The bridge's own note that a failed status write never consumes
      a task holds only there: after the claim the same reason consumes it. */
  lemma RetryableFailureRetriesIff(entries: map<int, Disposition>, s: State, code: string)
    requires Sound(s) && s.process.Busy? && !s.process.point.Unwind? && code in RETRYABLE && s.process.id !in entries
    requires s.process.point.Claim? || s.process.point.Admit? ==> Eligible(TaskOf(s, s.process.id))
    ensures DispositionOf(Stopped(code)).None?
    ensures Candidate(entries, TaskOf(Next(s, Raise), s.process.id), s.process.id)
       <==> s.process.point.Admit? || s.process.point.Claim? || s.process.point.Gate?
  {
    FailureConsumesIff(s);
  }

  /** It does happen: the status write after the claim of task 1 fails, nothing is recorded for
      the task, and no poll considers it again. */
  lemma StatusFailureAfterClaimConsumes(budget: Budget) returns (states: seq<State>, steps: seq<Step>)
    ensures Run(states, steps, budget) && |states| == 5
    ensures states[3].process == Busy(1, None, Code) && steps[3] == Raise
    ensures DispositionOf(Stopped("STATUS_WRITE_FAILED")).None?
    ensures !Candidate(map[], TaskOf(states[4], 1), 1)
  {
    var last := Next(UnannouncedState(3), Raise);
    hide Enabled, Next, UnannouncedState, UnannouncedStep, TaskOf, Candidate;
    states := seq(4, i requires 0 <= i < 4 => UnannouncedState(i)) + [last];
    steps := seq(3, i requires 0 <= i < 3 => UnannouncedStep(i)) + [Raise];
    forall i | 0 <= i < 3 {
      UnannouncedStepIsAllowed(i, budget);
    }
  }

  // ----- what a poll leaves eligible -----

  lemma ReceiptOutlivesStep(s: State, step: Step, id: int)
    requires TaskOf(s, id).receipt.Some?
    ensures TaskOf(Next(s, step), id).receipt.Some?
  {
  }

  lemma {:induction false} PlayIsSound(s: State, steps: seq<Step>, budget: Budget)
    requires Sound(s) && Allowed(s, steps, budget)
    ensures Sound(Play(s, steps))
  {
    hide Sound, Enabled, Next;
    if steps != [] {
      PlayIsSound(s, steps[..|steps| - 1], budget);
      StepKeepsSound(Play(s, steps[..|steps| - 1]), steps[|steps| - 1], budget);
    }
  }

  /** Nothing can be done about the task any more: it is not eligible, and no process has it past
      the claim. */
  predicate Stuck(s: State, id: int) {
    && !Eligible(TaskOf(s, id))
    && (s.process.Busy? && s.process.id == id ==> s.process.point in {Admit, Claim, Unwind})
  }

  lemma StuckOutlivesStep(s: State, step: Step, budget: Budget, id: int)
    requires Sound(s) && Enabled(s, step, budget) && Stuck(s, id)
    ensures Stuck(Next(s, step), id)
  {
    SoundTask(s, id);
  }

  lemma {:induction false} StuckOutlivesSteps(s: State, steps: seq<Step>, budget: Budget, id: int)
    requires Sound(s) && Allowed(s, steps, budget) && Stuck(s, id)
    ensures Stuck(Play(s, steps), id)
  {
    hide Next, TaskOf, Sound, Stuck, Enabled;
    if steps != [] {
      StuckOutlivesSteps(s, steps[..|steps| - 1], budget, id);
      PlayIsSound(s, steps[..|steps| - 1], budget);
      StuckOutlivesStep(Play(s, steps[..|steps| - 1]), steps[|steps| - 1], budget, id);
    }
  }

  /** A task that is eligible after a poll was eligible after each of its invocations. */
  lemma {:induction false} EligibleAllAlong(s: State, parts: seq<seq<Step>>, ids: seq<int>, policy: Option<string>,
                                            worlds: nat -> World, budget: Budget, i: nat, id: int)
    requires 0 < i <= |parts| <= |ids| && Sound(s) && Invoked(s, parts, ids, policy, worlds, budget)
    requires Eligible(TaskOf(After(s, parts), id))
    ensures Eligible(TaskOf(After(s, parts[..i]), id))
    decreases |parts|
  {
    hide Play, TaskOf, Eligible, Allowed, Follows, Sound;
    if i == |parts| {
      assert parts[..i] == parts;
    } else {
      var n := |parts| - 1;
      InvokedAt(s, parts, ids, policy, worlds, budget, n);
      InvokedAt(s, parts[..n], ids, policy, worlds, budget, n - 1);
      assert parts[..n][..n] == parts[..n] && parts[..n + 1] == parts;
      if !Eligible(TaskOf(After(s, parts[..n]), id)) {
        StuckOutlivesSteps(After(s, parts[..n]), parts[n], budget, id);
      }
      EligibleAllAlong(s, parts[..n], ids, policy, worlds, budget, i, id);
      assert parts[..n][..i] == parts[..i];
    }
  }

  /** The task is claimed, or its process has not come past the claim. */
  predicate ClaimedOrBefore(s: State, id: int, policy: Option<string>) {
    TaskOf(s, id).receipt.Some?
    || (s.locked && (s.process == Busy(id, policy, Admit) || s.process == Busy(id, policy, Claim)))
  }

  lemma StepClaims(s: State, step: Step, budget: Budget, id: int, policy: Option<string>)
    requires Sound(s) && Enabled(s, step, budget) && ClaimedOrBefore(s, id, policy) && step != Raise && step != Kill
    ensures ClaimedOrBefore(Next(s, step), id, policy)
  {
    if TaskOf(s, id).receipt.Some? {
      ReceiptOutlivesStep(s, step, id);
    }
  }

  lemma {:induction false} InvocationClaims(s: State, steps: seq<Step>, budget: Budget, id: int, policy: Option<string>)
    requires Sound(s) && Allowed(s, steps, budget) && steps != [] && steps[0] == Begin(id, policy)
    requires Raise !in steps && Kill !in steps
    ensures ClaimedOrBefore(Play(s, steps), id, policy)
  {
    hide Sound, Enabled, TaskOf;
    var n := |steps| - 1;
    if n > 0 {
      hide Next, ClaimedOrBefore;
      InvocationClaims(s, steps[..n], budget, id, policy);
      PlayIsSound(s, steps[..n], budget);
      StepClaims(Play(s, steps[..n]), steps[n], budget, id, policy);
    }
  }

  /** The invocation met the lock, or failed for a reason that is not retryable. */
  predicate Drops(part: seq<Step>, world: World) {
    part == [] || (Raise in part && (world.foreign || world.code !in RETRYABLE))
  }

  lemma EligibleIsDecidedIff(s: State, part: seq<Step>, id: int, policy: Option<string>, budget: Budget, world: World)
    requires Sound(s) && Invocation(s, part, id, policy, world.course, budget) && Kill !in part
    requires Eligible(TaskOf(Play(s, part), id))
    ensures DispositionOf(OutcomeOf(EndingOf(part), world, TaskOf(Play(s, part), id))).Some? <==> Drops(part, world)
  {
    hide Sound, Allowed, TaskOf, Play, Decided;
    if part != [] && Raise !in part {
      InvocationClaims(s, part, budget, id, policy);
    }
  }

  lemma {:induction false} AttemptAt(s: State, parts: seq<seq<Step>>, ids: seq<int>, worlds: nat -> World, i: nat)
    requires i < |parts| <= |ids|
    ensures |AttemptsOf(s, parts, ids, worlds)| == |parts|
    ensures AttemptsOf(s, parts, ids, worlds)[i]
         == Attempt(ids[i], OutcomeOf(EndingOf(parts[i]), worlds(i), TaskOf(After(s, parts[..i + 1]), ids[i])))
    decreases |parts|
  {
    hide After, OutcomeOf, EndingOf, TaskOf;
    var n := |parts| - 1;
    AttemptsCount(s, parts[..n], ids, worlds);
    if i < n {
      AttemptAt(s, parts[..n], ids, worlds, i);
      assert parts[..n][..i + 1] == parts[..i + 1];
    } else {
      assert parts[..n + 1] == parts;
    }
  }

  lemma {:induction false} AttemptsCount(s: State, parts: seq<seq<Step>>, ids: seq<int>, worlds: nat -> World)
    requires |parts| <= |ids|
    ensures |AttemptsOf(s, parts, ids, worlds)| == |parts|
  {
    hide After, OutcomeOf, EndingOf, TaskOf;
    if parts != [] {
      AttemptsCount(s, parts[..|parts| - 1], ids, worlds);
    }
  }

  lemma {:induction false} InvokedAt(s: State, parts: seq<seq<Step>>, ids: seq<int>, policy: Option<string>,
                                     worlds: nat -> World, budget: Budget, i: nat)
    requires i < |parts| <= |ids| && Sound(s) && Invoked(s, parts, ids, policy, worlds, budget)
    ensures Sound(After(s, parts[..i]))
    ensures Invocation(After(s, parts[..i]), parts[i], ids[i], policy, worlds(i).course, budget)
    ensures After(s, parts[..i + 1]) == Play(After(s, parts[..i]), parts[i])
    ensures Sound(After(s, parts))
    decreases |parts|
  {
    hide Sound, Allowed, Play;
    var n := |parts| - 1;
    if n > 0 {
      InvokedAt(s, parts[..n], ids, policy, worlds, budget, if i < n then i else 0);
    }
    assert i < n ==> parts[..n][..i] == parts[..i] && parts[..n][..i + 1] == parts[..i + 1];
    assert parts[..n + 1] == parts && parts[..n + 1][..n] == parts[..n];
    PlayIsSound(After(s, parts[..n]), parts[n], budget);
  }

  /** What a finished poll did to a task that is unclaimed or waits for CI afterwards: it is a
      candidate no longer if and only if some attempt on it met the lock or failed for a reason that
      is not retryable. Past the table's limit such a decision may be forgotten, and then it is a
      candidate again. */
  lemma EligibleTaskIsDroppedIff(r: map<int, Disposition>, entries: map<int, Disposition>, s: State,
                                  parts: seq<seq<Step>>, ids: seq<int>, policy: Option<string>,
                                  worlds: nat -> World, budget: Budget, id: int)
    requires |parts| == |ids| && Sound(s) && Invoked(s, parts, ids, policy, worlds, budget)
    requires forall i | 0 <= i < |parts| :: Kill !in parts[i]
    requires Records(r, entries, AttemptsOf(s, parts, ids, worlds))
    requires id !in entries && Eligible(TaskOf(After(s, parts), id))
    ensures var dropped := exists i :: 0 <= i < |parts| && ids[i] == id && Drops(parts[i], worlds(i));
      && (!Candidate(r, TaskOf(After(s, parts), id), id) ==> dropped)
      && (dropped && |entries| + |ids| <= MAX_DISPOSITIONS ==> !Candidate(r, TaskOf(After(s, parts), id), id))
  {
    var attempts := AttemptsOf(s, parts, ids, worlds);
    AttemptsCount(s, parts, ids, worlds);
    RecordedIsLastDecision(r, entries, attempts, id);
    LastDecisionIs(attempts, id);
    forall i | 0 <= i < |attempts| { DispositionDecides(attempts[i].outcome); }
    hide Sound, Invoked, Records, AttemptsOf, LastDecision, DispositionOf, Drops, TaskOf, After, Decides;
    forall i | 0 <= i < |parts| && ids[i] == id
      ensures attempts[i].id == id && (DispositionOf(attempts[i].outcome).Some? <==> Drops(parts[i], worlds(i)))
    {
      DecidedIff(s, parts, ids, policy, worlds, budget, i);
    }
    forall i | 0 <= i < |parts| ensures attempts[i].id == ids[i] {
      AttemptAt(s, parts, ids, worlds, i);
    }
  }

  lemma DecidedIff(s: State, parts: seq<seq<Step>>, ids: seq<int>, policy: Option<string>, worlds: nat -> World,
                   budget: Budget, i: nat)
    requires i < |parts| <= |ids| && Sound(s) && Invoked(s, parts, ids, policy, worlds, budget) && Kill !in parts[i]
    requires Eligible(TaskOf(After(s, parts), ids[i]))
    ensures |AttemptsOf(s, parts, ids, worlds)| == |parts|
    ensures var a := AttemptsOf(s, parts, ids, worlds)[i];
      && a.id == ids[i]
      && (DispositionOf(a.outcome).Some? <==> Drops(parts[i], worlds(i)))
  {
    AttemptAt(s, parts, ids, worlds, i);
    InvokedAt(s, parts, ids, policy, worlds, budget, i);
    EligibleAllAlong(s, parts, ids, policy, worlds, budget, i + 1, ids[i]);
    hide *;
    EligibleIsDecidedIff(After(s, parts[..i]), parts[i], ids[i], policy, budget, worlds(i));
  }

  lemma {:induction false} LockStopsAll(s: State, parts: seq<seq<Step>>, ids: seq<int>, policy: Option<string>,
                                        worlds: nat -> World, budget: Budget)
    requires |parts| <= |ids| && s.locked && Invoked(s, parts, ids, policy, worlds, budget)
    ensures After(s, parts) == s && forall i | 0 <= i < |parts| :: parts[i] == []
  {
    if parts != [] {
      LockStopsAll(s, parts[..|parts| - 1], ids, policy, worlds, budget);
      hide Next, Enabled;
    }
  }

  lemma MeetsLock(world: World, t: Task)
    ensures DispositionOf(OutcomeOf(EndingOf([]), world, t)) == Some(Rejected("RUN_LOCKED_OWNER_RECOVERY"))
  {
  }

  /** A poll that meets a left-over lock changes no task and records a refusal for every one of
      its candidates: none is a candidate any longer, claimed or not. */
  lemma LockedPollRefusesAll(r: map<int, Disposition>, entries: map<int, Disposition>, s: State,
                             parts: seq<seq<Step>>, ids: seq<int>, policy: Option<string>,
                             worlds: nat -> World, budget: Budget, id: int)
    requires |parts| == |ids| && s.locked && Invoked(s, parts, ids, policy, worlds, budget) && id in ids
    requires Records(r, entries, AttemptsOf(s, parts, ids, worlds)) && |entries| + |ids| <= MAX_DISPOSITIONS
    ensures After(s, parts) == s && Lookup(r, id) == Some(Rejected("RUN_LOCKED_OWNER_RECOVERY"))
    ensures !Candidate(r, TaskOf(After(s, parts), id), id)
  {
    LockStopsAll(s, parts, ids, policy, worlds, budget);
    var attempts := AttemptsOf(s, parts, ids, worlds);
    AttemptsCount(s, parts, ids, worlds);
    RecordedIsLastDecision(r, entries, attempts, id);
    LastDecisionIs(attempts, id);
    forall i | 0 <= i < |attempts| { DispositionDecides(attempts[i].outcome); }
    hide Invoked, Records, AttemptsOf, LastDecision, DispositionOf, TaskOf, After, OutcomeOf, EndingOf, Decides;
    forall i | 0 <= i < |parts|
      ensures attempts[i].id == ids[i]
      ensures DispositionOf(attempts[i].outcome) == Some(Rejected("RUN_LOCKED_OWNER_RECOVERY"))
    {
      AttemptAt(s, parts, ids, worlds, i);
      MeetsLock(worlds(i), TaskOf(After(s, parts[..i + 1]), ids[i]));
    }
    var k :| 0 <= k < |ids| && ids[k] == id;
  }

  /** Such a lock is reachable: an invocation killed before its claim leaves it behind, and every
      task is still an unclaimed candidate. */
  lemma KillLeavesLock(budget: Budget) returns (states: seq<State>)
    ensures Run(states, [Begin(1, None), Kill], budget) && states[2].locked && states[2].process.Idle?
    ensures forall id :: TaskOf(states[2], id).receipt.None? && Candidate(map[], TaskOf(states[2], id), id)
  {
    states := [INITIAL, UnannouncedState(1), State(map[], true, Idle)];
  }
}
