/** The bridge's tables and lock file as the program changes them: one invocation of a task,
    interrupted wherever the caller says, and one poll over the eligible tasks. */
module BridgeStore {
  import opened Text
  import opened BridgeProtocol

  function Lookup<T>(table: map<int, T>, id: int): Option<T> {
    if id in table then Some(table[id]) else None
  }

  /** The state a sequence of steps leads to. */
  function Play(s: State, steps: seq<Step>): State {
    if steps == [] then s else Next(Play(s, steps[..|steps| - 1]), steps[|steps| - 1])
  }

  /** Every step was allowed when it was taken. */
  predicate Allowed(s: State, steps: seq<Step>, budget: Budget) {
    steps == []
    || (Allowed(s, steps[..|steps| - 1], budget) && Enabled(Play(s, steps[..|steps| - 1]), steps[|steps| - 1], budget))
  }

  lemma PlayOneMore(s: State, steps: seq<Step>, step: Step, budget: Budget)
    requires Allowed(s, steps, budget) && Enabled(Play(s, steps), step, budget)
    ensures Allowed(s, steps + [step], budget) && Play(s, steps + [step]) == Next(Play(s, steps), step)
  {
    JoinEndsAsSecond(steps, [step]);
    assert steps + [] == steps;
  }

  /** Allowed steps from the initial state are a run, so all that is proved of runs holds. */
  lemma {:induction false} AllowedStepsAreARun(steps: seq<Step>, budget: Budget) returns (states: seq<State>)
    requires Allowed(INITIAL, steps, budget)
    ensures Run(states, steps, budget) && states[|steps|] == Play(INITIAL, steps)
  {
    if steps == [] {
      states := [INITIAL];
    } else {
      hide Next, Enabled;
      var n := |steps| - 1;
      var before := AllowedStepsAreARun(steps[..n], budget);
      states := before + [Play(INITIAL, steps)];
      forall i | 0 <= i < |steps|
        ensures Enabled(states[i], steps[i], budget) && states[i + 1] == Next(states[i], steps[i])
      {
        if i < n {
          RunStep(before, steps[..n], budget, i);
        }
      }
    }
  }

  /** How far a point is from the end of its run. */
  function Distance(point: Point): nat {
    match point
    case Admit => 16 case Claim => 15 case Record => 14 case Code => 13 case RecordApplying => 12
    case Edit => 11 case TestAndReview => 10 case RecordPublishing => 9 case Push => 8
    case RecordPublished => 7 case Gate => 6 case PostReview => 5 case RecordVerdict => 4
    case RecordApplied => 3 case Announce => 2 case Unwind => 1 case Released => 0
  }

  lemma StepComesNearer(t: Task, policy: Option<string>, point: Point, approve: bool)
    requires !point.Released?
    ensures Distance(TaskStep(t, policy, point, approve).1) < Distance(point)
    ensures !TaskStep(t, policy, point, approve).1.Unwind?
  {
  }

  /** What happens to the process before each of its steps. */
  datatype Fate = Goes | Fails | Dies

  datatype Ending = Completed | Locked | WaitingForCi | Raised | Killed

  /** How an invocation ended, read off its steps. */
  function EndingOf(steps: seq<Step>): Ending {
    if steps == [] then Locked
    else if Kill in steps then Killed
    else if Raise in steps then Raised
    else if WaitForCi in steps then WaitingForCi
    else Completed
  }

  /** What the world brings to one invocation: what happens to the process before each of its
      steps, whether the required checks have finished, and whether their verdict approves. */
  datatype Course = Course(fates: nat -> Fate, ciReady: bool, approve: bool)

  /** The process stands at the CI gate. */
  predicate AtGate(s: State) {
    s.process.Busy? && s.process.policy.Some? && s.process.point == Gate
  }

  /** The world decides the steps of an invocation after its first one: it is killed exactly where
      its fate says so; otherwise it waits exactly at a gate whose checks have not finished, fails
      exactly where its fate says so or its guard refuses, and else goes on with the verdict. */
  predicate Decided(s: State, step: Step, fate: Fate, course: Course, budget: Budget) {
    && (step == Kill <==> fate == Dies)
    && (step == WaitForCi <==> fate == Goes && AtGate(s) && !course.ciReady)
    && (step == Raise <==> fate == Fails || (fate == Goes && !CanProceed(s, budget)))
    && (step in {Kill, WaitForCi, Raise} || step == Proceed(course.approve))
  }

  /** An invocation of a task follows its course. */
  predicate Follows(start: State, steps: seq<Step>, id: int, policy: Option<string>, course: Course, budget: Budget) {
    steps != [] && steps[0] == Begin(id, policy)
    && forall n: nat | n + 1 < |steps| ::
         Decided(Play(start, steps[..n + 1]), steps[n + 1], course.fates(n), course, budget)
  }

  lemma FollowsOneMore(start: State, steps: seq<Step>, step: Step, id: int, policy: Option<string>, course: Course,
                       budget: Budget)
    requires Follows(start, steps, id, policy, course, budget)
    requires Decided(Play(start, steps), step, course.fates(|steps| - 1), course, budget)
    ensures Follows(start, steps + [step], id, policy, course, budget)
  {
    hide Decided, Play;
    var more := steps + [step];
    forall n: nat | n + 1 < |more|
      ensures Decided(Play(start, more[..n + 1]), more[n + 1], course.fates(n), course, budget)
    {
      if n + 1 < |steps| {
        assert more[..n + 1] == steps[..n + 1] && more[n + 1] == steps[n + 1];
        FollowsAt(start, steps, id, policy, course, budget, n);
      } else {
        assert more[..n + 1] == steps;
      }
    }
    assert more[0] == steps[0];
  }

  lemma FirstStepFollows(start: State, id: int, policy: Option<string>, course: Course, budget: Budget)
    ensures Follows(start, [Begin(id, policy)], id, policy, course, budget)
  {
  }

  lemma FollowsAt(start: State, steps: seq<Step>, id: int, policy: Option<string>, course: Course, budget: Budget,
                  n: nat)
    requires Follows(start, steps, id, policy, course, budget) && n + 1 < |steps|
    ensures Decided(Play(start, steps[..n + 1]), steps[n + 1], course.fates(n), course, budget)
  {
  }

  /** Both tables hold the rows of a task. */
  predicate Agrees(receipts: map<int, Phase>, runs: map<int, RunRow>, tasks: map<int, Task>, id: int) {
    var t := TaskOf(State(tasks, false, Idle), id);
    Lookup(receipts, id) == t.receipt && Lookup(runs, id) == t.run
  }

  class Bridge {
    var receipts: map<int, Phase>
    var runs: map<int, RunRow>
    var lockFile: bool
    ghost var tasks: map<int, Task>

    /** The tables hold what the history says. */
    ghost predicate Valid()
      reads this`receipts, this`runs, this`tasks
    {
      forall id :: Agrees(receipts, runs, tasks, id)
    }

    /** The machine state while a process stands somewhere. */
    ghost function At(process: Process): State
      reads this
    {
      State(tasks, lockFile, process)
    }

    constructor ()
      ensures Valid() && At(Idle) == INITIAL
    {
      receipts, runs, lockFile, tasks := map[], map[], false, map[];
    }

    /** Insert the receipt; a second claim of the same task violates the primary key. */
    method InsertReceipt(id: int) returns (ok: bool)
      requires Valid()
      modifies this`receipts, this`tasks
      ensures Valid() && (ok <==> id !in old(receipts))
      ensures receipts == if ok then old(receipts)[id := Started] else old(receipts)
      ensures var t := TaskOf(old(At(Idle)), id);
        tasks == if ok then old(tasks)[id := t.(receipt := Some(Started))] else old(tasks)
    {
      if id in receipts {
        return false;
      }
      tasks := tasks[id := TaskOf(At(Idle), id).(receipt := Some(Started))];
      receipts := receipts[id := Started];
      forall k ensures Agrees(receipts, runs, tasks, k) {
        assert old(Agrees(receipts, runs, tasks, k));
      }
      return true;
    }

    /** Replace the run row and update the receipt of the same task. */
    method WritePhase(id: int, policy: string, p: Phase)
      requires Valid()
      modifies this`receipts, this`runs, this`tasks
      ensures Valid() && runs == old(runs)[id := RunRow(policy, p)]
      ensures receipts == if id in old(receipts) then old(receipts)[id := p] else old(receipts)
      ensures tasks == old(tasks)[id := SetPhase(TaskOf(old(At(Idle)), id), policy, p)]
    {
      assert Agrees(receipts, runs, tasks, id);
      tasks := tasks[id := SetPhase(TaskOf(At(Idle), id), policy, p)];
      runs := runs[id := RunRow(policy, p)];
      if id in receipts {
        receipts := receipts[id := p];
      }
      forall k ensures Agrees(receipts, runs, tasks, k) {
        assert old(Agrees(receipts, runs, tasks, k));
      }
    }

    /** Update one receipt of a basic run. */
    method WriteReceipt(id: int, p: Phase)
      requires Valid() && id in receipts
      modifies this`receipts, this`tasks
      ensures Valid() && receipts == old(receipts)[id := p]
      ensures tasks == old(tasks)[id := TaskOf(old(At(Idle)), id).(receipt := Some(p))]
    {
      tasks := tasks[id := TaskOf(At(Idle), id).(receipt := Some(p))];
      receipts := receipts[id := p];
      forall k ensures Agrees(receipts, runs, tasks, k) {
        assert old(Agrees(receipts, runs, tasks, k));
      }
    }

    /** Count an effect on the outside world. */
    ghost method Note(id: int, c: Counts)
      requires Valid()
      modifies this`tasks
      ensures Valid() && tasks == old(tasks)[id := TaskOf(old(At(Idle)), id).(counts := c)]
    {
      tasks := tasks[id := TaskOf(At(Idle), id).(counts := c)];
      forall k ensures Agrees(receipts, runs, tasks, k) {
        assert old(Agrees(receipts, runs, tasks, k));
      }
    }

    /** The failure handler. */
    method HandleFailure(id: int, policy: Option<string>, point: Point)
      requires Valid() && (policy.None? && !point.Admit? && !point.Claim? && !point.Unwind? ==> id in receipts)
      modifies this`receipts, this`runs, this`tasks
      ensures Valid()
      ensures tasks == old(tasks)[id := Failed(TaskOf(old(At(Idle)), id), policy, point)]
    {
      hide SetPhase;
      assert Agrees(receipts, runs, tasks, id);
      if point.Unwind? {
        Note(id, TaskOf(At(Idle), id).counts);
        return;
      }
      match policy {
        case Some(p) =>
          if id in runs && Ambiguous(runs[id].phase) {
            WritePhase(id, p, FailedOwnerRecovery);
            return;
          }
        case None =>
          if !point.Admit? && !point.Claim? {
            WriteReceipt(id, FailedOwnerRecovery);
            return;
          }
      }
      Note(id, TaskOf(At(Idle), id).counts);
    }

    /** One step of an autonomous task on the tables. */
    method StepAutonomous(id: int, p: string, point: Point, approve: bool) returns (next: Point)
      requires Valid() && (point.Claim? ==> id !in receipts)
      modifies this`receipts, this`runs, this`tasks
      ensures Valid()
      ensures var (t, after) := AutonomousStep(TaskOf(old(At(Idle)), id), p, point, approve);
        tasks == old(tasks)[id := t] && next == after
    {
      assert Agrees(receipts, runs, tasks, id);
      hide SetPhase, Valid;
      ghost var c := TaskOf(At(Idle), id).counts;
      match point {
        case Admit => next := if id in runs then Gate else Claim; Note(id, c);
        case Claim => var _ := InsertReceipt(id); next := Record;
        case Record => WritePhase(id, p, Started); next := Code;
        case Code => Note(id, c.(coded := c.coded + 1)); next := RecordApplying;
        case RecordApplying => WritePhase(id, p, Applying); next := Edit;
        case Edit => Note(id, c.(edited := c.edited + 1)); next := TestAndReview;
        case TestAndReview => WritePhase(id, p, Reviewed); next := RecordPublishing;
        case RecordPublishing => WritePhase(id, p, Publishing); next := Push;
        case Push => Note(id, c.(pushed := c.pushed + 1)); next := RecordPublished;
        case RecordPublished => WritePhase(id, p, PublishedWaitingCi); next := Gate;
        case Gate => WritePhase(id, p, ReviewSubmitting); next := PostReview;
        case PostReview => Note(id, c.(reviewed := c.reviewed + 1)); next := RecordVerdict;
        case RecordVerdict => WritePhase(id, p, if approve then Approved else ChangesRequested); next := Announce;
        case _ => Note(id, c); next := Released;
      }
    }

    /** One step of a basic run on the tables. */
    method StepBasic(id: int, point: Point) returns (next: Point)
      requires Valid() && (point.Claim? ==> id !in receipts)
      requires point.RecordApplied? ==> id in receipts
      modifies this`receipts, this`tasks
      ensures Valid()
      ensures var (t, after) := BasicStep(TaskOf(old(At(Idle)), id), point);
        tasks == old(tasks)[id := t] && next == after
    {
      hide Valid;
      ghost var c := TaskOf(At(Idle), id).counts;
      match point {
        case Admit => Note(id, c); next := Claim;
        case Claim => var _ := InsertReceipt(id); next := Code;
        case Code => Note(id, c.(coded := c.coded + 1)); next := Edit;
        case Edit => Note(id, c.(edited := c.edited + 1)); next := RecordApplied;
        case RecordApplied => WriteReceipt(id, AppliedUntested); next := Announce;
        case _ => Note(id, c); next := Released;
      }
    }

    /** Admission and claim checks, read from the tables. */
    method Guard(id: int, policy: Option<string>, point: Point, budget: Budget) returns (ok: bool)
      requires Valid()
      ensures ok == CanProceed(At(Busy(id, policy, point)), budget)
      ensures ok && point.Claim? ==> id !in receipts
    {
      assert Agrees(receipts, runs, tasks, id);
      if point.Claim? {
        return id !in receipts;
      }
      if point.Admit? && policy.Some? {
        if id in runs {
          return runs[id] == RunRow(policy.value, PublishedWaitingCi);
        }
        ghost var under := TasksUnder(tasks, policy.value);
        forall k ensures k in under <==> k in runs && runs[k].policy == policy.value {
          assert Agrees(receipts, runs, tasks, k);
        }
        var rows := set k | k in runs && runs[k].policy == policy.value;
        assert rows == under;
        return |rows| < budget(policy.value);
      }
      return true;
    }

    /** One allowed step, with the release of the lock when it is the last one. */
    method Advance(id: int, policy: Option<string>, point: Point, approve: bool) returns (next: Point)
      requires Valid() && lockFile && Sound(At(Busy(id, policy, point)))
      requires point.Claim? ==> id !in receipts
      modifies this
      ensures Valid() && (lockFile <==> !next.Released?)
      ensures next == TaskStep(TaskOf(old(At(Idle)), id), policy, point, approve).1
      ensures At(if next.Released? then Idle else Busy(id, policy, next))
           == Next(old(At(Busy(id, policy, point))), Proceed(approve))
    {
      assert Agrees(receipts, runs, tasks, id);
      hide Valid, AutonomousStep, BasicStep;
      match policy {
        case Some(p) => next := StepAutonomous(id, p, point, approve);
        case None => next := StepBasic(id, point);
      }
      lockFile := !next.Released?;
      hide TaskSound, AtPoint;
    }

    /** The receipt of a task is in the CI wait. */
    method IsWaiting(id: int) returns (waiting: bool)
      requires Valid()
      ensures waiting <==> TaskOf(At(Idle), id).receipt == Some(PublishedWaitingCi)
    {
      assert Agrees(receipts, runs, tasks, id);
      return id in receipts && receipts[id] == PublishedWaitingCi;
    }

    /** The failure handler; an error while it unwinds only releases the lock. */
    method Fail(id: int, policy: Option<string>, point: Point) returns (next: Point)
      requires Valid() && lockFile && Sound(At(Busy(id, policy, point)))
      modifies this
      ensures Valid() && (lockFile <==> !next.Released?)
      ensures next == if point.Unwind? then Released else Unwind
      ensures At(if next.Released? then Idle else Busy(id, policy, next))
           == Next(old(At(Busy(id, policy, point))), Raise)
    {
      assert Agrees(receipts, runs, tasks, id);
      hide Valid, Failed;
      HandleFailure(id, policy, point);
      next := if point.Unwind? then Released else Unwind;
      lockFile := !next.Released?;
    }

    /** One step of an invocation, or the failure handler when it fails or its guard refuses it. */
    method MoveOn(id: int, policy: Option<string>, budget: Budget, point: Point, fails: bool, approve: bool)
      returns (next: Point, ghost step: Step)
      requires Valid() && lockFile && !point.Released? && Sound(At(Busy(id, policy, point)))
      modifies this
      ensures Valid() && (lockFile <==> !next.Released?) && Distance(next) < Distance(point)
      ensures step ==
        (if fails || !CanProceed(old(At(Busy(id, policy, point))), budget) then Raise else Proceed(approve))
      ensures Enabled(old(At(Busy(id, policy, point))), step, budget)
      ensures At(if next.Released? then Idle else Busy(id, policy, next))
           == Next(old(At(Busy(id, policy, point))), step)
      ensures !next.Released? ==> (next.Unwind? <==> step == Raise)
    {
      hide Valid, Sound, CanProceed, TaskStep, Failed;
      var ok := Guard(id, policy, point, budget);
      ghost var here := At(Busy(id, policy, point));
      if fails || !ok {
        UnwindIsNear(point);
        next := Fail(id, policy, point);
        step := Raise;
      } else {
        StepComesNearer(TaskOf(here, id), policy, point, approve);
        next := Advance(id, policy, point, approve);
        step := Proceed(approve);
      }
    }

    /** One invocation of a task. Whatever happens to it before any of its steps, it is a
        sequence of allowed steps of the machine, decided by the world; the lock stays exactly when
        the process was killed. */
    method Invoke(id: int, policy: Option<string>, budget: Budget, course: Course)
      returns (ending: Ending, ghost steps: seq<Step>)
      requires Valid() && Sound(At(Idle))
      modifies this
      ensures Valid() && Sound(At(Idle))
      ensures Allowed(old(At(Idle)), steps, budget) && At(Idle) == Play(old(At(Idle)), steps)
      ensures ending == EndingOf(steps)
      ensures if old(lockFile) then steps == [] else Follows(old(At(Idle)), steps, id, policy, course, budget)
      ensures !ending.Locked? ==> (lockFile <==> ending.Killed?)
    {
      hide Valid, Sound, CanProceed, TaskStep, Failed, Play, Allowed, Follows, Decided;
      ghost var start := At(Idle);
      steps := [];
      NothingPlayed(start, budget);
      if lockFile {
        return Locked, steps;
      }
      lockFile := true;
      var point, n, failed := Admit, 0, false;
      Extended(start, steps, Begin(id, policy), budget, At(Busy(id, policy, Admit)));
      steps := [Begin(id, policy)];
      assert [] + steps == steps;
      FirstStepFollows(start, id, policy, course, budget);
      while true
        invariant Valid() && lockFile && !point.Released?
        invariant Sound(At(Busy(id, policy, point)))
        invariant Allowed(start, steps, budget) && Play(start, steps) == At(Busy(id, policy, point))
        invariant |steps| == n + 1 && Follows(start, steps, id, policy, course, budget)
        invariant Kill !in steps && WaitForCi !in steps && (Raise in steps <==> failed)
        invariant point.Unwind? <==> failed
        decreases Distance(point)
      {
        if course.fates(n).Dies? {
          Extended(start, steps, Kill, budget, At(Idle));
          KillIsDecided(Play(start, steps), course, budget);
          FollowsOneMore(start, steps, Kill, id, policy, course, budget);
          steps := steps + [Kill];
          return Killed, steps;
        }
        if course.fates(n).Goes? && point.Gate? && policy.Some? && !course.ciReady {
          WaitIsDecided(Play(start, steps), course, budget);
          FollowsOneMore(start, steps, WaitForCi, id, policy, course, budget);
          lockFile := false;
          Extended(start, steps, WaitForCi, budget, At(Idle));
          steps := steps + [WaitForCi];
          return WaitingForCi, steps;
        }
        var next;
        ghost var step;
        next, step := MoveOn(id, policy, budget, point, course.fates(n).Fails?, course.approve);
        MoveIsDecided(Play(start, steps), step, course.fates(n), course, budget);
        FollowsOneMore(start, steps, step, id, policy, course, budget);
        Extended(start, steps, step, budget, At(if next.Released? then Idle else Busy(id, policy, next)));
        steps, failed := steps + [step], failed || next.Unwind?;
        if next.Released? {
          ending := if failed then Raised else Completed;
          return ending, steps;
        }
        point, n := next, n + 1;
      }
    }
  }

  lemma KillIsDecided(s: State, course: Course, budget: Budget)
    ensures Decided(s, Kill, Dies, course, budget)
  {
  }

  lemma WaitIsDecided(s: State, course: Course, budget: Budget)
    requires AtGate(s) && !course.ciReady
    ensures Decided(s, WaitForCi, Goes, course, budget)
  {
  }

  lemma MoveIsDecided(s: State, step: Step, fate: Fate, course: Course, budget: Budget)
    requires fate != Dies && (fate == Goes && AtGate(s) ==> course.ciReady)
    requires step == if fate == Fails || !CanProceed(s, budget) then Raise else Proceed(course.approve)
    ensures Decided(s, step, fate, course, budget)
  {
    hide CanProceed;
  }

  lemma UnwindIsNear(point: Point)
    requires !point.Released?
    ensures Distance(if point.Unwind? then Released else Unwind) < Distance(point)
  {
  }

  lemma NothingPlayed(s: State, budget: Budget)
    ensures Allowed(s, [], budget) && Play(s, []) == s
  {
  }

  /** One more allowed step keeps the state sound. */
  lemma Extended(start: State, steps: seq<Step>, step: Step, budget: Budget, after: State)
    requires Allowed(start, steps, budget) && Sound(Play(start, steps))
    requires Enabled(Play(start, steps), step, budget) && after == Next(Play(start, steps), step)
    ensures Allowed(start, steps + [step], budget) && Play(start, steps + [step]) == after && Sound(after)
  {
    hide *;
    PlayOneMore(start, steps, step, budget);
    StepKeepsSound(Play(start, steps), step, budget);
  }

  // ----- what a course comes to -----

  lemma {:induction false} AllowedAt(start: State, steps: seq<Step>, budget: Budget, n: nat)
    requires Allowed(start, steps, budget) && n < |steps|
    ensures Enabled(Play(start, steps[..n]), steps[n], budget)
    ensures Play(start, steps[..n + 1]) == Next(Play(start, steps[..n]), steps[n])
    decreases |steps|
  {
    hide Enabled, Next;
    var m := |steps| - 1;
    if n < m {
      AllowedAt(start, steps[..m], budget, n);
      assert steps[..m][..n] == steps[..n] && steps[..m][..n + 1] == steps[..n + 1];
    } else {
      assert steps[..n + 1] == steps;
    }
  }

  /** The points of an undisturbed invocation, one after the other. */
  function PathPoint(policy: Option<string>, k: nat): Point {
    if policy.Some? then
      match k
      case 0 => Admit case 1 => Claim case 2 => Record case 3 => Code case 4 => RecordApplying case 5 => Edit
      case 6 => TestAndReview case 7 => RecordPublishing case 8 => Push case 9 => RecordPublished case 10 => Gate
      case 11 => PostReview case 12 => RecordVerdict case 13 => Announce case _ => Released
    else
      match k
      case 0 => Admit case 1 => Claim case 2 => Code case 3 => Edit case 4 => RecordApplied case 5 => Announce
      case _ => Released
  }

  /** The last of them. */
  function PathEnd(policy: Option<string>): nat {
    if policy.Some? then 14 else 6
  }

  /** A fresh task at each of these points. */
  function PathTask(policy: Option<string>, approve: bool, k: nat): Task {
    match policy
    case Some(p) =>
      if k < 2 then FRESH
      else if k == 2 then Task(Some(Started), None, NOTHING)
      else if k == 3 then InRun(p, Started, NOTHING)
      else if k == 4 then InRun(p, Started, Counts(1, 0, 0, 0))
      else if k == 5 then InRun(p, Applying, Counts(1, 0, 0, 0))
      else if k == 6 then InRun(p, Applying, Counts(1, 1, 0, 0))
      else if k == 7 then InRun(p, Reviewed, Counts(1, 1, 0, 0))
      else if k == 8 then InRun(p, Publishing, Counts(1, 1, 0, 0))
      else if k == 9 then InRun(p, Publishing, Counts(1, 1, 1, 0))
      else if k == 10 then InRun(p, PublishedWaitingCi, Counts(1, 1, 1, 0))
      else if k == 11 then InRun(p, ReviewSubmitting, Counts(1, 1, 1, 0))
      else if k == 12 then InRun(p, ReviewSubmitting, Counts(1, 1, 1, 1))
      else InRun(p, if approve then Approved else ChangesRequested, Counts(1, 1, 1, 1))
    case None =>
      if k < 2 then FRESH
      else if k == 2 then Task(Some(Started), None, NOTHING)
      else if k == 3 then Task(Some(Started), None, Counts(1, 0, 0, 0))
      else if k == 4 then Task(Some(Started), None, Counts(1, 1, 0, 0))
      else Task(Some(AppliedUntested), None, Counts(1, 1, 0, 0))
  }

  const FRESH := Task(None, None, NOTHING)

  function InRun(p: string, phase: Phase, c: Counts): Task {
    Task(Some(phase), Some(RunRow(p, phase)), c)
  }

  lemma PathStep(policy: Option<string>, approve: bool, k: nat)
    requires k < PathEnd(policy)
    ensures TaskStep(PathTask(policy, approve, k), policy, PathPoint(policy, k), approve)
         == (PathTask(policy, approve, k + 1), PathPoint(policy, k + 1))
    ensures !PathPoint(policy, k).Released? && (PathPoint(policy, k + 1).Released? <==> k + 1 == PathEnd(policy))
  {
  }

  /** A process of the task stands at the k-th point, with the task as it is there. */
  predicate OnPath(s: State, id: int, policy: Option<string>, approve: bool, k: nat) {
    TaskOf(s, id) == PathTask(policy, approve, k) && s.process == Busy(id, policy, PathPoint(policy, k))
  }

  lemma NextOnPath(s: State, id: int, policy: Option<string>, approve: bool, k: nat)
    requires k < PathEnd(policy) && OnPath(s, id, policy, approve, k)
    ensures var t := Next(s, Proceed(approve));
      && TaskOf(t, id) == PathTask(policy, approve, k + 1)
      && (if k + 1 == PathEnd(policy) then t.process.Idle? else OnPath(t, id, policy, approve, k + 1))
  {
    PathStep(policy, approve, k);
    hide PathPoint, PathTask, TaskStep;
  }

  /** The guards let a process on the path through, if its admission does. */
  lemma PathIsOpen(s: State, id: int, policy: Option<string>, approve: bool, k: nat, budget: Budget)
    requires k < PathEnd(policy) && OnPath(s, id, policy, approve, k)
    requires k == 0 && policy.Some? ==> |TasksUnder(s.tasks, policy.value)| < budget(policy.value)
    ensures CanProceed(s, budget) && (AtGate(s) <==> policy.Some? && k == 10)
  {
  }

  /** From the k-th point on, an undisturbed invocation goes on to the end of the path, or waits at
      the gate. */
  ghost predicate Smooth(start: State, steps: seq<Step>, id: int, policy: Option<string>, course: Course, n: nat,
                         k: nat) {
    && n < |steps|
    && TaskOf(Play(start, steps), id)
       == PathTask(policy, course.approve, if policy.Some? && k <= 10 && !course.ciReady then 10 else PathEnd(policy))
    && (forall i | n < i < |steps| :: steps[i] in {Proceed(course.approve), WaitForCi})
    && (WaitForCi in steps[n + 1..] <==> policy.Some? && k <= 10 && !course.ciReady)
  }

  lemma {:induction false} SmoothFrom(start: State, steps: seq<Step>, id: int, policy: Option<string>, course: Course,
                                      budget: Budget, n: nat, k: nat)
    requires Allowed(start, steps, budget) && Follows(start, steps, id, policy, course, budget)
    requires Play(start, steps).process.Idle? && forall i :: course.fates(i) == Goes
    requires n < |steps| && k < PathEnd(policy) && OnPath(Play(start, steps[..n + 1]), id, policy, course.approve, k)
    requires k == 0 && policy.Some? ==>
      |TasksUnder(Play(start, steps[..n + 1]).tasks, policy.value)| < budget(policy.value)
    ensures Smooth(start, steps, id, policy, course, n, k)
    decreases PathEnd(policy) - k
  {
    hide Allowed, Follows, Play, PathTask, PathPoint, Next, CanProceed, Enabled;
    var s := Play(start, steps[..n + 1]);
    assert steps[..|steps|] == steps;
    FollowsAt(start, steps, id, policy, course, budget, n);
    AllowedAt(start, steps, budget, n + 1);
    PathIsOpen(s, id, policy, course.approve, k, budget);
    var rest := steps[n + 1..];
    assert rest[0] == steps[n + 1];
    if AtGate(s) && !course.ciReady {
      WaitsAndStops(start, steps, id, policy, course, budget, n + 1);
      assert steps[..n + 2] == steps && rest == [WaitForCi];
    } else {
      NextOnPath(s, id, policy, course.approve, k);
      if k + 1 == PathEnd(policy) {
        IdleEnds(start, steps, id, policy, course, budget, n + 1);
        assert steps[..n + 2] == steps && rest == [Proceed(course.approve)];
      } else {
        SmoothFrom(start, steps, id, policy, course, budget, n + 1, k + 1);
        assert rest == [rest[0]] + steps[n + 2..];
      }
    }
  }

  /** An invocation whose process is gone takes no further step. */
  lemma IdleEnds(start: State, steps: seq<Step>, id: int, policy: Option<string>, course: Course, budget: Budget,
                 n: nat)
    requires Allowed(start, steps, budget) && Follows(start, steps, id, policy, course, budget)
    requires forall i :: course.fates(i) == Goes
    requires n < |steps| && Play(start, steps[..n + 1]).process.Idle?
    ensures n + 1 == |steps|
  {
    if n + 1 < |steps| {
      FollowsAt(start, steps, id, policy, course, budget, n);
      AllowedAt(start, steps, budget, n + 1);
      assert false;
    }
  }

  lemma WaitsAndStops(start: State, steps: seq<Step>, id: int, policy: Option<string>, course: Course, budget: Budget,
                      n: nat)
    requires Allowed(start, steps, budget) && Follows(start, steps, id, policy, course, budget)
    requires (forall i :: course.fates(i) == Goes) && n < |steps| && steps[n] == WaitForCi
    ensures n + 1 == |steps| && TaskOf(Play(start, steps), id) == TaskOf(Play(start, steps[..n]), id)
  {
    AllowedAt(start, steps, budget, n);
    hide Allowed, Follows, Play;
    IdleEnds(start, steps, id, policy, course, budget, n);
    assert steps[..n + 1] == steps;
  }

  lemma AfterBegin(start: State, steps: seq<Step>, id: int, policy: Option<string>, course: Course, budget: Budget)
    requires Allowed(start, steps, budget) && Follows(start, steps, id, policy, course, budget)
    ensures Play(start, steps[..1]) == start.(locked := true, process := Busy(id, policy, Admit))
    ensures |steps| == 1 ==> Play(start, steps).process.Busy?
  {
    AllowedAt(start, steps, budget, 0);
    assert steps[..0] == [] && steps[..1] == [steps[0]];
    assert |steps| == 1 ==> steps == [steps[0]];
  }

  lemma EndOfSmooth(start: State, steps: seq<Step>, id: int, policy: Option<string>, course: Course, n: nat, k: nat)
    requires Smooth(start, steps, id, policy, course, n, k) && steps[0] == Begin(id, policy)
    requires forall i | 1 <= i <= n :: steps[i] == Proceed(course.approve)
    ensures EndingOf(steps) == if policy.Some? && k <= 10 && !course.ciReady then WaitingForCi else Completed
  {
    hide Play, TaskOf, PathTask;
    assert forall i | 0 <= i < |steps| :: steps[i] != Kill && steps[i] != Raise;
    assert steps == steps[..n + 1] + steps[n + 1..];
  }

  lemma PathEnds(policy: Option<string>, approve: bool)
    ensures PathTask(policy, approve, 0) == FRESH
    ensures policy.None? ==>
      PathTask(policy, approve, PathEnd(policy)) == Task(Some(AppliedUntested), None, Counts(1, 1, 0, 0))
    ensures policy.Some? ==>
      && PathTask(policy, approve, 10) == InRun(policy.value, PublishedWaitingCi, Counts(1, 1, 1, 0))
      && PathTask(policy, approve, PathEnd(policy)) == Verdict(policy.value, approve)
  {
  }

  /** A task with every effect done once and the verdict recorded. */
  function Verdict(p: string, approve: bool): Task {
    InRun(p, if approve then Approved else ChangesRequested, Counts(1, 1, 1, 1))
  }

  /** What an undisturbed invocation of a fresh, admitted task comes to. A basic run applies it. An
      autonomous run does every effect once and ends with the verdict; while the checks have not
      finished it waits with everything but the review done. */
  lemma FreshInvocation(start: State, steps: seq<Step>, id: int, policy: Option<string>, course: Course, budget: Budget)
    requires Allowed(start, steps, budget) && Follows(start, steps, id, policy, course, budget)
    requires Play(start, steps).process.Idle? && forall i :: course.fates(i) == Goes
    requires TaskOf(start, id) == FRESH
    requires policy.Some? ==> |TasksUnder(start.tasks, policy.value)| < budget(policy.value)
    ensures EndingOf(steps) == if policy.Some? && !course.ciReady then WaitingForCi else Completed
    ensures TaskOf(Play(start, steps), id) ==
      if policy.None? then Task(Some(AppliedUntested), None, Counts(1, 1, 0, 0))
      else if course.ciReady then Verdict(policy.value, course.approve)
      else InRun(policy.value, PublishedWaitingCi, Counts(1, 1, 1, 0))
  {
    AfterBegin(start, steps, id, policy, course, budget);
    PathEnds(policy, course.approve);
    hide Allowed, Play, PathTask, TasksUnder, Decided;
    assert steps[0] == Begin(id, policy);
    hide Follows;
    SmoothFrom(start, steps, id, policy, course, budget, 0, 0);
    EndOfSmooth(start, steps, id, policy, course, 0, 0);
  }

  /** The admission of a waiting task. */
  lemma WaitingIsAdmitted(start: State, id: int, p: string, approve: bool, budget: Budget)
    requires TaskOf(start, id) == InRun(p, PublishedWaitingCi, Counts(1, 1, 1, 0))
    ensures var s := start.(locked := true, process := Busy(id, Some(p), Admit));
      CanProceed(s, budget) && !AtGate(s) && OnPath(Next(s, Proceed(approve)), id, Some(p), approve, 10)
  {
    hide TasksUnder;
  }

  lemma ResumedAtGate(start: State, steps: seq<Step>, id: int, p: string, course: Course, budget: Budget)
    requires Allowed(start, steps, budget) && Follows(start, steps, id, Some(p), course, budget)
    requires Play(start, steps).process.Idle? && forall i :: course.fates(i) == Goes
    requires TaskOf(start, id) == InRun(p, PublishedWaitingCi, Counts(1, 1, 1, 0))
    ensures |steps| > 1 && steps[0] == Begin(id, Some(p)) && steps[1] == Proceed(course.approve)
    ensures OnPath(Play(start, steps[..2]), id, Some(p), course.approve, 10)
  {
    AfterBegin(start, steps, id, Some(p), course, budget);
    WaitingIsAdmitted(start, id, p, course.approve, budget);
    FollowsAt(start, steps, id, Some(p), course, budget, 0);
    AllowedAt(start, steps, budget, 1);
    hide Allowed, Play, OnPath, Next, Enabled, CanProceed, AtGate;
  }

  /** What an undisturbed invocation of a task in the CI wait comes to, under the policy that
      recorded it: the review and the verdict once the checks have finished, and nothing before. */
  lemma ResumedInvocation(start: State, steps: seq<Step>, id: int, p: string, course: Course, budget: Budget)
    requires Allowed(start, steps, budget) && Follows(start, steps, id, Some(p), course, budget)
    requires Play(start, steps).process.Idle? && forall i :: course.fates(i) == Goes
    requires TaskOf(start, id) == InRun(p, PublishedWaitingCi, Counts(1, 1, 1, 0))
    ensures EndingOf(steps) == if course.ciReady then Completed else WaitingForCi
    ensures TaskOf(Play(start, steps), id) == if course.ciReady then Verdict(p, course.approve) else TaskOf(start, id)
  {
    hide Allowed, Follows, Play, PathTask, PathPoint, TasksUnder, OnPath, TaskOf, EndingOf;
    PathEnds(Some(p), course.approve);
    ResumedAtGate(start, steps, id, p, course, budget);
    SmoothFrom(start, steps, id, Some(p), course, budget, 1, 10);
    EndOfSmooth(start, steps, id, Some(p), course, 1, 10);
  }
}
