/** The agent bridge as a machine of small steps over its durable receipts and run rows. The
    process may raise or be killed before every step; a kill leaves the run lock behind. */
module BridgeProtocol {
  import opened Text

  datatype Phase =
    | Started | Applying | Reviewed | Publishing | PublishedWaitingCi | ReviewSubmitting
    | Approved | ChangesRequested
    | AppliedUntested | FailedOwnerRecovery

  /** Phases in which an effect may have happened without being recorded. */
  predicate Ambiguous(p: Phase) {
    p.Started? || p.Applying? || p.Reviewed? || p.Publishing? || p.ReviewSubmitting?
  }

  predicate Terminal(p: Phase) {
    p.Approved? || p.ChangesRequested? || p.AppliedUntested? || p.FailedOwnerRecovery?
  }

  datatype RunRow = RunRow(policy: string, phase: Phase)

  /** How often a task has had each effect on the world outside the database: coding,
      editing the worktree, pushing, reviewing on GitHub. A history the bridge does not store. */
  datatype Counts = Counts(coded: nat, edited: nat, pushed: nat, reviewed: nat)

  const NOTHING := Counts(0, 0, 0, 0)

  /** One task: its row in each table, and its history. */
  datatype Task = Task(receipt: Option<Phase>, run: Option<RunRow>, counts: Counts)

  const NEW := Task(None, None, NOTHING)

  /** What the process does next. At `Announce` the terminal receipt is written and the status
      line is not; at `Unwind` a failure has been handled and the lock is still held. */
  datatype Point =
    | Admit | Claim | Record | Code | RecordApplying | Edit | TestAndReview | RecordPublishing
    | Push | RecordPublished | Gate | PostReview | RecordVerdict | RecordApplied
    | Announce | Unwind | Released

  /** `policy` is `None` in a basic run and the policy hash in an autonomous one. */
  datatype Process = Idle | Busy(id: int, policy: Option<string>, point: Point)

  datatype State = State(tasks: map<int, Task>, locked: bool, process: Process)

  const INITIAL := State(map[], false, Idle)

  function TaskOf(s: State, id: int): Task {
    if id in s.tasks then s.tasks[id] else NEW
  }

  /** The number of tasks a policy allows; the hash fixes the policy and so the number. */
  type Budget = string -> nat

  predicate UnderPolicy(t: Task, policy: string) {
    t.run.Some? && t.run.value.policy == policy
  }

  function TasksUnder(tasks: map<int, Task>, policy: string): set<int> {
    set id | id in tasks && UnderPolicy(tasks[id], policy)
  }

  /** Replace the run row and update the receipt, in one transaction. */
  function SetPhase(t: Task, policy: string, p: Phase): Task {
    t.(run := Some(RunRow(policy, p)), receipt := if t.receipt.Some? then Some(p) else None)
  }

  /** One step of an autonomous task: the task afterwards, and where the process stands. */
  function AutonomousStep(t: Task, policy: string, point: Point, approve: bool): (Task, Point) {
    var c := t.counts;
    match point
    case Admit => (t, if t.run.Some? then Gate else Claim)
    case Claim => (t.(receipt := Some(Started)), Record)
    case Record => (SetPhase(t, policy, Started), Code)
    case Code => (t.(counts := c.(coded := c.coded + 1)), RecordApplying)
    case RecordApplying => (SetPhase(t, policy, Applying), Edit)
    case Edit => (t.(counts := c.(edited := c.edited + 1)), TestAndReview)
    case TestAndReview => (SetPhase(t, policy, Reviewed), RecordPublishing)
    case RecordPublishing => (SetPhase(t, policy, Publishing), Push)
    case Push => (t.(counts := c.(pushed := c.pushed + 1)), RecordPublished)
    case RecordPublished => (SetPhase(t, policy, PublishedWaitingCi), Gate)
    case Gate => (SetPhase(t, policy, ReviewSubmitting), PostReview)
    case PostReview => (t.(counts := c.(reviewed := c.reviewed + 1)), RecordVerdict)
    case RecordVerdict => (SetPhase(t, policy, if approve then Approved else ChangesRequested), Announce)
    case _ => (t, Released)
  }

  /** One step of a basic run: claim, code, edit, record, announce. */
  function BasicStep(t: Task, point: Point): (Task, Point) {
    var c := t.counts;
    match point
    case Admit => (t, Claim)
    case Claim => (t.(receipt := Some(Started)), Code)
    case Code => (t.(counts := c.(coded := c.coded + 1)), Edit)
    case Edit => (t.(counts := c.(edited := c.edited + 1)), RecordApplied)
    case RecordApplied => (t.(receipt := Some(AppliedUntested)), Announce)
    case _ => (t, Released)
  }

  function TaskStep(t: Task, policy: Option<string>, point: Point, approve: bool): (Task, Point) {
    match policy
    case Some(p) => AutonomousStep(t, p, point, approve)
    case None => BasicStep(t, point)
  }

  /** The failure handlers: an ambiguous run row, or a claimed basic receipt, becomes
      owner-recovery work; everything else is left alone. */
  function Failed(t: Task, policy: Option<string>, point: Point): Task {
    if point.Unwind? then t
    else
      match policy
      case Some(p) => if t.run.Some? && Ambiguous(t.run.value.phase) then SetPhase(t, p, FailedOwnerRecovery) else t
      case None => if point.Admit? || point.Claim? then t else t.(receipt := Some(FailedOwnerRecovery))
  }

  /** The guards of one step: admission of a recorded task needs its own policy and the
      CI-wait phase, admission of a new one needs budget, and a claim needs a free receipt. */
  predicate CanProceed(s: State, budget: Budget) {
    s.process.Busy? &&
    var t := TaskOf(s, s.process.id);
    match s.process.point
    case Admit =>
      (match s.process.policy
       case None => true
       case Some(p) =>
         if t.run.Some? then t.run.value == RunRow(p, PublishedWaitingCi)
         else |TasksUnder(s.tasks, p)| < budget(p))
    case Claim => t.receipt.None?
    case _ => true
  }

  datatype Step =
    | Begin(id: int, policy: Option<string>)
    | Proceed(approve: bool)
    | WaitForCi
    | Raise
    | Kill
    | RecoverLock

  /** The owner removes a left-over lock only when no process is running. */
  predicate Enabled(s: State, step: Step, budget: Budget) {
    match step
    case Begin(_, _) => !s.locked
    case Proceed(_) => CanProceed(s, budget)
    case WaitForCi => s.process.Busy? && s.process.policy.Some? && s.process.point.Gate?
    case Raise => s.process.Busy?
    case Kill => s.process.Busy?
    case RecoverLock => s.process.Idle?
  }

  function Next(s: State, step: Step): State {
    match step
    case Begin(id, policy) => s.(locked := true, process := Busy(id, policy, Admit))
    case Proceed(approve) =>
      if s.process.Idle? then s
      else
        var (t, point) := TaskStep(TaskOf(s, s.process.id), s.process.policy, s.process.point, approve);
        if point.Released? then State(s.tasks[s.process.id := t], false, Idle)
        else s.(tasks := s.tasks[s.process.id := t], process := s.process.(point := point))
    case WaitForCi => s.(locked := false, process := Idle)
    case Raise =>
      if s.process.Idle? then s
      else
        var t := Failed(TaskOf(s, s.process.id), s.process.policy, s.process.point);
        if s.process.point.Unwind? then State(s.tasks[s.process.id := t], false, Idle)
        else s.(tasks := s.tasks[s.process.id := t], process := s.process.(point := Unwind))
    case Kill => s.(process := Idle)
    case RecoverLock => s.(locked := false)
  }

  /** Every effect at most once, and each only after the one before it. */
  predicate AtMostOnceInOrder(c: Counts) {
    c.reviewed <= c.pushed <= c.edited <= c.coded <= 1
  }

  predicate InPhase(t: Task, p: Phase) {
    t.receipt == Some(p) && t.run.Some? && t.run.value.phase == p
  }

  /** What holds of the active task when its process stands at a point. */
  predicate AtPoint(t: Task, policy: Option<string>, point: Point) {
    var basic, claimed := policy.None?, t.receipt == Some(Started) && t.run.None?;
    match point
    case Admit => true
    case Claim => basic || t.run.None?
    case Record => !basic && claimed && t.counts == NOTHING
    case Code => (if basic then claimed else InPhase(t, Started)) && t.counts == NOTHING
    case RecordApplying => !basic && InPhase(t, Started) && t.counts == Counts(1, 0, 0, 0)
    case Edit => (if basic then claimed else InPhase(t, Applying)) && t.counts == Counts(1, 0, 0, 0)
    case RecordApplied => basic && claimed && t.counts == Counts(1, 1, 0, 0)
    case TestAndReview => !basic && InPhase(t, Applying) && t.counts == Counts(1, 1, 0, 0)
    case RecordPublishing => !basic && InPhase(t, Reviewed) && t.counts == Counts(1, 1, 0, 0)
    case Push => !basic && InPhase(t, Publishing) && t.counts == Counts(1, 1, 0, 0)
    case RecordPublished => !basic && InPhase(t, Publishing) && t.counts == Counts(1, 1, 1, 0)
    case Gate => !basic && InPhase(t, PublishedWaitingCi)
    case PostReview => !basic && InPhase(t, ReviewSubmitting) && t.counts == Counts(1, 1, 1, 0)
    case RecordVerdict => !basic && InPhase(t, ReviewSubmitting) && t.counts == Counts(1, 1, 1, 1)
    case Announce =>
      if basic then t.receipt == Some(AppliedUntested) && t.run.None?
      else InPhase(t, Approved) || InPhase(t, ChangesRequested)
    case Unwind => true
    case Released => false
  }

  /** What holds of every task at every moment. */
  predicate TaskSound(t: Task) {
    && AtMostOnceInOrder(t.counts)
    && (t.receipt.None? ==> t.counts == NOTHING && t.run.None?)
    && (t.run.Some? ==> InPhase(t, t.run.value.phase))
    && (t.receipt == Some(PublishedWaitingCi) ==> t.run.Some? && t.counts == Counts(1, 1, 1, 0))
    && (t.receipt == Some(Approved) || t.receipt == Some(ChangesRequested) ==> t.counts == Counts(1, 1, 1, 1))
    && (t.receipt == Some(AppliedUntested) ==> t.counts == Counts(1, 1, 0, 0))
  }

  ghost predicate Sound(s: State) {
    && (s.process.Busy? ==> s.locked && AtPoint(TaskOf(s, s.process.id), s.process.policy, s.process.point))
    && forall id | id in s.tasks :: TaskSound(s.tasks[id])
  }

  lemma AutonomousStepKeepsSound(t: Task, policy: string, point: Point, approve: bool)
    requires TaskSound(t) && AtPoint(t, Some(policy), point)
    requires point.Admit? && t.run.Some? ==> t.run.value == RunRow(policy, PublishedWaitingCi)
    requires point.Claim? ==> t.receipt.None?
    ensures var (u, next) := AutonomousStep(t, policy, point, approve);
      TaskSound(u) && (!next.Released? ==> AtPoint(u, Some(policy), next))
  {
  }

  lemma TaskStepKeepsSound(t: Task, policy: Option<string>, point: Point, approve: bool)
    requires TaskSound(t) && AtPoint(t, policy, point)
    requires point.Admit? && policy.Some? && t.run.Some? ==> t.run.value == RunRow(policy.value, PublishedWaitingCi)
    requires point.Claim? ==> t.receipt.None?
    ensures var (u, next) := TaskStep(t, policy, point, approve);
      TaskSound(u) && (!next.Released? ==> AtPoint(u, policy, next))
  {
    if policy.Some? {
      AutonomousStepKeepsSound(t, policy.value, point, approve);
      hide AutonomousStep, TaskSound, AtPoint;
    }
  }

  lemma FailedIsSound(t: Task, policy: Option<string>, point: Point)
    requires TaskSound(t) && AtPoint(t, policy, point)
    ensures TaskSound(Failed(t, policy, point))
  {
  }

  /** Every step keeps every effect of every task at most once and in order. */
  lemma StepKeepsSound(s: State, step: Step, budget: Budget)
    requires Sound(s) && Enabled(s, step, budget)
    ensures Sound(Next(s, step))
  {
    if s.process.Busy? {
      var t, p := TaskOf(s, s.process.id), s.process;
      assert TaskSound(t);
      FailedIsSound(t, p.policy, p.point);
      if step.Proceed? {
        TaskStepKeepsSound(t, p.policy, p.point, step.approve);
      }
    }
    assert TaskSound(NEW);
    hide TaskSound, TaskStep, Failed;
  }

  ghost predicate Run(states: seq<State>, steps: seq<Step>, budget: Budget) {
    |states| == |steps| + 1 && states[0] == INITIAL
    && forall i | 0 <= i < |steps| :: Enabled(states[i], steps[i], budget) && states[i + 1] == Next(states[i], steps[i])
  }

  lemma RunStep(states: seq<State>, steps: seq<Step>, budget: Budget, i: nat)
    requires Run(states, steps, budget) && i < |steps|
    ensures Enabled(states[i], steps[i], budget) && states[i + 1] == Next(states[i], steps[i])
  {
    hide Enabled, Next;
  }

  lemma RunShape(states: seq<State>, steps: seq<Step>, budget: Budget)
    requires Run(states, steps, budget)
    ensures |states| == |steps| + 1 && states[0] == INITIAL
  {
    hide Enabled, Next;
  }

  lemma {:induction false} EveryRunIsSound(states: seq<State>, steps: seq<Step>, budget: Budget, i: nat)
    requires Run(states, steps, budget) && i < |states|
    ensures Sound(states[i])
  {
    assert Sound(INITIAL);
    hide *;
    RunShape(states, steps, budget);
    if i > 0 {
      EveryRunIsSound(states, steps, budget, i - 1);
      RunStep(states, steps, budget, i - 1);
      StepKeepsSound(states[i - 1], steps[i - 1], budget);
    }
  }

  lemma SoundTask(s: State, id: int)
    requires Sound(s)
    ensures TaskSound(TaskOf(s, id))
  {
  }

  /** Over any sequence of runs, resumes, failures and kills, each task is coded, edited,
      pushed and reviewed at most once, and never out of order. */
  lemma EffectsAtMostOnce(states: seq<State>, steps: seq<Step>, budget: Budget, i: nat, id: int)
    requires Run(states, steps, budget) && i < |states|
    ensures var c := TaskOf(states[i], id).counts;
      c.coded <= 1 && c.edited <= c.coded && c.pushed <= c.edited && c.reviewed <= c.pushed
  {
    EveryRunIsSound(states, steps, budget, i);
    SoundTask(states[i], id);
    hide Run, Sound;
  }

  predicate NoFewer(c: Counts, d: Counts) {
    c.coded <= d.coded && c.edited <= d.edited && c.pushed <= d.pushed && c.reviewed <= d.reviewed
  }

  lemma NoFewerIsTransitive(c: Counts, d: Counts, e: Counts)
    requires NoFewer(c, d) && NoFewer(d, e)
    ensures NoFewer(c, e)
  {
  }

  lemma TaskStepUndoesNothing(t: Task, policy: Option<string>, point: Point, approve: bool)
    ensures NoFewer(t.counts, TaskStep(t, policy, point, approve).0.counts)
    ensures Failed(t, policy, point).counts == t.counts
  {
  }

  lemma StepUndoesNothing(s: State, step: Step, id: int)
    ensures NoFewer(TaskOf(s, id).counts, TaskOf(Next(s, step), id).counts)
  {
    if s.process.Busy? {
      TaskStepUndoesNothing(TaskOf(s, s.process.id), s.process.policy, s.process.point, step.Proceed? && step.approve);
    }
    hide TaskStep, Failed;
  }

  lemma {:induction false} NothingIsUndone(states: seq<State>, steps: seq<Step>, budget: Budget, i: nat, j: nat,
                                            id: int)
    requires Run(states, steps, budget) && i <= j < |states|
    ensures NoFewer(TaskOf(states[i], id).counts, TaskOf(states[j], id).counts)
  {
    hide Run, Next, Enabled, TaskOf;
    RunShape(states, steps, budget);
    if i < j {
      NothingIsUndone(states, steps, budget, i, j - 1, id);
      RunStep(states, steps, budget, j - 1);
      StepUndoesNothing(states[j - 1], steps[j - 1], id);
      NoFewerIsTransitive(TaskOf(states[i], id).counts, TaskOf(states[j - 1], id).counts, TaskOf(states[j], id).counts);
    }
  }

  /** A task waiting for CI has been coded, edited and pushed exactly once, and no later step
      of any process does any of these to it again. */
  lemma ResumeNeverRecodes(states: seq<State>, steps: seq<Step>, budget: Budget, i: nat, j: nat, id: int)
    requires Run(states, steps, budget) && i <= j < |states|
    requires TaskOf(states[i], id).receipt == Some(PublishedWaitingCi)
    ensures TaskOf(states[i], id).counts == Counts(1, 1, 1, 0)
    ensures TaskOf(states[j], id).counts in {Counts(1, 1, 1, 0), Counts(1, 1, 1, 1)}
  {
    EveryRunIsSound(states, steps, budget, i);
    SoundTask(states[i], id);
    EveryRunIsSound(states, steps, budget, j);
    SoundTask(states[j], id);
    NothingIsUndone(states, steps, budget, i, j, id);
    hide Run, Sound, TaskOf;
  }

  predicate Finished(t: Task) {
    t.receipt.Some? && Terminal(t.receipt.value)
  }

  /** A basic run that dies between its terminal receipt and its status line. */
  predicate FailsToAnnounce(s: State, step: Step, id: int) {
    step.Raise? && s.process == Busy(id, None, Announce)
  }

  /** One step leaves a finished task finished, with its effects and its run row. It changes the
      receipt exactly when a basic run fails to announce it. */
  lemma StepOnFinished(s: State, step: Step, budget: Budget, id: int)
    requires Sound(s) && Enabled(s, step, budget) && Finished(TaskOf(s, id))
    ensures var t, u := TaskOf(s, id), TaskOf(Next(s, step), id);
      && Finished(u) && u.counts == t.counts && u.run == t.run
      && (u.receipt != t.receipt <==> FailsToAnnounce(s, step, id))
      && (u.receipt != t.receipt ==> t.receipt == Some(AppliedUntested) && u.receipt == Some(FailedOwnerRecovery))
  {
    SoundTask(s, id);
  }

  /** Some step between two moments failed to announce the task. */
  predicate AnnouncementFailed(states: seq<State>, steps: seq<Step>, from: nat, until: nat, id: int) {
    exists k :: from <= k < until && k < |steps| && k < |states| && FailsToAnnounce(states[k], steps[k], id)
  }

  lemma AnnouncementFailedOneMore(states: seq<State>, steps: seq<Step>, from: nat, until: nat, id: int)
    requires from <= until < |steps| && until < |states|
    ensures AnnouncementFailed(states, steps, from, until + 1, id)
       <==> AnnouncementFailed(states, steps, from, until, id) || FailsToAnnounce(states[until], steps[until], id)
  {
    hide FailsToAnnounce;
  }

  lemma NoAnnouncementYet(states: seq<State>, steps: seq<Step>, from: nat, id: int)
    ensures !AnnouncementFailed(states, steps, from, from, id)
  {
  }

  /** What becomes of a finished task, given whether an announcement failed. */
  predicate StaysFinished(t: Task, u: Task, failed: bool) {
    && Finished(u) && u.counts == t.counts && u.run == t.run
    && (if failed then t.receipt == Some(AppliedUntested) && u.receipt == Some(FailedOwnerRecovery)
        else u.receipt == t.receipt)
  }

  lemma FinishedToBeginWith(t: Task)
    requires Finished(t)
    ensures StaysFinished(t, t, false)
  {
  }

  lemma StaysFinishedThroughStep(t: Task, s: State, step: Step, budget: Budget, id: int, failed: bool)
    requires Sound(s) && Enabled(s, step, budget) && StaysFinished(t, TaskOf(s, id), failed)
    ensures StaysFinished(t, TaskOf(Next(s, step), id), failed || FailsToAnnounce(s, step, id))
  {
    StepOnFinished(s, step, budget, id);
    hide Sound, Enabled, Next, TaskOf, FailsToAnnounce;
  }

  /** A terminal task stays terminal, with the same effects and the same run row. Its receipt
      changes if and only if a basic run fails after writing it and before announcing it: then
      APPLIED_UNTESTED becomes FAILED_OWNER_RECOVERY. */
  lemma {:induction false} FinishedStays(states: seq<State>, steps: seq<Step>, budget: Budget, i: nat, j: nat, id: int)
    requires Run(states, steps, budget) && i <= j < |states| && Finished(TaskOf(states[i], id))
    ensures StaysFinished(TaskOf(states[i], id), TaskOf(states[j], id), AnnouncementFailed(states, steps, i, j, id))
  {
    hide *;
    RunShape(states, steps, budget);
    FinishedToBeginWith(TaskOf(states[i], id));
    NoAnnouncementYet(states, steps, i, id);
    if i < j {
      FinishedStays(states, steps, budget, i, j - 1, id);
      EveryRunIsSound(states, steps, budget, j - 1);
      RunStep(states, steps, budget, j - 1);
      StaysFinishedThroughStep(TaskOf(states[i], id), states[j - 1], steps[j - 1], budget, id,
                               AnnouncementFailed(states, steps, i, j - 1, id));
      AnnouncementFailedOneMore(states, steps, i, j - 1, id);
    }
  }

  /** What a poll may pick up again, as far as the receipts go. */
  predicate Eligible(t: Task) {
    t.receipt.None? || t.receipt == Some(PublishedWaitingCi)
  }

  /** A failure consumes the task exactly when it comes between the claim and the CI wait, or
      after the CI wait ended: before the claim and while waiting for CI the task stays as
      eligible as it was, whatever the reason of the failure. */
  lemma FailureConsumesIff(s: State)
    requires Sound(s) && s.process.Busy?
    ensures var before, after := TaskOf(s, s.process.id), TaskOf(Next(s, Raise), s.process.id);
      && (Eligible(after) <==> Eligible(before))
      && (Eligible(before) ==> after == before)
      && (!s.process.point.Admit? && !s.process.point.Claim? && !s.process.point.Unwind? ==>
            (Eligible(after) <==> s.process.point.Gate?))
  {
    SoundTask(s, s.process.id);
  }

  lemma UnderPolicyElsewhere(tasks: map<int, Task>, id: int, t: Task, policy: string)
    ensures TasksUnder(tasks[id := t], policy) ==
      if UnderPolicy(t, policy) then TasksUnder(tasks, policy) + {id} else TasksUnder(tasks, policy) - {id}
  {
  }

  /** Rewriting a row keeps a policy's count, lowers it, or raises it by the row that joins. */
  lemma CountAfterRewrite(tasks: map<int, Task>, id: int, t: Task, policy: string)
    ensures var was := id in tasks && UnderPolicy(tasks[id], policy);
      |TasksUnder(tasks[id := t], policy)| == |TasksUnder(tasks, policy)|
        + (if UnderPolicy(t, policy) && !was then 1 else 0) - (if was && !UnderPolicy(t, policy) then 1 else 0)
  {
    UnderPolicyElsewhere(tasks, id, t, policy);
    var s := TasksUnder(tasks, policy);
    if id in s {
      assert s + {id} == s;
    } else {
      assert s - {id} == s;
    }
    hide UnderPolicy;
  }

  /** A task is only ever invoked under the policy that recorded it. */
  predicate Faithful(s: State, step: Step) {
    step.Begin? && step.policy.Some? && TaskOf(s, step.id).run.Some? ==>
      TaskOf(s, step.id).run.value.policy == step.policy.value
  }

  /** The active autonomous task owns its row, and while it has none it holds budget for one. */
  ghost predicate Reserved(s: State, budget: Budget) {
    s.process.Busy? && s.process.policy.Some? ==>
      var t, p := TaskOf(s, s.process.id), s.process.policy.value;
      && (t.run.Some? ==> t.run.value.policy == p)
      && (s.process.point.Claim? || s.process.point.Record? ==> t.run.None? && |TasksUnder(s.tasks, p)| < budget(p))
  }

  ghost predicate WithinBudget(s: State, budget: Budget) {
    forall p :: |TasksUnder(s.tasks, p)| <= budget(p)
  }

  /** The row a step of an autonomous or basic task leaves behind. */
  lemma RowAfterStep(t: Task, policy: Option<string>, point: Point, approve: bool)
    requires AtPoint(t, policy, point)
    requires t.run.Some? && policy.Some? ==> t.run.value.policy == policy.value
    ensures var (u, next) := TaskStep(t, policy, point, approve);
      && (u.run == t.run || (policy.Some? && u.run.Some? && u.run.value.policy == policy.value))
      && (u.run.Some? && t.run.None? ==> point.Record?)
      && (policy.Some? && next.Claim? ==> point.Admit? && u.run.None?)
      && (policy.Some? && next.Record? ==> point.Claim? && u.run == t.run)
  {
  }

  lemma RowAfterFailure(t: Task, policy: Option<string>, point: Point)
    ensures var u := Failed(t, policy, point);
      u.run == t.run || (policy.Some? && t.run.Some? && Ambiguous(t.run.value.phase)
                         && u.run == Some(RunRow(policy.value, FailedOwnerRecovery)))
  {
  }

  lemma RowUpdate(s: State, id: int, u: Task, budget: Budget)
    requires WithinBudget(s, budget)
    requires u.run == TaskOf(s, id).run
      || (u.run.Some? && TaskOf(s, id).run.Some? && u.run.value.policy == TaskOf(s, id).run.value.policy)
      || (u.run.Some? && TaskOf(s, id).run.None?
          && |TasksUnder(s.tasks, u.run.value.policy)| < budget(u.run.value.policy))
    ensures forall p :: |TasksUnder(s.tasks[id := u], p)| <= budget(p)
    ensures u.run == TaskOf(s, id).run ==> forall p :: |TasksUnder(s.tasks[id := u], p)| == |TasksUnder(s.tasks, p)|
  {
    forall p
      ensures |TasksUnder(s.tasks[id := u], p)| <= budget(p)
      ensures u.run == TaskOf(s, id).run ==> |TasksUnder(s.tasks[id := u], p)| == |TasksUnder(s.tasks, p)|
    {
      assert |TasksUnder(s.tasks, p)| <= budget(p);
      CountAfterRewrite(s.tasks, id, u, p);
    }
  }

  lemma ProceedKeepsBudget(s: State, approve: bool, budget: Budget)
    requires Sound(s) && CanProceed(s, budget) && Reserved(s, budget) && WithinBudget(s, budget)
    ensures Reserved(Next(s, Proceed(approve)), budget) && WithinBudget(Next(s, Proceed(approve)), budget)
  {
    var p := s.process;
    var t := TaskOf(s, p.id);
    RowAfterStep(t, p.policy, p.point, approve);
    RowUpdate(s, p.id, TaskStep(t, p.policy, p.point, approve).0, budget);
    hide TasksUnder, TaskStep, AtPoint, TaskSound;
  }

  lemma RaiseKeepsBudget(s: State, budget: Budget)
    requires s.process.Busy? && Reserved(s, budget) && WithinBudget(s, budget)
    ensures WithinBudget(Next(s, Raise), budget) && Reserved(Next(s, Raise), budget)
  {
    var t := TaskOf(s, s.process.id);
    RowAfterFailure(t, s.process.policy, s.process.point);
    RowUpdate(s, s.process.id, Failed(t, s.process.policy, s.process.point), budget);
    hide TasksUnder, Failed;
  }

  lemma StepKeepsBudget(s: State, step: Step, budget: Budget)
    requires Sound(s) && Enabled(s, step, budget) && Faithful(s, step)
    requires Reserved(s, budget) && WithinBudget(s, budget)
    ensures Reserved(Next(s, step), budget) && WithinBudget(Next(s, step), budget)
  {
    if step.Proceed? {
      ProceedKeepsBudget(s, step.approve, budget);
    } else if step.Raise? {
      RaiseKeepsBudget(s, budget);
    }
    hide TasksUnder, TaskStep, Failed, CanProceed, AtPoint, TaskSound;
  }

  lemma {:induction false} BudgetHoldsEverywhere(states: seq<State>, steps: seq<Step>, budget: Budget, i: nat)
    requires Run(states, steps, budget) && i < |states|
    requires forall k | 0 <= k < |steps| :: Faithful(states[k], steps[k])
    ensures Reserved(states[i], budget) && WithinBudget(states[i], budget)
  {
    assert Reserved(INITIAL, budget) && WithinBudget(INITIAL, budget) by {
      assert forall p :: TasksUnder(map[], p) == {};
    }
    hide *;
    RunShape(states, steps, budget);
    if i > 0 {
      BudgetHoldsEverywhere(states, steps, budget, i - 1);
      EveryRunIsSound(states, steps, budget, i - 1);
      RunStep(states, steps, budget, i - 1);
      StepKeepsBudget(states[i - 1], steps[i - 1], budget);
    }
  }

  /** While tasks are invoked under the policy that recorded them, no policy ever has more
      run rows than it allows, through every rewrite, failure, kill and resume. */
  lemma PolicyBudgetHolds(states: seq<State>, steps: seq<Step>, budget: Budget, i: nat, policy: string)
    requires Run(states, steps, budget) && i < |states|
    requires forall k | 0 <= k < |steps| :: Faithful(states[k], steps[k])
    ensures |TasksUnder(states[i].tasks, policy)| <= budget(policy)
  {
    BudgetHoldsEverywhere(states, steps, budget, i);
    hide Run, Faithful, TasksUnder;
  }

  /** Exactly when a failure breaks a budget: a task whose row a kill left in an ambiguous
      phase under another policy fails again under a policy that has none left. */
  lemma FailureBreaksBudgetIff(s: State, budget: Budget)
    requires s.process.Busy? && WithinBudget(s, budget)
    ensures WithinBudget(Next(s, Raise), budget) <==>
      !(var t := TaskOf(s, s.process.id);
        && s.process.policy.Some? && !s.process.point.Unwind? && t.run.Some? && Ambiguous(t.run.value.phase)
        && t.run.value.policy != s.process.policy.value
        && |TasksUnder(s.tasks, s.process.policy.value)| == budget(s.process.policy.value))
  {
    var id, policy := s.process.id, s.process.policy;
    var t := TaskOf(s, id);
    var u := Failed(t, policy, s.process.point);
    RowAfterFailure(t, policy, s.process.point);
    forall p ensures |TasksUnder(s.tasks, p)| <= budget(p)
                  && |TasksUnder(s.tasks[id := u], p)| == |TasksUnder(s.tasks, p)|
                       + (if UnderPolicy(u, p) && !UnderPolicy(t, p) then 1 else 0)
                       - (if UnderPolicy(t, p) && !UnderPolicy(u, p) then 1 else 0) {
      CountAfterRewrite(s.tasks, id, u, p);
    }
    hide TasksUnder;
    if policy.Some? {
      assert |TasksUnder(s.tasks[id := u], policy.value)| <= budget(policy.value)
        <==> WithinBudget(Next(s, Raise), budget);
    }
  }

  /** The part of a run in which a fresh task is admitted, claimed and recorded, and then
      killed; the owner removes the lock. */
  ghost predicate Stranded(before: State, after: State, id: int, policy: string, budget: Budget)
    requires !before.locked
  {
    var s1 := Next(before, Begin(id, Some(policy)));
    var s2, go := Next(s1, Proceed(true)), Proceed(true);
    var s3 := Next(s2, go);
    var s4 := Next(s3, go);
    && Enabled(s1, go, budget) && Enabled(s2, go, budget) && Enabled(s3, go, budget) && Enabled(s4, Kill, budget)
    && after == Next(Next(s4, Kill), RecoverLock)
  }

  lemma FreshTaskCanStrand(s: State, id: int, policy: string, budget: Budget)
    requires s.process.Idle? && !s.locked && id !in s.tasks && |TasksUnder(s.tasks, policy)| < budget(policy)
    ensures var row := Task(Some(Started), Some(RunRow(policy, Started)), NOTHING);
      Stranded(s, s.(tasks := s.tasks[id := row]), id, policy, budget)
  {
    var s1 := Next(s, Begin(id, Some(policy)));
    var s2 := Next(s1, Proceed(true));
    UnderPolicyElsewhere(s.tasks, id, NEW, policy);
    assert TasksUnder(s1.tasks, policy) == TasksUnder(s.tasks, policy);
    assert s2 == s1.(tasks := s.tasks[id := NEW], process := Busy(id, Some(policy), Claim));
    var s3 := Next(s2, Proceed(true));
    assert s3 == s1.(tasks := s.tasks[id := Task(Some(Started), None, NOTHING)],
                     process := Busy(id, Some(policy), Record));
  }

  lemma FailsUnder(s: State, id: int, policy: string)
    requires id in s.tasks && s.tasks[id].run.Some? && Ambiguous(s.tasks[id].run.value.phase)
    requires s.tasks[id].receipt.Some?
    ensures var row := Task(Some(FailedOwnerRecovery), Some(RunRow(policy, FailedOwnerRecovery)), s.tasks[id].counts);
      Next(Next(s, Begin(id, Some(policy))), Raise) == State(s.tasks[id := row], true, Busy(id, Some(policy), Unwind))
  {
  }

  /** The budget does break: with one task allowed per policy, "A" strands task 1 and "B"
      strands task 2; when task 1 fails under "B", two rows carry "B". */
  lemma ForeignFailureBreaksBudget() returns (s: State, t: State, u: State)
    ensures var budget: Budget := _ => 1;
      && Stranded(INITIAL, s, 1, "A", budget) && !s.locked && Stranded(s, t, 2, "B", budget) && !t.locked
      && u == Next(Next(t, Begin(1, Some("B"))), Raise)
      && |TasksUnder(t.tasks, "B")| == 1 && |TasksUnder(u.tasks, "B")| == 2
  {
    var budget: Budget := _ => 1;
    var a := Task(Some(Started), Some(RunRow("A", Started)), NOTHING);
    var b := Task(Some(Started), Some(RunRow("B", Started)), NOTHING);
    hide Next, Stranded;
    assert TasksUnder(map[], "A") == {};
    FreshTaskCanStrand(INITIAL, 1, "A", budget);
    s := State(map[1 := a], false, Idle);
    assert TasksUnder(map[1 := a], "B") == {};
    FreshTaskCanStrand(s, 2, "B", budget);
    t := State(map[1 := a, 2 := b], false, Idle);
    assert s.tasks[2 := b] == t.tasks;
    assert TasksUnder(t.tasks, "B") == {2};
    FailsUnder(t, 1, "B");
    u := Next(Next(t, Begin(1, Some("B"))), Raise);
    assert TasksUnder(u.tasks, "B") == {1, 2};
  }

  function BasicState(receipt: Option<Phase>, coded: nat, edited: nat, point: Point): State {
    State(map[1 := Task(receipt, None, Counts(coded, edited, 0, 0))], true, Busy(1, None, point))
  }

  /** The states of a basic run whose last status line fails. */
  function UnannouncedState(i: nat): State
    requires i < 8
  {
    match i
    case 0 => INITIAL
    case 1 => State(map[], true, Busy(1, None, Admit))
    case 2 => BasicState(None, 0, 0, Claim)
    case 3 => BasicState(Some(Started), 0, 0, Code)
    case 4 => BasicState(Some(Started), 1, 0, Edit)
    case 5 => BasicState(Some(Started), 1, 1, RecordApplied)
    case 6 => BasicState(Some(AppliedUntested), 1, 1, Announce)
    case _ => BasicState(Some(FailedOwnerRecovery), 1, 1, Unwind)
  }

  function UnannouncedStep(i: nat): Step {
    if i == 0 then Begin(1, None) else if i < 6 then Proceed(true) else Raise
  }

  lemma UnannouncedStepIsAllowed(i: nat, budget: Budget)
    requires i < 7
    ensures Enabled(UnannouncedState(i), UnannouncedStep(i), budget)
    ensures UnannouncedState(i + 1) == Next(UnannouncedState(i), UnannouncedStep(i))
  {
  }

  /** A finished receipt can change: a basic run writes APPLIED_UNTESTED, its status line fails,
      and the handler turns the receipt into owner-recovery work. */
  lemma AppliedReceiptCanFail(budget: Budget) returns (states: seq<State>, steps: seq<Step>)
    ensures Run(states, steps, budget) && |states| == 8
    ensures TaskOf(states[6], 1) == Task(Some(AppliedUntested), None, Counts(1, 1, 0, 0))
    ensures TaskOf(states[7], 1) == Task(Some(FailedOwnerRecovery), None, Counts(1, 1, 0, 0))
  {
    hide Enabled, Next;
    states := seq(8, i requires 0 <= i < 8 => UnannouncedState(i));
    steps := seq(7, i requires 0 <= i < 7 => UnannouncedStep(i));
    forall i | 0 <= i < 7 {
      UnannouncedStepIsAllowed(i, budget);
    }
  }
}
