/** When a snapshot is evaluated again, and how often that can happen. Instants and
    durations are whole microseconds. */
module Maturation {
  import opened Text

  const MINUTE := 60_000_000
  const HOUR := 60 * MINUTE
  const RETRY := HOUR
  const GRACE := 25 * HOUR
  const MILESTONES := [5 * MINUTE, 15 * MINUTE, 30 * MINUTE, 60 * MINUTE, 4 * HOUR, 8 * HOUR, 12 * HOUR, 24 * HOUR]

  /** What scheduling reads from a label or, without one, from the snapshot itself. */
  datatype Row = Row(windowComplete: bool, current: bool, reference: Option<int>)

  /** The first duration of an ascending list that is longer than `elapsed`. */
  function NextMilestone(milestones: seq<int>, elapsed: int): Option<int> {
    if milestones == [] then None
    else if milestones[0] > elapsed then Some(milestones[0])
    else NextMilestone(milestones[1..], elapsed)
  }

  /** The next evaluation instant; `None` when the snapshot leaves the queue. */
  function NextDue(row: Row, at: int): Option<int> {
    if row.windowComplete then if row.current then None else Some(at)
    else if row.reference.None? then Some(at + RETRY)
    else
      match NextMilestone(MILESTONES, at - row.reference.value)
      case Some(m) => Some(row.reference.value + m)
      case None => if at >= row.reference.value + GRACE then None else Some(at + RETRY)
  }

  /** The scheduling loop. */
  method NextDueAt(row: Row, at: int) returns (due: Option<int>)
    ensures due == NextDue(row, at)
  {
    if row.windowComplete && row.current {
      return None;
    }
    if row.windowComplete {
      return Some(at);
    }
    if row.reference.None? {
      return Some(at + RETRY);
    }
    var reference := row.reference.value;
    for i := 0 to |MILESTONES|
      invariant NextMilestone(MILESTONES, at - reference) == NextMilestone(MILESTONES[i..], at - reference)
    {
      assert MILESTONES[i..][0] == MILESTONES[i] && MILESTONES[i..][1..] == MILESTONES[i + 1..];
      var next := reference + MILESTONES[i];
      if next > at {
        return Some(next);
      }
    }
    if at >= reference + GRACE {
      return None;
    }
    return Some(at + RETRY);
  }

  /** Milestones still ahead after `elapsed`. */
  function Ahead(milestones: seq<int>, elapsed: int): (n: nat)
    ensures n <= |milestones|
  {
    if milestones == [] then 0
    else (if milestones[0] > elapsed then 1 else 0) + Ahead(milestones[1..], elapsed)
  }

  /** Evaluations left for an unfinished snapshot that is evaluated `elapsed` after its
      reference instant, that evaluation included. */
  function EvaluationsLeft(elapsed: int): (n: nat)
    ensures 1 <= n <= 10
  {
    if elapsed >= GRACE then 1 else 2 + Ahead(MILESTONES, elapsed)
  }

  predicate Ascending(milestones: seq<int>) {
    forall i, j | 0 <= i < j < |milestones| :: milestones[i] < milestones[j]
  }

  lemma AscendingTail(milestones: seq<int>)
    requires milestones != [] && Ascending(milestones)
    ensures Ascending(milestones[1..])
    ensures forall m | m in milestones[1..] :: milestones[0] < m && m in milestones
    ensures forall m | m in milestones :: m == milestones[0] || m in milestones[1..]
  {
    assert forall i | 0 <= i < |milestones| - 1 :: milestones[1..][i] == milestones[i + 1];
    assert milestones == [milestones[0]] + milestones[1..];
  }

  /** The next milestone is the least one ahead, and passing it leaves one fewer. */
  lemma {:induction false} NextMilestoneIsLeastAhead(milestones: seq<int>, elapsed: int)
    requires Ascending(milestones)
    ensures NextMilestone(milestones, elapsed).None? ==> Ahead(milestones, elapsed) == 0
    ensures NextMilestone(milestones, elapsed).None? ==> forall m | m in milestones :: m <= elapsed
    ensures NextMilestone(milestones, elapsed).Some? ==>
      var m := NextMilestone(milestones, elapsed).value;
      && m in milestones && m > elapsed
      && (forall k | k in milestones && k > elapsed :: m <= k)
      && Ahead(milestones, m) + 1 == Ahead(milestones, elapsed)
  {
    if milestones != [] {
      var rest := milestones[1..];
      AscendingTail(milestones);
      hide Ascending;
      if milestones[0] > elapsed {
        AllAhead(rest, elapsed);
        AllAhead(rest, milestones[0]);
      } else {
        NextMilestoneIsLeastAhead(rest, elapsed);
      }
    }
  }

  lemma {:induction false} AllAhead(milestones: seq<int>, elapsed: int)
    requires forall m | m in milestones :: m > elapsed
    ensures Ahead(milestones, elapsed) == |milestones|
  {
    if milestones != [] {
      assert milestones[0] in milestones && forall m | m in milestones[1..] :: m in milestones;
      AllAhead(milestones[1..], elapsed);
    }
  }

  lemma {:induction false} AheadShrinks(milestones: seq<int>, a: int, b: int)
    requires a <= b
    ensures Ahead(milestones, b) <= Ahead(milestones, a)
  {
    if milestones != [] {
      AheadShrinks(milestones[1..], a, b);
    }
  }

  /** Waiting longer never adds an evaluation. */
  lemma EvaluationsLeftShrinks(a: int, b: int)
    requires a <= b
    ensures EvaluationsLeft(b) <= EvaluationsLeft(a)
  {
    AheadShrinks(MILESTONES, a, b);
  }

  /** Every reschedule of an unfinished snapshot lies past a new milestone or past the grace. */
  lemma RescheduleUsesOneUp(reference: int, at: int)
    ensures var due := NextDue(Row(false, false, Some(reference)), at);
      && (due.None? <==> at - reference >= GRACE)
      && (due.Some? ==> due.value > at && EvaluationsLeft(due.value - reference) < EvaluationsLeft(at - reference))
  {
    NextMilestoneIsLeastAhead(MILESTONES, at - reference);
    assert MILESTONES[7] in MILESTONES;
    hide NextMilestone, Ahead;
  }

  /** One queued snapshot. Since it was queued it was evaluated `evaluated` times, and while live
      a seeding moved its due instant forward `pulls` times. */
  datatype Slot = Slot(decision: int, due: int, migrationOnly: bool, evaluated: nat, pulls: nat)

  /** What happened to a snapshot in the stay it has left, and what kind of stay it was. */
  datatype Departure = Departure(evaluated: nat, migrationOnly: bool, pulls: nat)

  /** The queue, the last stay of each snapshot that has left it, the stored labels, and the
      snapshots whose migration failed. */
  datatype Queue = Queue(
    slots: map<string, Slot>, departed: map<string, Departure>, stored: map<string, Row>, attempted: set<string>)

  /** The label a build found for a snapshot, if any. */
  type Labels = map<string, Row>

  /** A label of the current schema about this snapshot. */
  predicate CurrentLabel(row: Row, decision: int) {
    row.reference == Some(decision) && (row.windowComplete ==> row.current)
  }

  /** Where one evaluation leaves a snapshot; `None` when it leaves the queue. */
  function Rescheduled(slot: Slot, found: Option<Row>, at: int): Option<int> {
    if slot.migrationOnly && !Takes(slot, found) then None
    else NextDue(if found.Some? then found.value else Row(false, false, Some(slot.decision)), at)
  }

  /** The label is kept: a migration takes complete ones only. */
  predicate Takes(slot: Slot, found: Option<Row>) {
    found.Some? && (slot.migrationOnly ==> found.value.windowComplete)
  }

  function LabelOf(labels: Labels, id: string): Option<Row> {
    if id in labels then Some(labels[id]) else None
  }

  function Leaving(slot: Slot): Departure {
    Departure(slot.evaluated, slot.migrationOnly, slot.pulls)
  }

  function EvaluateOne(q: Queue, id: string, labels: Labels, at: int): Queue {
    if id !in q.slots then q
    else
      var found, slot := LabelOf(labels, id), q.slots[id].(evaluated := q.slots[id].evaluated + 1);
      var p := if Takes(slot, found) then q.(stored := q.stored[id := found.value])
               else if slot.migrationOnly then q.(attempted := q.attempted + {id})
               else q;
      match Rescheduled(slot, found, at)
      case None => p.(slots := q.slots - {id}, departed := q.departed[id := Leaving(slot)])
      case Some(due) => p.(slots := q.slots[id := slot.(due := due)])
  }

  function EvaluateAll(q: Queue, batch: seq<string>, labels: Labels, at: int): Queue {
    if batch == [] then q
    else EvaluateOne(EvaluateAll(q, batch[..|batch| - 1], labels, at), batch[|batch| - 1], labels, at)
  }

  /** The stored label is a complete one of an older schema, and migrating it has not failed. */
  predicate Stale(q: Queue, id: string) {
    && id in q.stored && q.stored[id].windowComplete && !q.stored[id].current && q.stored[id].reference.Some?
    && id !in q.attempted
  }

  /** Seeding queues a stale snapshot for migration. One that is queued already only falls due
      earlier; for a live one this is a pull. */
  function Seeded(q: Queue, id: string, at: int): Queue
    requires Stale(q, id)
  {
    if id !in q.slots then
      q.(slots := q.slots[id := Slot(q.stored[id].reference.value, at, true, 0, 0)], departed := q.departed - {id})
    else q.(slots := q.slots[id := PulledTo(q.slots[id], at)])
  }

  function PulledTo(slot: Slot, at: int): Slot {
    if slot.due <= at then slot
    else slot.(due := at, pulls := slot.pulls + if slot.migrationOnly then 0 else 1)
  }

  /** A new snapshot falls due at its decision instant, or where its stored label schedules it.
      A queued one keeps its due instant and becomes a live one; one whose stored label is
      finished leaves. */
  function Arrived(q: Queue, id: string, decision: int, at: int): Queue {
    match if id in q.stored then NextDue(q.stored[id], at) else Some(decision)
    case None =>
      if id !in q.slots then q
      else q.(slots := q.slots - {id}, departed := q.departed[id := Leaving(q.slots[id])])
    case Some(due) =>
      if id in q.slots then q.(slots := q.slots[id := q.slots[id].(migrationOnly := false)])
      else q.(slots := q.slots[id := Slot(decision, due, false, 0, 0)], departed := q.departed - {id})
  }

  /** The queue as one build changes it. */
  class SnapshotQueue {
    var slots: map<string, Slot>
    ghost var departed: map<string, Departure>
    var stored: map<string, Row>
    var attempted: set<string>

    ghost function State(): Queue
      reads this
    {
      Queue(slots, departed, stored, attempted)
    }

    constructor (stored: map<string, Row>)
      ensures State() == Queue(map[], map[], stored, {})
    {
      slots, departed, this.stored, attempted := map[], map[], stored, {};
    }

    /** Seed one stale snapshot: insert its row, or lower the due instant of the row it has. */
    method Seed(id: string, at: int)
      requires Stale(State(), id)
      modifies this
      ensures State() == Seeded(old(State()), id, at)
    {
      if id !in slots {
        slots, departed := slots[id := Slot(stored[id].reference.value, at, true, 0, 0)], departed - {id};
      } else {
        var slot := slots[id];
        if slot.due > at {
          slots := slots[id := slot.(due := at, pulls := slot.pulls + if slot.migrationOnly then 0 else 1)];
        } else {
          assert slots == slots[id := slot];
        }
      }
    }

    /** Take one line of the snapshot ledger. */
    method Arrive(id: string, decision: int, at: int)
      modifies this
      ensures State() == Arrived(old(State()), id, decision, at)
    {
      hide NextDue;
      var due := Some(decision);
      if id in stored {
        due := NextDueAt(stored[id], at);
      }
      match due {
        case None =>
          if id in slots {
            slots, departed := slots - {id}, departed[id := Leaving(slots[id])];
          }
        case Some(at) =>
          if id in slots {
            slots := slots[id := slots[id].(migrationOnly := false)];
          } else {
            slots, departed := slots[id := Slot(decision, at, false, 0, 0)], departed - {id};
          }
      }
    }

    /** Evaluate the due snapshots of one build and move or delete their queue rows. */
    method EvaluateBatch(batch: seq<string>, labels: Labels, at: int)
      modifies this
      ensures State() == EvaluateAll(old(State()), batch, labels, at)
    {
      hide NextDue;
      for i := 0 to |batch|
        invariant State() == EvaluateAll(old(State()), batch[..i], labels, at)
      {
        assert batch[..i + 1][..i] == batch[..i];
        var id := batch[i];
        if id in slots {
          var slot := slots[id].(evaluated := slots[id].evaluated + 1);
          var next: Option<int>;
          if slot.migrationOnly && (id !in labels || !labels[id].windowComplete) {
            attempted, next := attempted + {id}, None;
          } else {
            next := NextDueAt(if id in labels then labels[id] else Row(false, false, Some(slot.decision)), at);
            if id in labels {
              stored := stored[id := labels[id]];
            }
          }
          match next {
            case None =>
              slots, departed := slots - {id}, departed[id := Leaving(slot)];
            case Some(due) =>
              slots := slots[id := slot.(due := due)];
          }
        }
      }
      assert batch[..|batch|] == batch;
    }
  }

  datatype Step =
    | Arrive(id: string, decision: int, at: int)            // a line of the snapshot ledger
    | Seed(id: string, at: int)                             // a stored label of an older schema
    | Build(batch: seq<string>, labels: Labels, at: int)

  /** The id of a snapshot fixes its decision instant. A build evaluates distinct due snapshots,
      as many of them as its limit lets it, against labels of the current schema. */
  ghost predicate Enabled(q: Queue, s: Step) {
    match s
    case Arrive(id, decision, _) => id in q.slots ==> q.slots[id].decision == decision
    case Seed(id, _) => Stale(q, id)
    case Build(batch, labels, at) =>
      && (forall i, j | 0 <= i < j < |batch| :: batch[i] != batch[j])
      && (forall id | id in batch :: id in q.slots && q.slots[id].due <= at)
      && (forall id | id in q.slots && id in labels :: CurrentLabel(labels[id], q.slots[id].decision))
  }

  ghost function Next(q: Queue, s: Step): Queue
    requires Enabled(q, s)
  {
    match s
    case Arrive(id, decision, at) => Arrived(q, id, decision, at)
    case Seed(id, at) => Seeded(q, id, at)
    case Build(batch, labels, at) => EvaluateAll(q, batch, labels, at)
  }

  /** A queue that starts empty over any stored labels. */
  ghost predicate Run(qs: seq<Queue>, steps: seq<Step>) {
    && |qs| == |steps| + 1
    && qs[0] == Queue(map[], map[], qs[0].stored, {})
    && forall i | 0 <= i < |steps| :: Enabled(qs[i], steps[i]) && qs[i + 1] == Next(qs[i], steps[i])
  }

  lemma RunStarts(qs: seq<Queue>, steps: seq<Step>)
    requires Run(qs, steps)
    ensures |qs| == |steps| + 1 && qs[0] == Queue(map[], map[], qs[0].stored, {})
  {
  }

  lemma RunStep(qs: seq<Queue>, steps: seq<Step>, i: nat)
    requires Run(qs, steps) && i < |steps|
    ensures Enabled(qs[i], steps[i]) && qs[i + 1] == Next(qs[i], steps[i])
  {
  }

  /** The clock does not run backwards. */
  ghost predicate Forward(steps: seq<Step>) {
    forall i, j | 0 <= i <= j < |steps| :: steps[i].at <= steps[j].at
  }

  // ----- how often a snapshot is evaluated -----

  /** The most evaluations a stay can have. */
  function Most(migrationOnly: bool, pulls: nat): nat {
    if migrationOnly then 1 else 10 + pulls
  }

  /** An evaluation uses one up and a pull gives at most one back, if it comes no earlier than
      the last evaluation; `now` is the instant of the last step. Without a clock that runs
      forward (`now.None?`) only slots that were never pulled are bounded. */
  ghost predicate SlotBounded(slot: Slot, now: Option<int>) {
    if slot.migrationOnly then slot.evaluated == 0 && slot.pulls == 0
    else
      && (slot.pulls == 0 || now.Some? ==>
            slot.evaluated + EvaluationsLeft(slot.due - slot.decision) <= 10 + slot.pulls)
      && (now.Some? ==> slot.evaluated + EvaluationsLeft(now.value - slot.decision) <= 11 + slot.pulls)
  }

  ghost predicate DepartureBounded(d: Departure, now: Option<int>) {
    d.pulls == 0 || now.Some? ==> d.evaluated <= Most(d.migrationOnly, d.pulls)
  }

  /** Nothing queued or departed has been evaluated, or can still be, more often than its stay
      allows. */
  ghost predicate Bounded(q: Queue, now: Option<int>) {
    && (forall id | id in q.slots :: SlotBounded(q.slots[id], now))
    && (forall id | id in q.departed :: DepartureBounded(q.departed[id], now))
  }

  /** The instant of the last step, for a clock that runs forward. */
  function Moved(now: Option<int>, at: int): Option<int> {
    if now.Some? then Some(at) else None
  }

  lemma EvaluationKeepsSlot(slot: Slot, found: Option<Row>, at: int, now: Option<int>)
    requires SlotBounded(slot, now) && slot.due <= at && (now.Some? ==> now.value <= at)
    requires found.Some? ==> CurrentLabel(found.value, slot.decision)
    ensures var due, after := Rescheduled(slot, found, at), slot.(evaluated := slot.evaluated + 1);
      && DepartureBounded(Leaving(after), Moved(now, at))
      && (due.Some? ==> SlotBounded(after.(due := due.value), Moved(now, at)))
  {
    RescheduleUsesOneUp(slot.decision, at);
    EvaluationsLeftShrinks(slot.due - slot.decision, at - slot.decision);
    hide EvaluationsLeft, NextMilestone;
  }

  lemma TimeKeepsSlot(slot: Slot, now: Option<int>, at: int)
    requires SlotBounded(slot, now) && (now.Some? ==> now.value <= at)
    ensures SlotBounded(slot, Moved(now, at))
  {
    if now.Some? {
      EvaluationsLeftShrinks(now.value - slot.decision, at - slot.decision);
    }
    hide EvaluationsLeft;
  }

  lemma PullKeepsSlot(slot: Slot, now: Option<int>, at: int)
    requires SlotBounded(slot, now) && (now.Some? ==> now.value <= at)
    ensures SlotBounded(PulledTo(slot, at), Moved(now, at))
  {
    TimeKeepsSlot(slot, now, at);
    hide EvaluationsLeft;
  }

  lemma NewSlotIsBounded(slot: Slot, now: Option<int>)
    requires slot.evaluated == 0 && slot.pulls == 0
    ensures SlotBounded(slot, now) && SlotBounded(slot.(migrationOnly := false), now)
  {
    hide EvaluationsLeft;
  }

  lemma LeavingIsBounded(slot: Slot, now: Option<int>)
    requires SlotBounded(slot, now)
    ensures DepartureBounded(Leaving(slot), now)
    ensures slot.pulls == 0 || now.Some? ==> slot.evaluated < Most(slot.migrationOnly, slot.pulls)
  {
    hide EvaluationsLeft;
  }

  lemma EvaluateOneKeepsBound(q: Queue, id: string, labels: Labels, at: int, now: Option<int>)
    requires Bounded(q, now) && id in q.slots && q.slots[id].due <= at && (now.Some? ==> now.value <= at)
    requires id in labels ==> CurrentLabel(labels[id], q.slots[id].decision)
    ensures Bounded(EvaluateOne(q, id, labels, at), Moved(now, at))
    ensures forall k | k != id && k in q.slots ::
      k in EvaluateOne(q, id, labels, at).slots && EvaluateOne(q, id, labels, at).slots[k] == q.slots[k]
  {
    EvaluationKeepsSlot(q.slots[id], LabelOf(labels, id), at, now);
    TimeKeepsAll(q, now, at);
    hide SlotBounded, DepartureBounded, Rescheduled, CurrentLabel, Takes;
  }

  lemma TimeKeepsAll(q: Queue, now: Option<int>, at: int)
    requires Bounded(q, now) && (now.Some? ==> now.value <= at)
    ensures Bounded(q, Moved(now, at))
  {
    hide SlotBounded;
    forall id | id in q.slots ensures SlotBounded(q.slots[id], Moved(now, at)) {
      TimeKeepsSlot(q.slots[id], now, at);
    }
  }

  lemma {:induction false} EvaluateAllKeepsBound(q: Queue, batch: seq<string>, labels: Labels, at: int,
                                                now: Option<int>)
    requires Bounded(q, now) && Enabled(q, Build(batch, labels, at)) && (now.Some? ==> now.value <= at)
    ensures Bounded(EvaluateAll(q, batch, labels, at), Moved(now, at))
    ensures forall k | k !in batch && k in q.slots ::
      k in EvaluateAll(q, batch, labels, at).slots && EvaluateAll(q, batch, labels, at).slots[k] == q.slots[k]
  {
    if batch == [] {
      TimeKeepsAll(q, now, at);
    } else {
      hide Bounded, EvaluateOne, CurrentLabel;
      var n := |batch| - 1;
      EvaluateAllKeepsBound(q, batch[..n], labels, at, now);
      assert batch == batch[..n] + [batch[n]];
      EvaluateOneKeepsBound(EvaluateAll(q, batch[..n], labels, at), batch[n], labels, at, Moved(now, at));
    }
  }

  lemma ArrivalKeepsBound(q: Queue, id: string, decision: int, at: int, now: Option<int>)
    requires Bounded(q, now)
    ensures Bounded(Arrived(q, id, decision, at), now)
  {
    if id in q.slots {
      if q.slots[id].migrationOnly {
        NewSlotIsBounded(q.slots[id], now);
      }
      LeavingIsBounded(q.slots[id], now);
    } else {
      forall due: int {
        NewSlotIsBounded(Slot(decision, due, false, 0, 0), now);
      }
    }
    hide NextDue, SlotBounded, DepartureBounded;
  }

  lemma SeedKeepsBound(q: Queue, id: string, at: int, now: Option<int>)
    requires Bounded(q, now) && Stale(q, id) && (now.Some? ==> now.value <= at)
    ensures Bounded(Seeded(q, id, at), Moved(now, at))
  {
    TimeKeepsAll(q, now, at);
    if id in q.slots {
      PullKeepsSlot(q.slots[id], now, at);
    } else {
      NewSlotIsBounded(Slot(q.stored[id].reference.value, at, true, 0, 0), Moved(now, at));
    }
    hide SlotBounded, DepartureBounded, PulledTo;
  }

  lemma StepKeepsBound(q: Queue, s: Step, now: Option<int>)
    requires Bounded(q, now) && Enabled(q, s) && (now.Some? ==> now.value <= s.at)
    ensures Bounded(Next(q, s), Moved(now, s.at))
  {
    hide Bounded, EvaluateAll, Arrived, Seeded, Moved, Stale;
    match s {
      case Arrive(id, decision, at) =>
        TimeKeepsAll(q, now, at);
        ArrivalKeepsBound(q, id, decision, at, Moved(now, at));
      case Seed(id, at) => SeedKeepsBound(q, id, at, now);
      case Build(batch, labels, at) => EvaluateAllKeepsBound(q, batch, labels, at, now);
    }
  }

  /** The instant of the step before the i-th. */
  function Clock(steps: seq<Step>, i: nat): int
    requires i <= |steps|
  {
    if i > 0 then steps[i - 1].at else if steps == [] then 0 else steps[0].at
  }

  lemma {:induction false} RunIsBounded(qs: seq<Queue>, steps: seq<Step>, i: nat, forward: bool)
    requires Run(qs, steps) && i < |qs| && (forward ==> Forward(steps))
    ensures i <= |steps| && Bounded(qs[i], if forward then Some(Clock(steps, i)) else None)
  {
    hide Run, Next, Enabled, SlotBounded, DepartureBounded;
    RunStarts(qs, steps);
    if i > 0 {
      RunIsBounded(qs, steps, i - 1, forward);
      RunStep(qs, steps, i - 1);
      StepKeepsBound(qs[i - 1], steps[i - 1], if forward then Some(Clock(steps, i - 1)) else None);
    }
  }

  /** However builds, arrivals and migrations interleave, and whatever the clock does, a live
      snapshot that no seeding pulls forward is evaluated at most ten times between entering the
      queue and leaving it, and a migration-only one at most once. */
  lemma AtMostTenEvaluations(qs: seq<Queue>, steps: seq<Step>, i: nat)
    requires Run(qs, steps) && i < |qs|
    ensures forall id | id in qs[i].slots && qs[i].slots[id].pulls == 0 ::
      qs[i].slots[id].evaluated < if qs[i].slots[id].migrationOnly then 1 else 10
    ensures forall id | id in qs[i].slots && qs[i].slots[id].migrationOnly :: qs[i].slots[id].pulls == 0
    ensures forall id | id in qs[i].departed && qs[i].departed[id].pulls == 0 ::
      qs[i].departed[id].evaluated <= if qs[i].departed[id].migrationOnly then 1 else 10
  {
    RunIsBounded(qs, steps, i, false);
    hide Run, EvaluationsLeft;
  }

  /** With a clock that does not run backwards each pull adds at most one evaluation. */
  lemma EachPullAddsAtMostOne(qs: seq<Queue>, steps: seq<Step>, i: nat)
    requires Run(qs, steps) && i < |qs| && Forward(steps)
    ensures forall id | id in qs[i].slots ::
      qs[i].slots[id].evaluated < (if qs[i].slots[id].migrationOnly then 1 else 10) + qs[i].slots[id].pulls
    ensures forall id | id in qs[i].departed ::
      qs[i].departed[id].evaluated <= (if qs[i].departed[id].migrationOnly then 1 else 10) + qs[i].departed[id].pulls
  {
    RunIsBounded(qs, steps, i, true);
    hide Run, EvaluationsLeft;
  }

  // ----- how long a snapshot can be seeded -----

  lemma {:induction false} EvaluateAllEndsStaleness(q: Queue, batch: seq<string>, labels: Labels, at: int, id: string)
    requires forall k | k in batch && k in labels :: labels[k].windowComplete ==> labels[k].current
    ensures var p := EvaluateAll(q, batch, labels, at);
      && (!Stale(q, id) ==> !Stale(p, id))
      && (id !in batch ==> (id in p.slots <==> id in q.slots) && (id in q.slots ==> p.slots[id] == q.slots[id]))
      && (id in p.slots ==> id in q.slots && p.slots[id].migrationOnly == q.slots[id].migrationOnly)
  {
    if batch != [] {
      var n := |batch| - 1;
      assert batch == batch[..n] + [batch[n]];
      EvaluateAllEndsStaleness(q, batch[..n], labels, at, id);
      OneEvaluation(EvaluateAll(q, batch[..n], labels, at), batch[n], labels, at, id);
      hide EvaluateAll, Stale, EvaluateOne;
    }
  }

  lemma OneEvaluation(q: Queue, k: string, labels: Labels, at: int, id: string)
    requires k in labels && labels[k].windowComplete ==> labels[k].current
    ensures var p := EvaluateOne(q, k, labels, at);
      && (!Stale(q, id) ==> !Stale(p, id))
      && (id != k ==> (id in p.slots <==> id in q.slots) && (id in q.slots ==> p.slots[id] == q.slots[id]))
      && (id in p.slots ==> id in q.slots && p.slots[id].migrationOnly == q.slots[id].migrationOnly)
      && (id == k && k in q.slots && (k in labels || q.slots[k].migrationOnly) ==> !Stale(p, id))
      && (id == k && k in q.slots && q.slots[k].migrationOnly ==> k !in p.slots)
  {
    hide NextMilestone;
  }

  /** An evaluation that finds a label, or is a migration, leaves no stale snapshot behind; a
      migration leaves the queue. */
  lemma {:induction false} EvaluationEndsStaleness(q: Queue, batch: seq<string>, labels: Labels, at: int, id: string)
    requires Enabled(q, Build(batch, labels, at)) && id in batch && (id in labels || q.slots[id].migrationOnly)
    ensures !Stale(EvaluateAll(q, batch, labels, at), id)
    ensures q.slots[id].migrationOnly ==> id !in EvaluateAll(q, batch, labels, at).slots
    decreases |batch|
  {
    var n := |batch| - 1;
    AllButLast(q, batch, labels, at);
    hide EvaluateAll, Stale, EvaluateOne, Enabled;
    EvaluateAllEndsStaleness(q, batch[..n], labels, at, id);
    OneEvaluation(EvaluateAll(q, batch[..n], labels, at), batch[n], labels, at, id);
    if batch[n] != id {
      EvaluationEndsStaleness(q, batch[..n], labels, at, id);
    }
  }

  lemma AllButLast(q: Queue, batch: seq<string>, labels: Labels, at: int)
    requires Enabled(q, Build(batch, labels, at)) && batch != []
    ensures var n := |batch| - 1;
      && Enabled(q, Build(batch[..n], labels, at)) && batch == batch[..n] + [batch[n]]
      && batch[n] !in batch[..n] && batch[n] in q.slots
      && (forall k | k in batch && k in labels :: labels[k].windowComplete ==> labels[k].current)
      && EvaluateAll(q, batch, labels, at) == EvaluateOne(EvaluateAll(q, batch[..n], labels, at), batch[n], labels, at)
  {
    var n := |batch| - 1;
    assert batch == batch[..n] + [batch[n]];
    assert forall k | k in batch[..n] :: k in batch;
    hide EvaluateOne;
  }

  lemma NoLongerStale(q: Queue, s: Step, id: string)
    requires Enabled(q, s) && !Stale(q, id)
    ensures !Stale(Next(q, s), id)
    ensures id in Next(q, s).slots && Next(q, s).slots[id].migrationOnly ==>
      id in q.slots && q.slots[id].migrationOnly
  {
    if s.Build? {
      EvaluateAllEndsStaleness(q, s.batch, s.labels, s.at, id);
    }
    hide EvaluateAll, NextDue;
  }

  /** Once a build has found a label for a snapshot, or has evaluated it for migration, seeding
      never touches it again, and no snapshot is evaluated for migration twice. */
  lemma {:induction false} MigratedAtMostOnce(qs: seq<Queue>, steps: seq<Step>, i: nat, j: nat, id: string)
    requires Run(qs, steps) && i < j < |qs| && i < |steps| && steps[i].Build? && id in steps[i].batch
    requires id in qs[i].slots && (id in steps[i].labels || qs[i].slots[id].migrationOnly)
    ensures !Stale(qs[j], id)
    ensures qs[i].slots[id].migrationOnly && id in qs[j].slots ==> !qs[j].slots[id].migrationOnly
    decreases j
  {
    RunStarts(qs, steps);
    RunStep(qs, steps, j - 1);
    hide Run, Stale;
    if j == i + 1 {
      EvaluationEndsStaleness(qs[i], steps[i].batch, steps[i].labels, steps[i].at, id);
      hide Enabled, EvaluateAll;
    } else {
      hide Enabled, Next;
      MigratedAtMostOnce(qs, steps, i, j - 1, id);
      NoLongerStale(qs[j - 1], steps[j - 1], id);
    }
  }

  /** A live snapshot after `n` builds without a label, each followed by a seeding that pulls it
      forward; its stored label is a complete one of an older schema. */
  function Pulled(n: nat): Queue {
    Queue(map["s" := Slot(0, 24 * HOUR, false, n, n)], map[], map["s" := Row(true, false, Some(0))], {})
  }

  /** The same snapshot between such a build and the seeding. */
  function Evaluated(n: nat): Queue {
    Pulled(n).(slots := map["s" := Slot(0, 25 * HOUR, false, n + 1, n)])
  }

  const UNLABELLED := Build(["s"], map[], 24 * HOUR)

  lemma RoundIsAllowed(n: nat)
    ensures Enabled(Pulled(n), UNLABELLED) && Next(Pulled(n), UNLABELLED) == Evaluated(n)
    ensures Enabled(Evaluated(n), Seed("s", 24 * HOUR)) && Next(Evaluated(n), Seed("s", 24 * HOUR)) == Pulled(n + 1)
  {
    NextMilestoneIsLeastAhead(MILESTONES, 24 * HOUR);
    assert MILESTONES[7] in MILESTONES;
    var batch, labels: Labels := ["s"], map[];
    assert batch[..0] == [];
    assert EvaluateAll(Pulled(n), batch, labels, 24 * HOUR)
        == EvaluateOne(EvaluateAll(Pulled(n), [], labels, 24 * HOUR), "s", labels, 24 * HOUR);
    assert Pulled(n).slots["s" := Slot(0, 25 * HOUR, false, n + 1, n)] == Evaluated(n).slots;
    assert Evaluated(n).slots["s" := Slot(0, 24 * HOUR, false, n + 1, n + 1)] == Pulled(n + 1).slots;
    hide NextMilestone;
  }

  lemma PulledStarts()
    ensures var empty := Queue(map[], map[], map["s" := Row(true, false, Some(0))], {});
      Enabled(empty, Arrive("s", 0, 24 * HOUR)) && Next(empty, Arrive("s", 0, 24 * HOUR)) == Pulled(0)
  {
    var empty := Queue(map[], map[], map["s" := Row(true, false, Some(0))], {});
    assert NextDue(empty.stored["s"], 24 * HOUR) == Some(24 * HOUR);
    assert empty.departed - {"s"} == map[];
  }

  lemma RunGrows(qs: seq<Queue>, steps: seq<Step>, s: Step)
    requires Run(qs, steps) && Enabled(qs[|steps|], s)
    ensures Run(qs + [Next(qs[|steps|], s)], steps + [s])
  {
    hide Next, Enabled;
  }

  /** Pulled snapshots have no bound: for every number a run evaluates a live snapshot as often,
      while its stored label is a complete one of an older schema and no build finds another. */
  lemma {:induction false} PullsHaveNoBound(n: nat) returns (qs: seq<Queue>, steps: seq<Step>)
    ensures Run(qs, steps) && Forward(steps) && qs[|steps|] == Pulled(n)
    ensures forall s | s in steps :: s.at == 24 * HOUR
    ensures "s" in qs[|steps|].slots && !qs[|steps|].slots["s"].migrationOnly && qs[|steps|].slots["s"].evaluated == n
  {
    hide Next, Enabled;
    if n == 0 {
      PulledStarts();
      qs := [Queue(map[], map[], map["s" := Row(true, false, Some(0))], {}), Pulled(0)];
      steps := [Arrive("s", 0, 24 * HOUR)];
    } else {
      var before, taken := PullsHaveNoBound(n - 1);
      RoundIsAllowed(n - 1);
      RunGrows(before, taken, UNLABELLED);
      RunGrows(before + [Evaluated(n - 1)], taken + [UNLABELLED], Seed("s", 24 * HOUR));
      qs, steps := before + [Evaluated(n - 1)] + [Pulled(n)], taken + [UNLABELLED] + [Seed("s", 24 * HOUR)];
    }
  }

  /** An evaluation past the grace, or one that finds a complete label, is the last one. */
  lemma LastEvaluation(q: Queue, id: string, labels: Labels, at: int)
    requires id in q.slots && !q.slots[id].migrationOnly
    requires id in labels ==> CurrentLabel(labels[id], q.slots[id].decision)
    ensures id in EvaluateOne(q, id, labels, at).slots
       <==> at < q.slots[id].decision + GRACE && (id in labels ==> !labels[id].windowComplete)
  {
    RescheduleUsesOneUp(q.slots[id].decision, at);
  }

  /** Due instants of a snapshot that stays unlabelled and is evaluated the moment it is due. */
  function Chain(n: nat): Option<int> {
    if n == 0 then Some(0)
    else match Chain(n - 1)
      case None => None
      case Some(at) => NextDue(Row(false, false, Some(0)), at)
  }

  lemma FromMilestone(i: nat)
    requires i < |MILESTONES|
    ensures NextMilestone(MILESTONES, if i == 0 then 0 else MILESTONES[i - 1]) == Some(MILESTONES[i])
  {
    NextMilestoneIsLeastAhead(MILESTONES, if i == 0 then 0 else MILESTONES[i - 1]);
    assert MILESTONES[i] in MILESTONES;
  }

  lemma {:induction false} ChainReaches(n: nat)
    requires n <= |MILESTONES|
    ensures Chain(n) == Some(if n == 0 then 0 else MILESTONES[n - 1])
  {
    if n > 0 {
      ChainReaches(n - 1);
      FromMilestone(n - 1);
    }
  }

  /** The delays after the decision at which an unlabelled snapshot is evaluated, in minutes. */
  const SCHEDULE := [0, 5, 15, 30, 60, 240, 480, 720, 1440, 1500]

  /** Ten is reached: nine reschedules, and the tenth evaluation is the last. */
  lemma TenIsReached()
    ensures forall n | 0 <= n < 10 :: Chain(n) == Some(SCHEDULE[n] * 60_000_000)
    ensures Chain(10) == None
  {
    forall n | 0 <= n < 9 ensures Chain(n) == Some(SCHEDULE[n] * 60_000_000) {
      ChainReaches(n);
    }
    ChainReaches(8);
    assert Chain(9) == NextDue(Row(false, false, Some(0)), 24 * HOUR);
    RescheduleUsesOneUp(0, 24 * HOUR);
    NextMilestoneIsLeastAhead(MILESTONES, 24 * HOUR);
    assert Chain(9) == Some(25 * HOUR);
    assert Chain(10) == NextDue(Row(false, false, Some(0)), 25 * HOUR);
    RescheduleUsesOneUp(0, 25 * HOUR);
  }

  /** Scheduling uses an evaluation up exactly when the row it schedules is not a complete one of
      an older schema. Such a row only enters as the stored label of an arriving snapshot, which
      it makes due at once. */
  lemma EvaluationProgressesIff(row: Row, reference: int, at: int)
    requires row.reference == Some(reference)
    ensures var due := NextDue(row, at);
      (due.None? || EvaluationsLeft(due.value - reference) < EvaluationsLeft(at - reference))
        <==> !(row.windowComplete && !row.current)
    ensures row.windowComplete && !row.current ==> NextDue(row, at) == Some(at)
  {
    RescheduleUsesOneUp(reference, at);
    hide EvaluationsLeft, NextMilestone;
  }
}
