/** The time budget of one capture pass: setup envelope, acquisition waves, and
    materialization with a shared remainder. Time is real seconds. */
module CaptureSchedule {
  import opened Text

  const REQUEST_BUDGET := 15.0
  const MAX_BUDGET := 50.0
  const RESERVE := 10.0
  const WRITE_BOUND := 5.0
  const MIN_WRITE := 0.05
  const MAX_WORKERS := 8
  const SUBMITS_PER_OBSERVATION := 2
  const FIXED_SUBMITS := 4

  function Min(a: real, b: real): real {
    if a < b then a else b
  }

  function Max(a: real, b: real): real {
    if a > b then a else b
  }

  datatype Plan = Plan(deadline: real, acquisition: real, setup: real)

  /** The clamped budget, the reserve taken out of it, and the setup envelope. */
  function PlanFor(started: real, resolved: real, waveBound: real): Plan {
    var budget := Max(REQUEST_BUDGET, Min(resolved, MAX_BUDGET));
    var reserve := Min(RESERVE, Max(0.0, budget - REQUEST_BUDGET));
    var acquisition := started + budget - reserve;
    Plan(started + budget, acquisition, acquisition - waveBound)
  }

  /** The reserve never eats the room of one request, acquisition never eats the reserve, and
      with the standard bound the setup envelope is what the budget exceeds 25 seconds by. */
  lemma PlanLeavesRoom(started: real, resolved: real, waveBound: real)
    ensures var p := PlanFor(started, resolved, waveBound);
      && (15.0 <= resolved <= 50.0 ==> p.deadline - started == resolved)
      && (resolved < 15.0 ==> p.deadline - started == 15.0) && (resolved > 50.0 ==> p.deadline - started == 50.0)
      && (resolved >= 25.0 <==> p.deadline - p.acquisition == 10.0)
      && (resolved < 25.0 <==> p.acquisition - started == 15.0 && p.deadline - p.acquisition < 10.0)
      && started + REQUEST_BUDGET <= p.acquisition <= p.deadline <= started + MAX_BUDGET
      && p.deadline - p.acquisition <= RESERVE && p.setup == p.acquisition - waveBound
      && (waveBound == REQUEST_BUDGET ==> p.setup == started + Max(0.0, Min(resolved, MAX_BUDGET) - 25.0))
      && (started <= p.setup <==> waveBound <= p.acquisition - started)
  {
  }

  /** `n` times `x`. */
  function Times(n: nat, x: real): real {
    if n == 0 then 0.0 else Times(n - 1, x) + x
  }

  lemma {:induction false} TimesIsProduct(n: nat, x: real)
    ensures Times(n, x) == n as real * x
  {
    if n > 0 {
      TimesIsProduct(n - 1, x);
    }
  }

  function Workers(concurrency: int): (n: nat)
    ensures n == if concurrency < 1 then 1 else if concurrency > 8 then 8 else concurrency
  {
    var c := if concurrency > 1 then concurrency else 1;
    if c < MAX_WORKERS then c else MAX_WORKERS
  }

  /** How long the `k`-th wave takes; a wave never takes longer than its declared bound. */
  ghost predicate WithinBound(waves: nat -> real, waveBound: real) {
    forall k :: 0.0 <= waves(k) <= waveBound
  }

  /** Phase A: request the instruments wave by wave while a whole wave still fits. */
  method Acquire(instruments: nat, concurrency: int, start: real, plan: Plan, waveBound: real, waves: nat -> real)
    returns (requested: nat, finish: real, exhausted: bool, count: nat)
    requires WithinBound(waves, waveBound)
    ensures start <= finish <= Max(start, plan.acquisition)
    ensures requested <= instruments && (exhausted <==> requested < instruments)
    ensures requested == (if exhausted then count * Workers(concurrency) else instruments)
    ensures exhausted ==> plan.acquisition - finish < waveBound
    ensures finish <= start + Times(count, waveBound)
    ensures exhausted ==> plan.acquisition < start + Times(count + 1, waveBound)
    ensures start <= plan.setup && plan.setup == plan.acquisition - waveBound && instruments > 0 ==> requested > 0
  {
    var workers := Workers(concurrency);
    requested, finish, exhausted, count := 0, start, false, 0;
    while requested < instruments
      invariant requested <= instruments
      invariant requested < instruments ==> requested == count * workers
      invariant start <= finish <= Max(start, plan.acquisition) && finish <= start + Times(count, waveBound)
      invariant start <= plan.acquisition - waveBound && instruments > 0 ==> count > 0 || finish == start
      invariant count > 0 ==> requested > 0
      decreases instruments - requested
    {
      if plan.acquisition - finish < waveBound {
        exhausted := true;
        return;
      }
      requested := if instruments - requested < workers then instruments else requested + workers;
      finish := finish + waves(count);
      count := count + 1;
    }
  }

  /** The most canonical submits one cycle may make. */
  function SubmitBound(observations: nat): (n: nat)
    ensures n >= FIXED_SUBMITS
  {
    SUBMITS_PER_OBSERVATION * observations + FIXED_SUBMITS
  }

  /** How one acquired instrument ends in Phase B. */
  datatype Ending = IdentityMismatch | CaptureFailed | Committed(promoted: bool, cut: bool)

  /** What Phase A left for one committed version. */
  datatype Item =
    | NeverRequested
    | FetchFailed
    | SourceError
    | Batch(observations: nat, submits: nat, ending: Ending)

  datatype Summary = Summary(
    fetched: nat, cycles: nat, promoted: nat, deferred: nat,
    rejectedIdentity: nat, captureFailed: nat, sourceErrors: nat, incomplete: bool)

  const EMPTY_SUMMARY := Summary(0, 0, 0, 0, 0, 0, 0, false)

  /** The persistent writer client. A positive timeout bounds each of its submits; a client with
      a seam for it also ends every submit by an absolute deadline, once one is bound. */
  class Writer {
    var timeout: real
    var deadline: Option<real>
    const seam: bool

    constructor (timeout: real, seam: bool)
      ensures this.timeout == timeout && this.seam == seam && deadline.None?
    {
      this.timeout, this.seam, deadline := timeout, seam, None;
    }

    /** Bind the absolute deadline, where the client has a seam for one. */
    method BindDeadline(at: real) returns (bound: bool)
      modifies `deadline
      ensures bound <==> seam
      ensures deadline == if seam then Some(at) else old(deadline)
    {
      bound := seam;
      if seam {
        deadline := Some(at);
      }
    }

    /** Tighten the timeout for one cycle. A client without a positive timeout keeps its own. A
        timeout is never widened exactly when it was at least the floor: below it the code's
        promise fails, and the timeout becomes the floor. */
    method BoundTimeout(perSubmit: real) returns (enforced: Option<real>)
      modifies `timeout
      ensures old(timeout) <= 0.0 ==> enforced.None? && timeout == old(timeout)
      ensures old(timeout) > 0.0 ==> enforced == Some(timeout) && timeout >= MIN_WRITE
      ensures old(timeout) > 0.0 && perSubmit < MIN_WRITE ==> timeout == MIN_WRITE
      ensures old(timeout) > 0.0 && perSubmit >= MIN_WRITE ==>
        && timeout <= perSubmit
        && (timeout <= old(timeout) <==> old(timeout) >= MIN_WRITE)
        && timeout == if old(timeout) < MIN_WRITE then MIN_WRITE else Min(old(timeout), perSubmit)
    {
      if timeout <= 0.0 {
        return None;
      }
      timeout := Max(MIN_WRITE, Min(timeout, perSubmit));
      return Some(timeout);
    }
  }

  /** The equal share of the remaining time that each submit of a cycle gets. */
  function Share(remaining: real, bound: nat): real
    requires bound > 0
  {
    Min(WRITE_BOUND, remaining / bound as real)
  }

  /** `bound` submits of at most the enforced timeout fit into what remains. */
  lemma ShareFits(remaining: real, bound: nat, enforced: real)
    requires bound > 0 && enforced <= Share(remaining, bound)
    ensures Times(bound, enforced) <= remaining && enforced <= 5.0
  {
    TimesIsProduct(bound, enforced);
    ProductOfShare(remaining, bound as real, enforced);
  }

  lemma ProductOfShare(remaining: real, b: real, x: real)
    requires b > 0.0 && x <= remaining / b
    ensures b * x <= remaining
  {
    assert b * x <= b * (remaining / b) by {
      ProductMonotone(b, x, remaining / b);
    }
  }

  lemma ProductMonotone(b: real, x: real, y: real)
    requires b > 0.0 && x <= y
    ensures b * x <= b * y
  {
  }

  lemma {:induction false} FewerSubmitsTakeLess(n: nat, m: nat, x: real)
    requires n <= m && x >= 0.0
    ensures Times(n, x) <= Times(m, x)
    decreases m
  {
    if n < m {
      FewerSubmitsTakeLess(n, m - 1, x);
    }
  }

  /** What one acquired instrument adds to the summary. */
  function Counted(s: Summary, item: Item): Summary {
    match item
    case NeverRequested => s
    case FetchFailed => s.(sourceErrors := s.sourceErrors + 1)
    case SourceError => s.(sourceErrors := s.sourceErrors + 1)
    case Batch(_, _, ending) =>
      var f := s.(fetched := s.fetched + 1);
      match ending
      case IdentityMismatch => f.(rejectedIdentity := f.rejectedIdentity + 1)
      case CaptureFailed => f.(captureFailed := f.captureFailed + 1)
      case Committed(promoted, _) =>
        var c := f.(cycles := f.cycles + 1);
        if promoted then c.(promoted := c.promoted + 1) else c.(deferred := c.deferred + 1)
  }

  function CountAll(items: seq<Item>): Summary {
    if items == [] then EMPTY_SUMMARY else Counted(CountAll(items[..|items| - 1]), items[|items| - 1])
  }

  function Requested(items: seq<Item>): nat {
    if items == [] then 0
    else Requested(items[..|items| - 1]) + (if items[|items| - 1].NeverRequested? then 0 else 1)
  }

  /** Nothing acquired goes uncounted: each instrument is a source error or a started cycle,
      and each started cycle was promoted, deferred, refused for its identity, or failed. */
  lemma {:induction false} SummaryBalances(items: seq<Item>)
    ensures var s := CountAll(items);
      && Requested(items) == s.sourceErrors + s.fetched
      && s.fetched == s.cycles + s.rejectedIdentity + s.captureFailed
      && s.cycles == s.promoted + s.deferred
  {
    if items != [] {
      SummaryBalances(items[..|items| - 1]);
    }
  }

  /** A cycle makes at most its declared number of submits. */
  predicate WithinSubmits(items: seq<Item>) {
    forall i | 0 <= i < |items| && items[i].Batch? :: items[i].submits <= SubmitBound(items[i].observations)
  }

  /** What the submits of one cycle take, given the timeout in force and, under a bound
      deadline, what remains until it. */
  ghost predicate SpendsAtMost(spent: (nat, real, Option<real>) -> real, items: seq<Item>) {
    forall i: nat, e: real, left: Option<real> | i < |items| && items[i].Batch? ::
      && 0.0 <= spent(i, e, left)
      && (e > 0.0 ==> spent(i, e, left) <= Times(items[i].submits, e))
      && (left.Some? ==> spent(i, e, left) <= Max(0.0, left.value))
  }

  /** All work on the items from `lo` up to `hi` that is no submit. */
  function LocalWork(work: nat -> real, lo: nat, hi: nat): real
    requires lo <= hi
    decreases hi
  {
    if lo == hi then 0.0 else LocalWork(work, lo, hi - 1) + work(hi - 1)
  }

  /** Where the last started cycle among the first `done` items stands. */
  function LastCycle(items: seq<Item>, done: nat): (i: nat)
    requires done <= |items|
    ensures i <= done
  {
    if done == 0 then 0
    else if items[done - 1].Batch? then done - 1
    else LastCycle(items, done - 1)
  }

  /** The last of the first `done` items was a cycle whose submits the deadline cut. */
  predicate LastWasCut(items: seq<Item>, done: nat)
    requires done <= |items|
  {
    done > 0 && items[done - 1].Batch? && items[done - 1].ending.Committed? && items[done - 1].ending.cut
  }

  /** The next item is a cycle whose declared submits, two for each observation and four more, get
      less than 0.05 seconds each of what remains. */
  predicate NoRoom(items: seq<Item>, done: nat, remaining: real)
    requires done <= |items|
  {
    done < |items| && items[done].Batch? && remaining < (2 * items[done].observations + 4) as real * 0.05
  }

  lemma ShareTooSmallIff(remaining: real, observations: nat)
    ensures Share(remaining, SubmitBound(observations)) < MIN_WRITE
       <==> remaining < (2 * observations + 4) as real * 0.05
  {
    var b := (2 * observations + 4) as real;
    var share := remaining / b;
    assert share * b == remaining;
    if share < 0.05 {
      ProductGrows(b, share, 0.05);
    } else {
      ProductMonotone(b, 0.05, share);
    }
  }

  lemma ProductGrows(b: real, x: real, y: real)
    requires b > 0.0 && x < y
    ensures b * x < b * y
  {
  }

  /** Where the time of a materialization went: the last cycle began before the deadline, and
      after it came its own submits and local work only; without any cycle, local work only. */
  ghost predicate Accounted(items: seq<Item>, done: nat, start: real, deadline: real, began: real, timeout: real,
                            bound: Option<real>, spent: (nat, real, Option<real>) -> real, work: nat -> real,
                            finish: real)
    requires done <= |items|
  {
    var k := LastCycle(items, done);
    if k < done && items[k].Batch? then
      && start <= began < deadline && !NoRoom(items, k, deadline - began)
      && finish == began + spent(k, timeout, Left(bound, began)) + LocalWork(work, k, done)
    else finish == start + LocalWork(work, k, done)
  }

  lemma AccountedCycle(items: seq<Item>, done: nat, start: real, deadline: real, began: real, timeout: real,
                       bound: Option<real>, spent: (nat, real, Option<real>) -> real, work: nat -> real, finish: real)
    requires done < |items| && items[done].Batch? && start <= began < deadline
    requires !NoRoom(items, done, deadline - began)
    requires finish == began + (work(done) + spent(done, timeout, Left(bound, began)))
    ensures Accounted(items, done + 1, start, deadline, began, timeout, bound, spent, work, finish)
  {
    assert LocalWork(work, done, done) == 0.0;
    hide Left;
  }

  lemma AccountedRest(items: seq<Item>, done: nat, start: real, deadline: real, began: real, timeout: real,
                      bound: Option<real>, spent: (nat, real, Option<real>) -> real, work: nat -> real, finish: real)
    requires done < |items| && !items[done].Batch?
    requires Accounted(items, done, start, deadline, began, timeout, bound, spent, work, finish)
    ensures Accounted(items, done + 1, start, deadline, began, timeout, bound, spent, work, finish + work(done))
  {
    var k := LastCycle(items, done);
    assert LastCycle(items, done + 1) == k;
    assert LocalWork(work, k, done + 1) == LocalWork(work, k, done) + work(done);
    hide Left, LocalWork, LastCycle;
  }

  /** Phase B: one cycle after the other, each started only when an equal share of the
      remaining time is a meaningful submit timeout; `began` is when the last one started.
      Whatever number of cycles ran, only the local work since then can pass the deadline, and,
      for a client that nothing bounds, the submits of that one cycle. */
  method Materialize(items: seq<Item>, writer: Writer, start: real, deadline: real,
                     spent: (nat, real, Option<real>) -> real, work: nat -> real)
    returns (summary: Summary, finish: real, done: nat, stopped: bool, ghost began: real)
    requires WithinSubmits(items) && SpendsAtMost(spent, items) && forall i :: work(i) >= 0.0
    requires !writer.seam ==> writer.deadline.None?
    modifies writer
    ensures done <= |items| && (!stopped ==> done == |items|)
    ensures start <= finish
    ensures Accounted(items, done, start, deadline, began, writer.timeout, writer.deadline, spent, work, finish)
    ensures old(writer.timeout) > 0.0 || writer.seam ==>
      finish <= Max(start, deadline) + LocalWork(work, LastCycle(items, done), done)
    ensures summary == CountAll(items[..done]).(incomplete := summary.incomplete)
    ensures summary.incomplete <==> stopped
    ensures stopped <==> LastWasCut(items, done) || NoRoom(items, done, deadline - finish)
    ensures forall i | 0 < i < done :: !LastWasCut(items, i)
    ensures writer.deadline == if writer.seam then Some(deadline) else None
    ensures old(writer.timeout) <= 0.0 ==> writer.timeout == old(writer.timeout)
    ensures old(writer.timeout) >= MIN_WRITE ==> MIN_WRITE <= writer.timeout <= old(writer.timeout)
    ensures 0.0 < old(writer.timeout) < MIN_WRITE ==> writer.timeout in {old(writer.timeout), MIN_WRITE}
  {
    hide SpendsAtMost, WithinSubmits, Share, SubmitBound, LocalWork, LastCycle, CountAll, Accounted;
    summary, finish, done, stopped, began := EMPTY_SUMMARY, start, 0, false, start;
    var _ := writer.BindDeadline(deadline);
    NothingDone(items, work);
    NothingAccounted(items, start, deadline, writer.timeout, writer.deadline, spent, work);
    while done < |items|
      invariant done <= |items| && !stopped && !summary.incomplete
      invariant forall i | 0 < i <= done :: !LastWasCut(items, i)
      invariant start <= finish
      invariant Accounted(items, done, start, deadline, began, writer.timeout, writer.deadline, spent, work, finish)
      invariant old(writer.timeout) > 0.0 || writer.seam ==>
        finish <= Max(start, deadline) + LocalWork(work, LastCycle(items, done), done)
      invariant summary == CountAll(items[..done]).(incomplete := false)
      invariant writer.deadline == if writer.seam then Some(deadline) else None
      invariant old(writer.timeout) <= 0.0 ==> writer.timeout == old(writer.timeout)
      invariant old(writer.timeout) >= MIN_WRITE ==> MIN_WRITE <= writer.timeout <= old(writer.timeout)
      invariant 0.0 < old(writer.timeout) < MIN_WRITE ==> writer.timeout in {old(writer.timeout), MIN_WRITE}
      decreases |items| - done
    {
      CountOneMore(items, done);
      OneMoreDone(items, work, done);
      var took := work(done);
      match items[done] {
        case NeverRequested =>
          AccountedRest(items, done, start, deadline, began, writer.timeout, writer.deadline, spent, work, finish);
        case FetchFailed =>
          AccountedRest(items, done, start, deadline, began, writer.timeout, writer.deadline, spent, work, finish);
          summary := summary.(sourceErrors := summary.sourceErrors + 1);
        case SourceError =>
          AccountedRest(items, done, start, deadline, began, writer.timeout, writer.deadline, spent, work, finish);
          summary := summary.(sourceErrors := summary.sourceErrors + 1);
        case Batch(observations, submits, ending) =>
          var share := Share(deadline - finish, SubmitBound(observations));
          ShareTooSmallIff(deadline - finish, observations);
          if share < MIN_WRITE {
            summary, stopped := summary.(incomplete := true), true;
            return;
          }
          var _ := writer.BoundTimeout(share);
          var left := Left(writer.deadline, finish);
          CycleEndsInTime(items, spent, done, finish, deadline, writer.timeout, left);
          took := took + spent(done, writer.timeout, left);
          began := finish;
          AccountedCycle(items, done, start, deadline, began, writer.timeout, writer.deadline, spent, work,
                         finish + took);
          summary := summary.(fetched := summary.fetched + 1);
          match ending {
            case IdentityMismatch => summary := summary.(rejectedIdentity := summary.rejectedIdentity + 1);
            case CaptureFailed => summary := summary.(captureFailed := summary.captureFailed + 1);
            case Committed(promoted, cut) =>
              summary := summary.(cycles := summary.cycles + 1);
              if promoted {
                summary := summary.(promoted := summary.promoted + 1);
              } else {
                summary := summary.(deferred := summary.deferred + 1);
              }
              if cut {
                summary, stopped := summary.(incomplete := true), true;
                finish, done := finish + took, done + 1;
                return;
              }
          }
      }
      finish, done := finish + took, done + 1;
    }
    assert items[..|items|] == items;
  }

  lemma CountOneMore(items: seq<Item>, done: nat)
    requires done < |items|
    ensures CountAll(items[..done + 1]) == Counted(CountAll(items[..done]), items[done])
  {
    assert items[..done + 1][..done] == items[..done];
  }

  lemma NothingDone(items: seq<Item>, work: nat -> real)
    ensures LocalWork(work, LastCycle(items, 0), 0) == 0.0
    ensures CountAll(items[..0]) == EMPTY_SUMMARY
  {
  }

  lemma NothingAccounted(items: seq<Item>, start: real, deadline: real, timeout: real, bound: Option<real>,
                         spent: (nat, real, Option<real>) -> real, work: nat -> real)
    ensures Accounted(items, 0, start, deadline, start, timeout, bound, spent, work, start)
  {
  }

  lemma OneMoreDone(items: seq<Item>, work: nat -> real, done: nat)
    requires done < |items|
    ensures LocalWork(work, LastCycle(items, done + 1), done + 1)
         == work(done) + if items[done].Batch? then 0.0 else LocalWork(work, LastCycle(items, done), done)
  {
  }

  /** An admitted cycle makes its last submit by the deadline, by its timeout or by its bound. */
  lemma CycleEndsInTime(items: seq<Item>, spent: (nat, real, Option<real>) -> real, i: nat, clock: real,
                        deadline: real, timeout: real, left: Option<real>)
    requires WithinSubmits(items) && SpendsAtMost(spent, items) && i < |items| && items[i].Batch?
    requires Share(deadline - clock, SubmitBound(items[i].observations)) >= MIN_WRITE
    requires timeout > 0.0 ==> timeout <= Share(deadline - clock, SubmitBound(items[i].observations))
    requires left.Some? ==> left.value == deadline - clock
    ensures spent(i, timeout, left) >= 0.0 && clock < deadline
    ensures timeout > 0.0 || left.Some? ==> clock + spent(i, timeout, left) <= deadline
  {
    hide Times, Share;
    CycleFits(deadline - clock, items[i].observations, items[i].submits, timeout);
  }

  /** What is left until a bound deadline. */
  function Left(deadline: Option<real>, clock: real): Option<real> {
    if deadline.Some? then Some(deadline.value - clock) else None
  }

  lemma CycleFits(remaining: real, observations: nat, submits: nat, enforced: real)
    requires Share(remaining, SubmitBound(observations)) >= MIN_WRITE && submits <= SubmitBound(observations)
    requires enforced > 0.0 ==> enforced <= Share(remaining, SubmitBound(observations))
    ensures remaining > 0.0
    ensures enforced > 0.0 ==> Times(submits, enforced) <= remaining
  {
    if enforced > 0.0 {
      ShareFits(remaining, SubmitBound(observations), enforced);
      FewerSubmitsTakeLess(submits, SubmitBound(observations), enforced);
    }
  }

  /** What Phase A leaves when it requested only the first instruments. */
  function Reached(items: seq<Item>, requested: nat): (r: seq<Item>)
    ensures |r| == |items|
    ensures forall i | 0 <= i < |items| :: r[i] == if i < requested then items[i] else NeverRequested
  {
    seq(|items|, i requires 0 <= i < |items| => if i < requested then items[i] else NeverRequested)
  }

  /** The whole pass: whatever setup leaves, acquisition and materialization together end by
      the pass deadline, but for the local work since the last cycle started; a setup inside its
      envelope always gets its first wave, and no cycle runs for an instrument that was never
      requested. */
  method RunPass(started: real, resolved: real, setupTook: real, concurrency: int, waveBound: real, waves: nat -> real,
                 items: seq<Item>, writer: Writer, spent: (nat, real, Option<real>) -> real, work: nat -> real)
    returns (summary: Summary, acquiredAt: real, finish: real, requested: nat, done: nat, ghost began: real)
    requires setupTook >= 0.0 && WithinBound(waves, waveBound)
    requires WithinSubmits(items) && SpendsAtMost(spent, items) && forall i :: work(i) >= 0.0
    requires !writer.seam ==> writer.deadline.None?
    modifies writer
    ensures requested <= |items| && done <= |items|
    ensures var plan := PlanFor(started, resolved, waveBound);
      && started + setupTook <= acquiredAt <= Max(started + setupTook, plan.acquisition)
      && (requested < |items| ==> plan.acquisition - acquiredAt < waveBound)
      && writer.deadline == (if writer.seam then Some(plan.deadline) else None)
      && Accounted(Reached(items, requested), done, acquiredAt, plan.deadline, began, writer.timeout, writer.deadline,
                   spent, work, finish)
    ensures old(writer.timeout) > 0.0 || writer.seam ==>
      var overrun := LocalWork(work, LastCycle(Reached(items, requested), done), done);
      var deadline := PlanFor(started, resolved, waveBound).deadline;
      && finish <= Max(started + setupTook, deadline) + overrun
      && (started + setupTook <= deadline ==> finish <= started + MAX_BUDGET + overrun)
    ensures started + setupTook <= PlanFor(started, resolved, waveBound).setup && items != [] ==> requested > 0
    ensures summary == CountAll(Reached(items, requested)[..done]).(incomplete := summary.incomplete)
    ensures done < |items| ==>
      && summary.incomplete
      && (LastWasCut(Reached(items, requested), done)
          || NoRoom(Reached(items, requested), done, PlanFor(started, resolved, waveBound).deadline - finish))
  {
    var plan := PlanFor(started, resolved, waveBound);
    PlanLeavesRoom(started, resolved, waveBound);
    hide PlanFor, CountAll, LastCycle, LocalWork, Accounted;
    var exhausted, count;
    requested, acquiredAt, exhausted, count :=
      Acquire(|items|, concurrency, started + setupTook, plan, waveBound, waves);
    var stopped;
    summary, finish, done, stopped, began :=
      Materialize(Reached(items, requested), writer, acquiredAt, plan.deadline, spent, work);
  }
}
