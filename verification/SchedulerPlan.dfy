/**
 The scheduler's pure planners (src/scheduler.rs) and what committing their plans
 does to the tables (src/channel/workers.rs, src/memory.rs).
 */
module SchedulerPlan {
  import opened Basics
  import opened Text
  import opened SchedulerStore
  import opened SchedulerHistory

  const I64_MAX: int := 0x7FFF_FFFF_FFFF_FFFF

  datatype Event =
    | ManualPause | ManualResume | ManualCancel
    | RunSucceededKeepActive | RunSucceededComplete | RunFailedRetry | RunFailedPause

  datatype Trigger = Once(runAt: int, timezone: string) | Cron(expr: string, timezone: string)

  datatype Backoff = Backoff(strategy: string, baseSecs: int, maxSecs: int)

  datatype Policy = Policy(version: string, trigger: Trigger, maxFailureStreak: nat, backoff: Backoff)

  datatype SuccessPlan = SuccessPlan(nextState: Status, markCompleted: bool, nextRunAt: Option<int>)

  datatype FailurePlan = FailurePlan(nextState: Status, pauseJob: bool, nextRunAt: Option<int>, backoffSecs: Option<int>)

  /** The time zone and cron libraries: which texts parse, and the first firing after a time. */
  datatype Calendar = Calendar(
    isTimezone: string -> bool, isCron: string -> bool, hasLocalTime: (int, string) -> bool,
    firstAfter: (string, string, int) -> Option<int>)

  ghost predicate CalendarOk(cal: Calendar) {
    forall expr, tz, t :: cal.firstAfter(expr, tz, t).Some? ==> cal.firstAfter(expr, tz, t).value > t
  }

  // ---- The state machine -----------------------------------------------------------------------

  function Transition(current: Status, event: Event): Result<Status, string> {
    match (current, event)
    case (Active, ManualPause) => Ok(Paused)
    case (Paused, ManualResume) => Ok(Active)
    case (Active, ManualCancel) => Ok(Canceled)
    case (Paused, ManualCancel) => Ok(Canceled)
    case (Active, RunSucceededKeepActive) => Ok(Active)
    case (Active, RunSucceededComplete) => Ok(Completed)
    case (Active, RunFailedRetry) => Ok(Active)
    case (Active, RunFailedPause) => Ok(Paused)
    case _ => Err("invalid scheduler transition")
  }

  function Follow(current: Status, events: seq<Event>): Result<Status, string>
    decreases events
  {
    if events == [] then Ok(current)
    else
      match Transition(current, events[0])
      case Err(e) => Err(e)
      case Ok(next) => Follow(next, events[1..])
  }

  /** No sequence of events leaves a completed or canceled job, and a completed job was active just before. */
  lemma {:induction false} TerminalStatesStay(current: Status, events: seq<Event>)
    requires events != []
    ensures current == Completed || current == Canceled ==> Follow(current, events).Err?
    ensures Follow(current, events) == Ok(Completed) ==>
              Follow(current, events[..|events| - 1]) == Ok(Active) && events[|events| - 1] == RunSucceededComplete
    decreases events
  {
    if |events| == 1 {
      assert events[1..] == [] && events[..0] == [];
      var step := Transition(current, events[0]);
      assert Follow(current, events) == if step.Ok? then Follow(step.value, []) else step;
    } else if Transition(current, events[0]).Ok? {
      var next := Transition(current, events[0]).value;
      TerminalStatesStay(next, events[1..]);
      assert events[1..][..|events| - 2] == events[..|events| - 1][1..];
    }
  }

  /** An active job takes every event but resuming, a paused one only resuming and canceling, and no other any; and this is
      where they lead. */
  lemma TransitionsAre(current: Status, event: Event)
    ensures Transition(current, event).Ok? <==>
              || (current == Active && event != ManualResume)
              || (current == Paused && (event == ManualResume || event == ManualCancel))
    ensures Transition(current, event).Ok? ==>
              && (Transition(current, event).value == Canceled <==> event == ManualCancel)
              && (Transition(current, event).value == Completed <==> event == RunSucceededComplete)
              && (Transition(current, event).value == Paused <==> event == ManualPause || event == RunFailedPause)
  {
  }

  // ---- Validation ------------------------------------------------------------------------------

  function StrategyOf(raw: string): string {
    if Trim(raw) == "" then "exponential" else ToAsciiLower(Trim(raw))
  }

  predicate IsValidTrigger(t: Trigger, cal: Calendar) {
    match t
    case Once(runAt, tz) => runAt > 0 && cal.isTimezone(tz)
    case Cron(expr, tz) => Trim(expr) != "" && cal.isTimezone(tz) && cal.isCron(expr)
  }

  predicate IsValidBackoff(b: Backoff) {
    && (ToAsciiLower(Trim(b.strategy)) == "exponential" || ToAsciiLower(Trim(b.strategy)) == "fixed")
    && 0 < b.baseSecs <= b.maxSecs
  }

  predicate IsValidPolicy(p: Policy, cal: Calendar) {
    && Trim(p.version) == "1.0" && 1 <= p.maxFailureStreak <= 1024
    && IsValidBackoff(p.backoff) && IsValidTrigger(p.trigger, cal)
  }

  // ---- Backoff ---------------------------------------------------------------------------------

  function Pow2(n: nat): (p: nat)
    ensures p >= 1
  {
    if n == 0 then 1 else 2 * Pow2(n - 1)
  }

  function Clamp(x: int, lo: int, hi: int): int {
    if x < lo then lo else if x > hi then hi else x
  }

  function SaturatingMul(a: int, b: int): int {
    Clamp(a * b, -I64_MAX - 1, I64_MAX)
  }

  function SaturatingPow2(n: nat): int {
    Clamp(Pow2(n), -I64_MAX - 1, I64_MAX)
  }

  function BackoffSecs(b: Backoff, attempt: nat): int {
    var base := Max(b.baseSecs, 1);
    var max := Max(if b.maxSecs < base then base else b.maxSecs, base);
    if StrategyOf(b.strategy) == "fixed" then Clamp(base, 1, max)
    else if attempt == 0 then Clamp(1, 1, max)
    else Clamp(SaturatingMul(base, SaturatingPow2(Min(attempt, 20))), 1, max)
  }

  predicate FitsI64(b: Backoff) {
    -I64_MAX - 1 <= b.baseSecs <= I64_MAX && -I64_MAX - 1 <= b.maxSecs <= I64_MAX
  }

  /** The limits that count after normalization. */
  function BaseSecs(b: Backoff): int {
    Max(b.baseSecs, 1)
  }

  function MaxSecs(b: Backoff): int {
    Max(b.maxSecs, BaseSecs(b))
  }

  lemma {:induction false} Pow2Monotone(m: nat, n: nat)
    requires m <= n
    ensures Pow2(m) <= Pow2(n)
  {
    if m < n {
      Pow2Monotone(m, n - 1);
    }
  }

  lemma Pow2At20()
    ensures Pow2(20) == 0x10_0000
  {
    assert Pow2(4) == 16;
    assert Pow2(8) == 256;
    assert Pow2(12) == 4096;
    assert Pow2(16) == 65536;
  }

  /** Saturation never shows: the backoff is base * 2^min(n, 20) capped at the maximum, computed without overflow. */
  lemma BackoffIsExact(b: Backoff, attempt: nat)
    requires FitsI64(b) && StrategyOf(b.strategy) != "fixed" && attempt >= 1
    ensures BackoffSecs(b, attempt) == if BaseSecs(b) * Pow2(Min(attempt, 20)) < MaxSecs(b)
                                       then BaseSecs(b) * Pow2(Min(attempt, 20)) else MaxSecs(b)
  {
    Pow2Monotone(Min(attempt, 20), 20);
    Pow2At20();
    ProductAtLeast(BaseSecs(b), Pow2(Min(attempt, 20)));
  }

  lemma ProductAtLeast(a: int, b: int)
    requires a >= 1 && b >= 1
    ensures a * b >= a && a * b >= 1
  {
  }

  lemma ProductMonotone(a: int, b: int, c: int)
    requires a >= 1 && b <= c
    ensures a * b <= a * c
  {
  }

  /** The backoff stays between one second and the maximum, and never shrinks as failures add up. */
  lemma BackoffGrowsWithinBounds(b: Backoff, m: nat, n: nat)
    requires FitsI64(b) && m <= n
    ensures 1 <= BackoffSecs(b, m) <= BackoffSecs(b, n) <= MaxSecs(b)
  {
    if StrategyOf(b.strategy) != "fixed" && n >= 1 {
      BackoffIsExact(b, n);
      ProductAtLeast(BaseSecs(b), Pow2(Min(n, 20)));
      if m >= 1 {
        BackoffIsExact(b, m);
        ProductAtLeast(BaseSecs(b), Pow2(Min(m, 20)));
        Pow2Monotone(Min(m, 20), Min(n, 20));
        ProductMonotone(BaseSecs(b), Pow2(Min(m, 20)), Pow2(Min(n, 20)));
      }
    }
  }

  /** A fixed backoff is the base delay, whatever the number of failures; an exponential one starts with one second. */
  lemma BackoffStarts(b: Backoff, attempt: nat)
    ensures ToAsciiLower(Trim(b.strategy)) == "fixed" ==> BackoffSecs(b, attempt) == if b.baseSecs < 1 then 1 else b.baseSecs
    ensures ToAsciiLower(Trim(b.strategy)) != "fixed" ==> BackoffSecs(b, 0) == 1
    ensures StrategyOf(b.strategy) == "fixed" <==> ToAsciiLower(Trim(b.strategy)) == "fixed"
  {
  }

  // ---- The plans -------------------------------------------------------------------------------

  function NextRun(t: Trigger, now: int, cal: Calendar): Result<Option<int>, string> {
    match t
    case Once(runAt, tz) =>
      if !cal.isTimezone(tz) then Err("invalid timezone") else Ok(if runAt <= now then None else Some(runAt))
    case Cron(expr, tz) =>
      if !cal.isTimezone(tz) then Err("invalid timezone")
      else if !cal.isCron(expr) then Err("invalid cron expression")
      else if !cal.hasLocalTime(now, tz) then Err("invalid local timestamp")
      else Ok(cal.firstAfter(expr, tz, now + 1))
  }

  function Completing(): Result<SuccessPlan, string> {
    match Transition(Active, RunSucceededComplete)
    case Err(e) => Err(e)
    case Ok(next) => Ok(SuccessPlan(next, true, None))
  }

  function PlanSuccess(p: Policy, now: int, runCountAfter: int, maxRuns: Option<int>, cal: Calendar): Result<SuccessPlan, string> {
    if !IsValidPolicy(p, cal) then Err("invalid policy")
    else
      var maxRunsReached := maxRuns.Some? && runCountAfter >= maxRuns.value;
      if p.trigger.Once? || maxRunsReached then Completing()
      else
        match NextRun(p.trigger, now, cal)
        case Err(e) => Err(e)
        case Ok(None) => Completing()
        case Ok(Some(at)) =>
          match Transition(Active, RunSucceededKeepActive)
          case Err(e) => Err(e)
          case Ok(next) => Ok(SuccessPlan(next, false, Some(at)))
  }

  /** The cast of the streak to 32 bits drops higher bits. */
  function AsU32(n: int): nat
    requires n >= 0
  {
    n % 0x1_0000_0000
  }

  function PlanFailure(p: Policy, now: int, streakAfter: int, cal: Calendar): Result<FailurePlan, string> {
    if !IsValidPolicy(p, cal) then Err("invalid policy")
    else if streakAfter >= Max(p.maxFailureStreak, 1) then
      match Transition(Active, RunFailedPause)
      case Err(e) => Err(e)
      case Ok(next) => Ok(FailurePlan(next, true, None, None))
    else
      var backoff := Max(BackoffSecs(p.backoff, AsU32(Max(streakAfter, 0))), 1);
      match Transition(Active, RunFailedRetry)
      case Err(e) => Err(e)
      case Ok(next) => Ok(FailurePlan(next, false, Some(now + backoff), Some(backoff)))
  }

  /** A success plan completes the job exactly when it runs once, has reached its run limit or has no next firing;
      otherwise the job stays active with a next run after now. */
  lemma SuccessPlanIsSound(p: Policy, now: int, runCountAfter: int, maxRuns: Option<int>, cal: Calendar)
    requires CalendarOk(cal) && PlanSuccess(p, now, runCountAfter, maxRuns, cal).Ok?
    ensures var plan := PlanSuccess(p, now, runCountAfter, maxRuns, cal).value;
            && plan.nextState == (if plan.markCompleted then Completed else Active)
            && (plan.markCompleted <==> p.trigger.Once? || (maxRuns.Some? && runCountAfter >= maxRuns.value)
                                        || NextRun(p.trigger, now, cal) == Ok(None))
            && (plan.markCompleted ==> plan.nextRunAt == None)
            && (!plan.markCompleted ==> plan.nextRunAt.Some? && plan.nextRunAt.value > now)
  {
  }

  /** A failure plan pauses the job exactly when the streak reaches the threshold; otherwise the retry waits for the
      backoff of the true streak: the 32-bit cast never drops a bit. */
  lemma FailurePlanIsSound(p: Policy, now: int, streakAfter: int, cal: Calendar)
    requires IsValidPolicy(p, cal) && FitsI64(p.backoff) && streakAfter >= 0
    ensures PlanFailure(p, now, streakAfter, cal).Ok?
    ensures var plan := PlanFailure(p, now, streakAfter, cal).value;
            && plan.nextState == (if plan.pauseJob then Paused else Active)
            && (plan.pauseJob <==> streakAfter >= p.maxFailureStreak)
            && (plan.pauseJob ==> plan.nextRunAt == None)
            && (!plan.pauseJob ==> plan.nextRunAt == Some(now + BackoffSecs(p.backoff, streakAfter))
                                   && now < plan.nextRunAt.value <= now + MaxSecs(p.backoff))
  {
    if streakAfter < p.maxFailureStreak {
      assert AsU32(streakAfter) == streakAfter;
      BackoffGrowsWithinBounds(p.backoff, streakAfter, streakAfter);
    }
  }

  /** A success can be planned exactly for a policy of version 1.0 with a threshold from 1 to 1024, a known strategy, a base
      delay of at least a second and no more than the maximum, and a trigger that the libraries accept, if the next firing
      can be computed when it is needed. A failure is planned for the same policies. */
  lemma SuccessPlannedIff(p: Policy, now: int, runCountAfter: int, maxRuns: Option<int>, cal: Calendar)
    ensures PlanSuccess(p, now, runCountAfter, maxRuns, cal).Ok? <==>
              && Trim(p.version) == "1.0" && 0 < p.maxFailureStreak < 1025
              && ToAsciiLower(Trim(p.backoff.strategy)) in {"fixed", "exponential"} && 0 < p.backoff.baseSecs <= p.backoff.maxSecs
              && cal.isTimezone(p.trigger.timezone)
              && (if p.trigger.Once? then p.trigger.runAt > 0 else Trim(p.trigger.expr) != "" && cal.isCron(p.trigger.expr))
              && (p.trigger.Once? || (maxRuns.Some? && runCountAfter >= maxRuns.value) || cal.hasLocalTime(now, p.trigger.timezone))
    ensures PlanSuccess(p, now, runCountAfter, maxRuns, cal).Ok? && !PlanSuccess(p, now, runCountAfter, maxRuns, cal).value.markCompleted ==>
              p.trigger.Cron? && PlanSuccess(p, now, runCountAfter, maxRuns, cal).value.nextRunAt
                                 == cal.firstAfter(p.trigger.expr, p.trigger.timezone, now + 1)
    ensures PlanSuccess(p, now, runCountAfter, Some(runCountAfter), cal).Ok? == PlanFailure(p, now, runCountAfter, cal).Ok?
  {
  }

  // ---- A worker's commit -----------------------------------------------------------------------

  /** What the worker commits after a success. */
  function SuccessCommit(row: Job, id: string, token: string, startedAt: int, finishedAt: int, plan: SuccessPlan): Commit {
    Commit(row.channel, row.chatId, id, token, startedAt, finishedAt, plan.nextRunAt, Success(plan.markCompleted))
  }

  /** What the worker commits after a failure: a paused job gets no next run. */
  function FailureCommit(row: Job, id: string, token: string, startedAt: int, finishedAt: int, plan: FailurePlan,
                         error: string): Commit {
    var pause := plan.nextState == Paused || plan.pauseJob;
    Commit(row.channel, row.chatId, id, token, startedAt, finishedAt, if pause then None else plan.nextRunAt,
           Failure(pause, error))
  }

  lemma CommitWrites(db: Db, c: Commit)
    requires CommitStep(db, c).1
    ensures c.jobId in db.jobs && c.jobId in CommitStep(db, c).0.jobs
    ensures CommitStep(db, c).0.jobs[c.jobId] == Finished(c)(db.jobs[c.jobId])
  {
    CommitFenced(db, c);
    assert c.jobId in CommitRows(db.jobs, c);
  }

  predicate IsRunEvent(event: Event) {
    event.RunSucceededKeepActive? || event.RunSucceededComplete? || event.RunFailedRetry? || event.RunFailedPause?
  }

  /** A state the machine allows an active job to reach by the outcome of a run. */
  ghost predicate IsLegalMove(status: Status) {
    exists event: Event :: IsRunEvent(event) && Transition(Active, event) == Ok(status)
  }

  lemma LegalMoves(status: Status)
    ensures IsLegalMove(status) <==> status != Canceled
  {
    assert Transition(Active, RunSucceededKeepActive) == Ok(Active);
    assert Transition(Active, RunSucceededComplete) == Ok(Completed);
    assert Transition(Active, RunFailedPause) == Ok(Paused);
  }

  /** The row a worker claimed is the row its accepted commit updates, however many transactions came in between. */
  lemma AcceptedCommitUpdatesClaimedRow(db: Db, ops: seq<Op>, c: Commit)
    requires TablesOk(db) && Holds(db, c.jobId, c.token)
    requires forall i :: 0 <= i < |ops| ==> IssuesOther(ops[i], c.token)
    requires CommitStep(Exec(db, ops), c).1
    ensures var after := CommitStep(Exec(db, ops), c).0;
            && db.jobs[c.jobId].status == Active
            && c.jobId in Exec(db, ops).jobs && Exec(db, ops).jobs[c.jobId] == db.jobs[c.jobId]
            && c.jobId in after.jobs && after.jobs[c.jobId] == Finished(c)(db.jobs[c.jobId])
  {
    CommitFenced(Exec(db, ops), c);
    HeldRowIsFrozen(db, ops, c.jobId, c.token);
    CommitWrites(Exec(db, ops), c);
    assert JobOk(db.jobs[c.jobId]);
  }

  /** A worker plans from the row it claimed. If its commit is accepted, the plan was right for the row as it is then:
      the job takes the planned state, the run limit is honoured, and a job that stays active is not due again at once. */
  lemma SuccessCommitFollowsPlan(db: Db, ops: seq<Op>, id: string, token: string, startedAt: int, finishedAt: int,
                                 p: Policy, cal: Calendar, plan: SuccessPlan)
    requires CalendarOk(cal) && TablesOk(db) && Holds(db, id, token)
    requires forall i :: 0 <= i < |ops| ==> IssuesOther(ops[i], token)
    requires PlanSuccess(p, finishedAt, db.jobs[id].runCount + 1, db.jobs[id].maxRuns, cal) == Ok(plan)
    requires CommitStep(Exec(db, ops), SuccessCommit(db.jobs[id], id, token, startedAt, finishedAt, plan)).1
    ensures var after := CommitStep(Exec(db, ops), SuccessCommit(db.jobs[id], id, token, startedAt, finishedAt, plan)).0;
            && id in after.jobs && after.jobs[id].status == plan.nextState && IsLegalMove(plan.nextState)
            && after.jobs[id].runCount == db.jobs[id].runCount + 1 && after.jobs[id].maxRuns == db.jobs[id].maxRuns
            && (after.jobs[id].maxRuns.Some? && after.jobs[id].runCount >= after.jobs[id].maxRuns.value ==>
                  after.jobs[id].status == Completed)
            && (after.jobs[id].status == Active ==> after.jobs[id].nextRunAt.Some? && after.jobs[id].nextRunAt.value > finishedAt)
  {
    AcceptedCommitUpdatesClaimedRow(db, ops, SuccessCommit(db.jobs[id], id, token, startedAt, finishedAt, plan));
    SuccessPlanIsSound(p, finishedAt, db.jobs[id].runCount + 1, db.jobs[id].maxRuns, cal);
    LegalMoves(plan.nextState);
  }

  /** The same for a failure: the job is paused exactly when its streak reaches the threshold, and otherwise waits. */
  lemma FailureCommitFollowsPlan(db: Db, ops: seq<Op>, id: string, token: string, startedAt: int, finishedAt: int,
                                 p: Policy, cal: Calendar, plan: FailurePlan, error: string)
    requires IsValidPolicy(p, cal) && FitsI64(p.backoff) && TablesOk(db) && Holds(db, id, token)
    requires forall i :: 0 <= i < |ops| ==> IssuesOther(ops[i], token)
    requires PlanFailure(p, finishedAt, db.jobs[id].failureStreak + 1, cal) == Ok(plan)
    requires CommitStep(Exec(db, ops), FailureCommit(db.jobs[id], id, token, startedAt, finishedAt, plan, error)).1
    ensures var after := CommitStep(Exec(db, ops), FailureCommit(db.jobs[id], id, token, startedAt, finishedAt, plan, error)).0;
            && id in after.jobs && after.jobs[id].status == plan.nextState && IsLegalMove(plan.nextState)
            && after.jobs[id].failureStreak == db.jobs[id].failureStreak + 1
            && (after.jobs[id].status == Paused <==> after.jobs[id].failureStreak >= p.maxFailureStreak)
            && (after.jobs[id].status == Active ==> after.jobs[id].nextRunAt.Some? && after.jobs[id].nextRunAt.value > finishedAt)
            && (after.jobs[id].status == Paused ==> after.jobs[id].nextRunAt == None)
  {
    AcceptedCommitUpdatesClaimedRow(db, ops, FailureCommit(db.jobs[id], id, token, startedAt, finishedAt, plan, error));
    FailurePlanIsSound(p, finishedAt, db.jobs[id].failureStreak + 1, cal);
    LegalMoves(plan.nextState);
  }
}
