/**
 What holds of the scheduler tables after every sequence of transactions, by any
 number of workers that may crash, stall or come back late (src/memory.rs:1169-1553).
 */
module SchedulerHistory {
  import opened Basics
  import opened Text
  import opened SchedulerStore

  /** One committed or rejected transaction. A claim records the rows its `SELECT` returned. */
  datatype Op =
    | Create(job: NewJob)
    | SetStatus(channel: string, chatId: int, owner: int, jobId: string, status: Status)
    | Claim(channel: string, now: int, limit: nat, leaseSecs: int, token: string, picked: seq<string>)
    | Report(c: Commit)

  function Step(db: Db, op: Op): Db {
    match op
    case Create(job) => CreateStep(db, job).0
    case SetStatus(channel, chatId, owner, jobId, status) => SetStatusStep(db, channel, chatId, owner, jobId, status).0
    case Claim(channel, now, limit, leaseSecs, token, picked) => ClaimStep(db, channel, now, leaseSecs, token, picked).0
    case Report(c) => CommitStep(db, c).0
  }

  function Exec(db: Db, ops: seq<Op>): Db {
    if ops == [] then db else Step(Exec(db, ops[..|ops| - 1]), ops[|ops| - 1])
  }

  // ---- The invariant ---------------------------------------------------------------------------

  function RunsOf(runs: seq<RunRow>, id: string): nat {
    if runs == [] then 0
    else RunsOf(runs[..|runs| - 1], id) + (if runs[|runs| - 1].jobId == id then 1 else 0)
  }

  /** The failed runs of a job at the end of its log. */
  function TrailingFailures(runs: seq<RunRow>, id: string): nat {
    if runs == [] then 0
    else
      var last := runs[|runs| - 1];
      if last.jobId != id then TrailingFailures(runs[..|runs| - 1], id)
      else if last.ok then 0
      else TrailingFailures(runs[..|runs| - 1], id) + 1
  }

  predicate JobOk(job: Job) {
    && (job.leaseToken.Some? ==> job.status == Active)
    && (job.leaseToken.Some? <==> job.leaseUntil.Some?)
  }

  ghost predicate TablesOk(db: Db) {
    && (forall id :: id in db.jobs ==> JobOk(db.jobs[id]))
    && (forall id :: id in db.jobs ==> db.jobs[id].runCount == RunsOf(db.runs, id))
    && (forall id :: id in db.jobs ==> db.jobs[id].failureStreak == TrailingFailures(db.runs, id))
    && (forall id :: id !in db.jobs ==> RunsOf(db.runs, id) == 0)
  }

  lemma {:induction false} NoRunsNoFailures(runs: seq<RunRow>, id: string)
    requires RunsOf(runs, id) == 0
    ensures TrailingFailures(runs, id) == 0
  {
    if runs != [] {
      NoRunsNoFailures(runs[..|runs| - 1], id);
    }
  }

  lemma RunsSnoc(runs: seq<RunRow>, run: RunRow, id: string)
    ensures RunsOf(runs + [run], id) == RunsOf(runs, id) + (if run.jobId == id then 1 else 0)
    ensures TrailingFailures(runs + [run], id)
         == if run.jobId != id then TrailingFailures(runs, id) else if run.ok then 0 else TrailingFailures(runs, id) + 1
  {
    assert (runs + [run])[..|runs|] == runs;
  }

  lemma CommitKeepsTablesOk(db: Db, c: Commit)
    requires TablesOk(db)
    ensures TablesOk(CommitStep(db, c).0)
  {
    var db' := CommitStep(db, c).0;
    if CommitRows(db.jobs, c) != {} {
      forall id
        ensures RunsOf(db'.runs, id) == RunsOf(db.runs, id) + (if c.jobId == id then 1 else 0)
        ensures c.jobId != id ==> TrailingFailures(db'.runs, id) == TrailingFailures(db.runs, id)
      {
        RunsSnoc(db.runs, RunOf(c), id);
      }
      RunsSnoc(db.runs, RunOf(c), c.jobId);
    }
  }

  lemma StepKeepsTablesOk(db: Db, op: Op)
    requires TablesOk(db)
    ensures TablesOk(Step(db, op))
  {
    match op
    case Create(job) =>
      NoRunsIfNew(db, job.jobId);
    case SetStatus(_, _, _, _, _) =>
    case Claim(_, _, _, _, _, _) =>
    case Report(c) =>
      CommitKeepsTablesOk(db, c);
  }

  lemma NoRunsIfNew(db: Db, id: string)
    requires TablesOk(db)
    ensures id !in db.jobs ==> RunsOf(db.runs, id) == 0 && TrailingFailures(db.runs, id) == 0
  {
    if id !in db.jobs {
      NoRunsNoFailures(db.runs, id);
    }
  }

  /** In every reachable state: a lease token means an active job under a lease, `run_count` is the number of the
      job's runs in the log, and `failure_streak` is the number of failures since its last success. */
  lemma {:induction false} ReachableTablesOk(ops: seq<Op>)
    ensures TablesOk(Exec(EMPTY, ops))
  {
    if ops != [] {
      ReachableTablesOk(ops[..|ops| - 1]);
      StepKeepsTablesOk(Exec(EMPTY, ops[..|ops| - 1]), ops[|ops| - 1]);
    }
  }

  // ---- Terminal states -------------------------------------------------------------------------

  predicate IsTerminal(job: Job) {
    job.status == Completed || job.status == Canceled
  }

  lemma StepKeepsTerminal(db: Db, op: Op, id: string)
    requires TablesOk(db) && id in db.jobs && IsTerminal(db.jobs[id])
    ensures id in Step(db, op).jobs && Step(db, op).jobs[id] == db.jobs[id]
  {
    assert JobOk(db.jobs[id]);
  }

  /** A completed or canceled job never changes again, although complete and fail do not look at the status. */
  lemma {:induction false} TerminalForever(db: Db, ops: seq<Op>, id: string)
    requires TablesOk(db) && id in db.jobs && IsTerminal(db.jobs[id])
    ensures id in Exec(db, ops).jobs && Exec(db, ops).jobs[id] == db.jobs[id] && TablesOk(Exec(db, ops))
  {
    if ops != [] {
      TerminalForever(db, ops[..|ops| - 1], id);
      StepKeepsTerminal(Exec(db, ops[..|ops| - 1]), ops[|ops| - 1], id);
      StepKeepsTablesOk(Exec(db, ops[..|ops| - 1]), ops[|ops| - 1]);
    }
  }

  // ---- Fencing ---------------------------------------------------------------------------------

  /** Whether the worker with this token could still commit a run of the job. */
  predicate Holds(db: Db, id: string, token: string) {
    id in db.jobs && db.jobs[id].leaseToken == Some(token)
  }

  /** A commit is accepted exactly when its token holds the job (of that channel and chat); otherwise nothing changes. */
  lemma CommitFenced(db: Db, c: Commit)
    ensures CommitStep(db, c).1 <==>
              Holds(db, c.jobId, c.token) && db.jobs[c.jobId].channel == c.channel && db.jobs[c.jobId].chatId == c.chatId
    ensures !CommitStep(db, c).1 ==> CommitStep(db, c).0 == db
    ensures CommitStep(db, c).1 ==> !Holds(CommitStep(db, c).0, c.jobId, c.token)
  {
    if Holds(db, c.jobId, c.token) && db.jobs[c.jobId].channel == c.channel && db.jobs[c.jobId].chatId == c.chatId {
      assert c.jobId in CommitRows(db.jobs, c);
    }
  }

  predicate IssuesOther(op: Op, token: string) {
    op.Claim? ==> op.token != token
  }

  /** Only the claim that issues a token can put it on a job. */
  lemma StepGivesNoToken(db: Db, op: Op, id: string, token: string)
    requires IssuesOther(op, token) && !Holds(db, id, token)
    ensures !Holds(Step(db, op), id, token)
  {
  }

  /** Once a token is off a job, it stays off as long as no claim reuses it: a commit by its worker is rejected
      and leaves both tables as they are, however late it comes. */
  lemma {:induction false} LostTokenNeverReturns(db: Db, ops: seq<Op>, id: string, token: string)
    requires !Holds(db, id, token) && forall i :: 0 <= i < |ops| ==> IssuesOther(ops[i], token)
    ensures !Holds(Exec(db, ops), id, token)
    ensures forall c: Commit :: c.jobId == id && c.token == token ==> CommitStep(Exec(db, ops), c) == (Exec(db, ops), false)
  {
    if ops != [] {
      LostTokenNeverReturns(db, ops[..|ops| - 1], id, token);
      StepGivesNoToken(Exec(db, ops[..|ops| - 1]), ops[|ops| - 1], id, token);
    }
    forall c: Commit | c.jobId == id && c.token == token
      ensures CommitStep(Exec(db, ops), c) == (Exec(db, ops), false)
    {
      CommitFenced(Exec(db, ops), c);
    }
  }

  /** Pausing, canceling or otherwise setting the status of a job voids the claim that is in flight. */
  lemma StatusChangeVoidsClaim(db: Db, channel: string, chatId: int, owner: int, id: string, status: Status, token: string)
    ensures var (db', updated) := SetStatusStep(db, channel, chatId, owner, id, status);
            updated ==> id in db'.jobs && db'.jobs[id].status == status && !Holds(db', id, token)
  {
    var rows := StatusRows(db.jobs, channel, chatId, owner, id);
    if rows != {} {
      var other :| other in rows;
      assert other == id;
    }
  }

  /** Claiming a job takes it from whoever held it. */
  lemma ReclaimVoidsClaim(db: Db, channel: string, now: int, leaseSecs: int, token: string, picked: seq<string>,
                          id: string, stale: string)
    requires id in ClaimRows(db.jobs, channel, now, picked) && stale != token
    ensures !Holds(ClaimStep(db, channel, now, leaseSecs, token, picked).0, id, stale)
    ensures Holds(ClaimStep(db, channel, now, leaseSecs, token, picked).0, id, token)
  {
  }

  ghost predicate TokensNeverReused(ops: seq<Op>) {
    forall i, j :: 0 <= i < j < |ops| && ops[i].Claim? && ops[j].Claim? ==> ops[i].token != ops[j].token
  }

  /** Whether the i-th transaction of a run is an accepted commit for the job under the token. */
  predicate CommitsAt(db: Db, ops: seq<Op>, i: nat, id: string, token: string)
    requires i < |ops|
  {
    ops[i].Report? && ops[i].c.jobId == id && ops[i].c.token == token && CommitStep(Exec(db, ops[..i]), ops[i].c).1
  }

  lemma {:induction false} ExecConcat(db: Db, a: seq<Op>, b: seq<Op>)
    ensures Exec(db, a + b) == Exec(Exec(db, a), b)
  {
    if b == [] {
      assert a + b == a;
    } else {
      assert (a + b)[..|a + b| - 1] == a + b[..|b| - 1];
      ExecConcat(db, a, b[..|b| - 1]);
    }
  }

  lemma ExecTo(db: Db, ops: seq<Op>, i: nat, j: nat)
    requires i <= j <= |ops|
    ensures Exec(db, ops[..j]) == Exec(Exec(db, ops[..i]), ops[i..j])
  {
    assert ops[..j] == ops[..i] + ops[i..j];
    ExecConcat(db, ops[..i], ops[i..j]);
  }

  lemma {:induction false} HeldTokenWasIssued(ops: seq<Op>, id: string, token: string)
    requires Holds(Exec(EMPTY, ops), id, token)
    ensures exists i :: 0 <= i < |ops| && ops[i].Claim? && ops[i].token == token
  {
    assert ops != [];
    var last := |ops| - 1;
    if IssuesOther(ops[last], token) {
      if !Holds(Exec(EMPTY, ops[..last]), id, token) {
        StepGivesNoToken(Exec(EMPTY, ops[..last]), ops[last], id, token);
      }
      HeldTokenWasIssued(ops[..last], id, token);
      var i :| 0 <= i < last && ops[..last][i].Claim? && ops[..last][i].token == token;
      assert ops[i].Claim? && ops[i].token == token;
    }
  }

  /** With tokens never reused, one claim of one job commits at most one run: after the first, every further commit
      under the same token is rejected, whatever happens in between. */
  lemma AtMostOneCommitPerClaim(ops: seq<Op>, i: nat, j: nat, id: string, token: string)
    requires TokensNeverReused(ops) && i < j < |ops|
    requires CommitsAt(EMPTY, ops, i, id, token)
    ensures !CommitsAt(EMPTY, ops, j, id, token)
  {
    var before, after := Exec(EMPTY, ops[..i]), Exec(EMPTY, ops[..i + 1]);
    CommitFenced(before, ops[i].c);
    HeldTokenWasIssued(ops[..i], id, token);
    var k :| 0 <= k < i && ops[..i][k].Claim? && ops[..i][k].token == token;
    assert ops[k].Claim? && ops[k].token == token;
    assert ops[..i + 1][..i] == ops[..i];
    assert after == Step(before, ops[i]);
    var later := ops[i + 1..j];
    forall n | 0 <= n < |later|
      ensures IssuesOther(later[n], token)
    {
      assert later[n] == ops[i + 1 + n];
    }
    LostTokenNeverReturns(after, later, id, token);
    ExecTo(EMPTY, ops, i + 1, j);
  }

  // ---- What a claim gives its worker -------------------------------------------------------------

  /** While a lease lasts, no claim takes the job, and the job does not change under a claim. */
  lemma LeaseExcludes(db: Db, op: Op, id: string)
    requires op.Claim? && id in db.jobs && db.jobs[id].leaseUntil.Some? && op.now < db.jobs[id].leaseUntil.value
    ensures Step(db, op).jobs[id] == db.jobs[id] && id !in Due(db.jobs, op.channel, op.now)
  {
  }

  lemma StepFreezesHeldRow(db: Db, op: Op, id: string, token: string)
    requires Holds(db, id, token) && IssuesOther(op, token) && Holds(Step(db, op), id, token)
    ensures Step(db, op).jobs[id] == db.jobs[id]
  {
    if op.Report? {
      CommitFenced(db, op.c);
    }
  }

  /** As long as a worker's token is on its job, the row is exactly what the worker read when it claimed it. */
  lemma {:induction false} HeldRowIsFrozen(db: Db, ops: seq<Op>, id: string, token: string)
    requires Holds(db, id, token) && forall i :: 0 <= i < |ops| ==> IssuesOther(ops[i], token)
    requires Holds(Exec(db, ops), id, token)
    ensures Exec(db, ops).jobs[id] == db.jobs[id]
  {
    if ops != [] {
      var before := ops[..|ops| - 1];
      if !Holds(Exec(db, before), id, token) {
        StepGivesNoToken(Exec(db, before), ops[|ops| - 1], id, token);
      }
      HeldRowIsFrozen(db, before, id, token);
      StepFreezesHeldRow(Exec(db, before), ops[|ops| - 1], id, token);
    }
  }

  ghost predicate TokenUnused(jobs: Jobs, channel: string, token: string) {
    forall id :: id in jobs && jobs[id].channel == channel ==> jobs[id].leaseToken != Some(token)
  }

  /** The rows a claim hands out are the ones it selected plus the rows that carry its token already; so it hands
      out exactly its selection if and only if every row with that token is in the selection. */
  lemma ClaimReturnsSelection(db: Db, channel: string, now: int, limit: nat, leaseSecs: int, token: string, picked: seq<string>)
    requires IsDueSelection(db.jobs, channel, now, limit, picked) && picked != []
    ensures ClaimStep(db, channel, now, leaseSecs, token, picked).1.Keys == Rows(picked) + Holding(db.jobs, channel, token).Keys
    ensures ClaimStep(db, channel, now, leaseSecs, token, picked).1.Keys == Rows(picked)
       <==> Holding(db.jobs, channel, token).Keys <= Rows(picked)
  {
    var rows := ClaimRows(db.jobs, channel, now, picked);
    forall id
      ensures id in rows <==> id in picked
    {
      if id in picked {
        assert id in Due(db.jobs, channel, now);
      }
    }
    var claimed := ClaimStep(db, channel, now, leaseSecs, token, picked).1;
    forall id
      ensures id in claimed.Keys <==> id in Rows(picked) + Holding(db.jobs, channel, token).Keys
    {
      if id in picked {
        assert id in Due(db.jobs, channel, now);
      }
    }
  }

  lemma ClaimedRowsAre(jobs: Jobs, channel: string, now: int, limit: nat, picked: seq<string>)
    requires IsDueSelection(jobs, channel, now, limit, picked)
    ensures ClaimRows(jobs, channel, now, picked) == Rows(picked)
    ensures Rows(picked) <= Due(jobs, channel, now)
  {
    forall id | id in picked
      ensures id in Due(jobs, channel, now)
    {
    }
  }

  /** With an unused token a claim hands out exactly its selection, each job under a new lease and otherwise as it
      was, and touches no other job. */
  lemma ClaimLeasesSelection(db: Db, channel: string, now: int, limit: nat, leaseSecs: int, token: string, picked: seq<string>)
    requires IsDueSelection(db.jobs, channel, now, limit, picked) && TokenUnused(db.jobs, channel, token)
    ensures var (db', claimed) := ClaimStep(db, channel, now, leaseSecs, token, picked);
            && claimed.Keys == Rows(picked) && |claimed| == |picked|
            && (forall id :: id in claimed ==> claimed[id] == Leased(token, now + Max(leaseSecs, 1))(db.jobs[id]))
            && db'.jobs.Keys == db.jobs.Keys
            && (forall id :: id in db.jobs ==> db'.jobs[id] == if id in claimed then claimed[id] else db.jobs[id])
  {
    var (db', claimed) := ClaimStep(db, channel, now, leaseSecs, token, picked);
    ClaimedRowsAre(db.jobs, channel, now, limit, picked);
    DistinctSize(picked);
    assert claimed.Keys == Rows(picked);
    assert |claimed| == |claimed.Keys|;
  }

  /** The claim returns min(max(limit, 1), due) jobs, `due` being the number the statistics report at that time;
      that many fewer are due afterwards, and no job left behind was due earlier. */
  lemma ClaimTakesEarliestDue(db: Db, channel: string, now: int, limit: nat, leaseSecs: int, token: string, picked: seq<string>)
    requires IsDueSelection(db.jobs, channel, now, limit, picked) && TokenUnused(db.jobs, channel, token)
    ensures var (db', claimed) := ClaimStep(db, channel, now, leaseSecs, token, picked);
            var due := StatsOf(db.jobs, channel, now).due;
            && |claimed| == Min(Max(limit, 1), due)
            && StatsOf(db'.jobs, channel, now).due == due - |claimed|
            && (forall id, left :: id in claimed && left in Due(db.jobs, channel, now) && left !in claimed ==>
                  db.jobs[id].nextRunAt.value <= db.jobs[left].nextRunAt.value)
  {
    var (db', claimed) := ClaimStep(db, channel, now, leaseSecs, token, picked);
    ClaimLeasesSelection(db, channel, now, limit, leaseSecs, token, picked);
    ClaimedRowsAre(db.jobs, channel, now, limit, picked);
    DistinctSize(picked);
    var due := Due(db.jobs, channel, now);
    assert Due(db'.jobs, channel, now) == due - Rows(picked);
    assert due == (due - Rows(picked)) + Rows(picked);
  }

  lemma FourParts<T>(all: set<T>, a: set<T>, b: set<T>, c: set<T>, d: set<T>)
    requires a !! b && (a + b) !! c && (a + b + c) !! d && all == a + b + c + d
    ensures |all| == |a| + |b| + |c| + |d|
  {
  }

  lemma ChannelSplitsByStatus(jobs: Jobs, channel: string)
    ensures InChannel(jobs, channel) == WithStatus(jobs, channel, Active) + WithStatus(jobs, channel, Paused)
                                        + WithStatus(jobs, channel, Completed) + WithStatus(jobs, channel, Canceled)
  {
    forall id
      ensures id in InChannel(jobs, channel) <==>
                id in WithStatus(jobs, channel, Active) || id in WithStatus(jobs, channel, Paused)
                || id in WithStatus(jobs, channel, Completed) || id in WithStatus(jobs, channel, Canceled)
    {
      if id in InChannel(jobs, channel) {
        assert id in WithStatus(jobs, channel, jobs[id].status);
      }
    }
  }

  /** The four status counts always add up to the total, and only active jobs are due. */
  lemma StatusCountsAddUp(jobs: Jobs, channel: string, now: int)
    ensures var stats := StatsOf(jobs, channel, now);
            stats.active + stats.paused + stats.completed + stats.canceled == stats.total
    ensures Due(jobs, channel, now) <= WithStatus(jobs, channel, Active)
  {
    ChannelSplitsByStatus(jobs, channel);
    FourParts(InChannel(jobs, channel), WithStatus(jobs, channel, Active), WithStatus(jobs, channel, Paused),
              WithStatus(jobs, channel, Completed), WithStatus(jobs, channel, Canceled));
  }
}
