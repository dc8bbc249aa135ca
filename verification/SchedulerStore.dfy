/**
 The durable scheduler tables (src/memory.rs): jobs under leases and the log of
 their runs. Every transaction is one step.
 */
module SchedulerStore {
  import opened Basics
  import opened Text

  datatype Status = Active | Paused | Completed | Canceled

  /** The columns of a job that the modelled statements read or write. */
  datatype Job = Job(
    channel: string, chatId: int, ownerUserId: int, status: Status,
    nextRunAt: Option<int>, lastRunAt: Option<int>, lastError: Option<string>,
    runCount: nat, failureStreak: nat, maxRuns: Option<int>,
    leaseToken: Option<string>, leaseUntil: Option<int>)

  datatype RunRow = RunRow(
    jobId: string, channel: string, chatId: int, startedAt: int, finishedAt: int, ok: bool, error: Option<string>)

  type Jobs = map<string, Job>

  datatype Db = Db(jobs: Jobs, runs: seq<RunRow>)

  const EMPTY := Db(map[], [])

  datatype NewJob = NewJob(
    jobId: string, channel: string, chatId: int, ownerUserId: int, status: Status,
    nextRunAt: Option<int>, maxRuns: Option<int>)

  /** What a worker reports: success, perhaps the last run; or failure, perhaps pausing the job. */
  datatype Report = Success(markCompleted: bool) | Failure(pauseJob: bool, error: string)

  datatype Commit = Commit(
    channel: string, chatId: int, jobId: string, token: string, startedAt: int, finishedAt: int,
    nextRunAt: Option<int>, report: Report)

  // ---- SQL: rows that match, rows updated ------------------------------------------------------

  function Update(jobs: Jobs, rows: set<string>, f: Job -> Job): Jobs {
    map id | id in jobs :: if id in rows then f(jobs[id]) else jobs[id]
  }

  // ---- create ----------------------------------------------------------------------------------

  function Row(job: NewJob): Job {
    Job(job.channel, job.chatId, job.ownerUserId, job.status, job.nextRunAt, None, None, 0, 0, job.maxRuns, None, None)
  }

  /** The job id is the primary key: inserting it twice is an error. */
  function CreateStep(db: Db, job: NewJob): (Db, bool) {
    if job.jobId in db.jobs then (db, false) else (db.(jobs := db.jobs[job.jobId := Row(job)]), true)
  }

  // ---- status change ---------------------------------------------------------------------------

  function StatusRows(jobs: Jobs, channel: string, chatId: int, owner: int, jobId: string): set<string> {
    set id | id in jobs && jobs[id].channel == channel && jobs[id].chatId == chatId && jobs[id].ownerUserId == owner
             && id == jobId && jobs[id].status != Completed && jobs[id].status != Canceled
  }

  function Released(status: Status): Job -> Job {
    (j: Job) => j.(status := status, leaseToken := None, leaseUntil := None)
  }

  function SetStatusStep(db: Db, channel: string, chatId: int, owner: int, jobId: string, status: Status): (Db, bool) {
    var rows := StatusRows(db.jobs, channel, chatId, owner, jobId);
    (db.(jobs := Update(db.jobs, rows, Released(status))), rows != {})
  }

  // ---- claim -----------------------------------------------------------------------------------

  predicate LeaseFree(job: Job, now: int) {
    job.leaseUntil.None? || job.leaseUntil.value <= now
  }

  predicate IsDue(job: Job, channel: string, now: int) {
    job.channel == channel && job.status == Active && job.nextRunAt.Some? && job.nextRunAt.value <= now && LeaseFree(job, now)
  }

  function Due(jobs: Jobs, channel: string, now: int): set<string> {
    set id | id in jobs && IsDue(jobs[id], channel, now)
  }

  function Rows(picked: seq<string>): set<string> {
    set id | id in picked
  }

  /** What `ORDER BY next_run_at_unix ASC LIMIT` may return: due rows, earliest first, ties in any order. */
  ghost predicate IsDueSelection(jobs: Jobs, channel: string, now: int, limit: nat, picked: seq<string>) {
    && (forall i, j :: 0 <= i < j < |picked| ==> picked[i] != picked[j])
    && (forall i :: 0 <= i < |picked| ==> picked[i] in Due(jobs, channel, now))
    && |picked| == Min(Max(limit, 1), |Due(jobs, channel, now)|)
    && (forall i, j :: 0 <= i < j < |picked| ==> jobs[picked[i]].nextRunAt.value <= jobs[picked[j]].nextRunAt.value)
    && (forall i, id :: 0 <= i < |picked| && id in Due(jobs, channel, now) && id !in picked ==>
          jobs[picked[i]].nextRunAt.value <= jobs[id].nextRunAt.value)
  }

  function ClaimRows(jobs: Jobs, channel: string, now: int, picked: seq<string>): set<string> {
    set id | id in jobs && jobs[id].channel == channel && jobs[id].status == Active && id in picked && LeaseFree(jobs[id], now)
  }

  function Leased(token: string, until: int): Job -> Job {
    (j: Job) => j.(leaseToken := Some(token), leaseUntil := Some(until))
  }

  function Holding(jobs: Jobs, channel: string, token: string): Jobs {
    map id | id in jobs && jobs[id].channel == channel && jobs[id].leaseToken == Some(token) :: jobs[id]
  }

  /** The tables after a claim of the rows picked, and the rows handed to the worker. */
  function ClaimStep(db: Db, channel: string, now: int, leaseSecs: int, token: string, picked: seq<string>): (Db, Jobs) {
    if picked == [] then (db, map[])
    else
      var jobs := Update(db.jobs, ClaimRows(db.jobs, channel, now, picked), Leased(token, now + Max(leaseSecs, 1)));
      (db.(jobs := jobs), Holding(jobs, channel, token))
  }

  // ---- complete and fail -----------------------------------------------------------------------

  function CommitRows(jobs: Jobs, c: Commit): set<string> {
    set id | id in jobs && jobs[id].channel == c.channel && jobs[id].chatId == c.chatId && id == c.jobId
             && jobs[id].leaseToken == Some(c.token)
  }

  function RunOf(c: Commit): RunRow {
    RunRow(c.jobId, c.channel, c.chatId, c.startedAt, c.finishedAt, c.report.Success?,
           if c.report.Success? then None else Some(c.report.error))
  }

  function Finished(c: Commit): Job -> Job {
    (j: Job) => match c.report
         case Success(markCompleted) =>
           j.(status := if markCompleted then Completed else Active, nextRunAt := c.nextRunAt,
              lastRunAt := Some(c.finishedAt), lastError := None, runCount := j.runCount + 1, failureStreak := 0,
              leaseToken := None, leaseUntil := None)
         case Failure(pauseJob, error) =>
           j.(status := if pauseJob then Paused else Active, nextRunAt := c.nextRunAt,
              lastRunAt := Some(c.finishedAt), lastError := Some(error), runCount := j.runCount + 1,
              failureStreak := j.failureStreak + 1, leaseToken := None, leaseUntil := None)
  }

  /** The run is inserted first; when the fenced update then touches no row, the transaction is rolled back. */
  function CommitStep(db: Db, c: Commit): (Db, bool) {
    var rows := CommitRows(db.jobs, c);
    if rows == {} then (db, false)
    else (Db(Update(db.jobs, rows, Finished(c)), db.runs + [RunOf(c)]), true)
  }

  // ---- statistics ------------------------------------------------------------------------------

  datatype Stats = Stats(total: nat, active: nat, paused: nat, completed: nat, canceled: nat, due: nat)

  function InChannel(jobs: Jobs, channel: string): set<string> {
    set id | id in jobs && jobs[id].channel == channel
  }

  function WithStatus(jobs: Jobs, channel: string, status: Status): set<string> {
    set id | id in jobs && jobs[id].channel == channel && jobs[id].status == status
  }

  function StatsOf(jobs: Jobs, channel: string, now: int): Stats {
    Stats(|InChannel(jobs, channel)|, |WithStatus(jobs, channel, Active)|, |WithStatus(jobs, channel, Paused)|,
          |WithStatus(jobs, channel, Completed)|, |WithStatus(jobs, channel, Canceled)|, |Due(jobs, channel, now)|)
  }

  function One(counts: bool): nat {
    if counts then 1 else 0
  }

  /** One more row of the channel in the sums of the query. */
  function AddRow(stats: Stats, job: Job, now: int): Stats {
    Stats(
      stats.total + 1,
      stats.active + One(job.status == Active),
      stats.paused + One(job.status == Paused),
      stats.completed + One(job.status == Completed),
      stats.canceled + One(job.status == Canceled),
      stats.due + One(job.status == Active && job.nextRunAt.Some? && job.nextRunAt.value <= now
                      && (job.leaseUntil.None? || job.leaseUntil.value <= now)))
  }

  // ---- The statements, column by column -----------------------------------------------------------

  lemma UpdateNone(jobs: Jobs, f: Job -> Job)
    ensures Update(jobs, {}, f) == jobs
  {
  }

  lemma UpdateOne(jobs: Jobs, id: string, f: Job -> Job)
    requires id in jobs
    ensures Update(jobs, {id}, f) == jobs[id := f(jobs[id])]
  {
  }

  /** A new row: the given columns, no run, no failure, no lease. */
  lemma CreateIs(db: Db, job: NewJob)
    ensures var (db', created) := CreateStep(db, job);
            && (created <==> job.jobId !in db.jobs) && db'.runs == db.runs
            && db'.jobs == if !created then db.jobs
                           else db.jobs[job.jobId := Job(job.channel, job.chatId, job.ownerUserId, job.status, job.nextRunAt,
                                                         None, None, 0, 0, job.maxRuns, None, None)]
  {
  }

  /** Whose row a status change may touch: the owner's, in that channel and chat, unless it is terminal. */
  predicate MayChange(jobs: Jobs, channel: string, chatId: int, owner: int, jobId: string) {
    && jobId in jobs && jobs[jobId].channel == channel && jobs[jobId].chatId == chatId && jobs[jobId].ownerUserId == owner
    && jobs[jobId].status != Completed && jobs[jobId].status != Canceled
  }

  /** A status change changes that row, in the status and the two lease columns, or nothing at all. */
  lemma StatusChangeIs(db: Db, channel: string, chatId: int, owner: int, jobId: string, status: Status)
    ensures var (db', updated) := SetStatusStep(db, channel, chatId, owner, jobId, status);
            && (updated <==> MayChange(db.jobs, channel, chatId, owner, jobId)) && db'.runs == db.runs
            && db'.jobs == if !updated then db.jobs
                           else db.jobs[jobId := db.jobs[jobId].(status := status, leaseToken := None, leaseUntil := None)]
  {
    var rows := StatusRows(db.jobs, channel, chatId, owner, jobId);
    if MayChange(db.jobs, channel, chatId, owner, jobId) {
      assert jobId in rows;
      assert rows == {jobId};
      UpdateOne(db.jobs, jobId, Released(status));
    } else {
      assert rows == {};
      UpdateNone(db.jobs, Released(status));
    }
  }

  lemma DueIs(jobs: Jobs, channel: string, now: int, id: string)
    ensures id in Due(jobs, channel, now) <==>
              && id in jobs && jobs[id].channel == channel && jobs[id].status == Active
              && jobs[id].nextRunAt.Some? && jobs[id].nextRunAt.value <= now
              && (jobs[id].leaseUntil.None? || jobs[id].leaseUntil.value <= now)
  {
  }

  /** A claim changes the selected rows, in the two lease columns, and hands out the channel's rows with its token. */
  lemma ClaimIs(db: Db, channel: string, now: int, limit: nat, leaseSecs: int, token: string, picked: seq<string>)
    requires IsDueSelection(db.jobs, channel, now, limit, picked)
    ensures var (db', claimed) := ClaimStep(db, channel, now, leaseSecs, token, picked);
            && db'.runs == db.runs && db'.jobs.Keys == db.jobs.Keys
            && (forall id :: id in db.jobs ==>
                  db'.jobs[id] == if id in picked
                                  then db.jobs[id].(leaseToken := Some(token), leaseUntil := Some(now + (if leaseSecs < 1 then 1 else leaseSecs)))
                                  else db.jobs[id])
            && (picked == [] ==> claimed == map[])
            && (picked != [] ==> forall id :: id in claimed <==>
                  id in db'.jobs && db'.jobs[id].channel == channel && db'.jobs[id].leaseToken == Some(token))
            && (forall id :: id in claimed ==> id in db'.jobs && claimed[id] == db'.jobs[id])
  {
    var rows := ClaimRows(db.jobs, channel, now, picked);
    forall id | id in db.jobs
      ensures id in rows <==> id in picked
    {
      if id in picked {
        DueIs(db.jobs, channel, now, id);
        var i :| 0 <= i < |picked| && picked[i] == id;
      }
    }
  }

  /** What the outcome of a run leaves in its row. */
  function RowAfter(job: Job, c: Commit): Job {
    match c.report
    case Success(markCompleted) =>
      Job(job.channel, job.chatId, job.ownerUserId, if markCompleted then Completed else Active,
          c.nextRunAt, Some(c.finishedAt), None, job.runCount + 1, 0, job.maxRuns, None, None)
    case Failure(pauseJob, error) =>
      Job(job.channel, job.chatId, job.ownerUserId, if pauseJob then Paused else Active,
          c.nextRunAt, Some(c.finishedAt), Some(error), job.runCount + 1, job.failureStreak + 1, job.maxRuns, None, None)
  }

  predicate IsHeldBy(jobs: Jobs, c: Commit) {
    && c.jobId in jobs && jobs[c.jobId].channel == c.channel && jobs[c.jobId].chatId == c.chatId
    && jobs[c.jobId].leaseToken == Some(c.token)
  }

  /** A commit changes the row that its token holds and adds its run, or does nothing at all. */
  lemma CommitIs(db: Db, c: Commit)
    ensures var (db', committed) := CommitStep(db, c);
            && (committed <==> IsHeldBy(db.jobs, c))
            && db'.jobs == (if committed then db.jobs[c.jobId := RowAfter(db.jobs[c.jobId], c)] else db.jobs)
            && db'.runs == db.runs + (if !committed then []
                                      else [RunRow(c.jobId, c.channel, c.chatId, c.startedAt, c.finishedAt, c.report.Success?,
                                                   if c.report.Success? then None else Some(c.report.error))])
  {
    var rows := CommitRows(db.jobs, c);
    assert db.runs + [] == db.runs;
    if IsHeldBy(db.jobs, c) {
      assert c.jobId in rows;
      assert rows == {c.jobId};
      UpdateOne(db.jobs, c.jobId, Finished(c));
    } else {
      assert rows == {};
    }
  }

  // ---- The store -------------------------------------------------------------------------------

  class Store {
    var jobs: Jobs
    var runs: seq<RunRow>

    ghost function Tables(): Db
      reads this
    {
      Db(jobs, runs)
    }

    constructor ()
      ensures Tables() == EMPTY
    {
      jobs, runs := map[], [];
    }

    method CreateJob(job: NewJob) returns (created: bool)
      modifies this
      ensures (Tables(), created) == CreateStep(old(Tables()), job)
      ensures (created <==> job.jobId !in old(jobs)) && runs == old(runs)
      ensures jobs == if !created then old(jobs)
                      else old(jobs)[job.jobId := Job(job.channel, job.chatId, job.ownerUserId, job.status, job.nextRunAt,
                                                      None, None, 0, 0, job.maxRuns, None, None)]
    {
      if job.jobId in jobs {
        return false;
      }
      jobs := jobs[job.jobId := Row(job)];
      created := true;
    }

    method UpdateJobStatus(channel: string, chatId: int, owner: int, jobId: string, status: Status) returns (updated: bool)
      modifies this
      ensures (Tables(), updated) == SetStatusStep(old(Tables()), channel, chatId, owner, jobId, status)
      ensures (updated <==> MayChange(old(jobs), channel, chatId, owner, jobId)) && runs == old(runs)
      ensures jobs == if !updated then old(jobs)
                      else old(jobs)[jobId := old(jobs)[jobId].(status := status, leaseToken := None, leaseUntil := None)]
    {
      StatusChangeIs(Tables(), channel, chatId, owner, jobId, status);
      var rows := StatusRows(jobs, channel, chatId, owner, jobId);
      jobs := Update(jobs, rows, Released(status));
      updated := rows != {};
    }

    /** The `SELECT` of a claim: the earliest remaining row, again and again. */
    method SelectDue(channel: string, now: int, limit: nat) returns (picked: seq<string>)
      ensures IsDueSelection(jobs, channel, now, limit, picked)
      ensures forall i :: 0 <= i < |picked| ==>
                && picked[i] in jobs && jobs[picked[i]].channel == channel && jobs[picked[i]].status == Active
                && jobs[picked[i]].nextRunAt.Some? && jobs[picked[i]].nextRunAt.value <= now
                && (jobs[picked[i]].leaseUntil.None? || jobs[picked[i]].leaseUntil.value <= now)
    {
      picked := [];
      var rest := Due(jobs, channel, now);
      SelectionStart(jobs, channel, now);
      while rest != {} && |picked| < Max(limit, 1)
        invariant rest <= Due(jobs, channel, now)
        invariant IsSelecting(jobs, channel, now, picked, rest)
        invariant |picked| <= Max(limit, 1)
        decreases |rest|
      {
        EarliestExists(jobs, rest);
        var id :| id in rest && forall other :: other in rest ==> jobs[id].nextRunAt.value <= jobs[other].nextRunAt.value;
        SelectionGrows(jobs, channel, now, picked, rest, id);
        picked := picked + [id];
        rest := rest - {id};
      }
      SelectionDone(jobs, channel, now, limit, picked, rest);
    }

    method ClaimDueJobs(channel: string, now: int, limit: nat, leaseSecs: int, token: string)
      returns (claimed: Jobs, ghost picked: seq<string>)
      modifies this
      ensures IsDueSelection(old(jobs), channel, now, limit, picked)
      ensures (Tables(), claimed) == ClaimStep(old(Tables()), channel, now, leaseSecs, token, picked)
      ensures runs == old(runs) && jobs.Keys == old(jobs).Keys
      ensures forall id :: id in jobs ==>
                jobs[id] == if id in picked
                            then old(jobs)[id].(leaseToken := Some(token), leaseUntil := Some(now + (if leaseSecs < 1 then 1 else leaseSecs)))
                            else old(jobs)[id]
      ensures picked != [] ==> forall id :: id in claimed <==> id in jobs && jobs[id].channel == channel && jobs[id].leaseToken == Some(token)
    {
      var ids := SelectDue(channel, now, limit);
      picked := ids;
      ClaimIs(Tables(), channel, now, limit, leaseSecs, token, ids);
      if ids == [] {
        return map[], picked;
      }
      var leaseUntil := now + Max(leaseSecs, 1);
      jobs := Update(jobs, ClaimRows(jobs, channel, now, ids), Leased(token, leaseUntil));
      claimed := Holding(jobs, channel, token);
    }

    method CompleteJobRun(channel: string, chatId: int, jobId: string, token: string, startedAt: int, finishedAt: int,
                          nextRunAt: Option<int>, markCompleted: bool) returns (committed: bool)
      modifies this
      ensures (Tables(), committed) == CommitStep(old(Tables()), Commit(channel, chatId, jobId, token, startedAt, finishedAt,
                                                                        nextRunAt, Success(markCompleted)))
      ensures committed <==> jobId in old(jobs) && old(jobs)[jobId].channel == channel && old(jobs)[jobId].chatId == chatId
                             && old(jobs)[jobId].leaseToken == Some(token)
      ensures jobs == if !committed then old(jobs)
                      else old(jobs)[jobId := old(jobs)[jobId].(
                                       status := if markCompleted then Completed else Active, nextRunAt := nextRunAt,
                                       lastRunAt := Some(finishedAt), lastError := None, runCount := old(jobs)[jobId].runCount + 1,
                                       failureStreak := 0, leaseToken := None, leaseUntil := None)]
      ensures runs == old(runs) + if committed then [RunRow(jobId, channel, chatId, startedAt, finishedAt, true, None)] else []
    {
      CommitIs(Tables(), Commit(channel, chatId, jobId, token, startedAt, finishedAt, nextRunAt, Success(markCompleted)));
      var c := Commit(channel, chatId, jobId, token, startedAt, finishedAt, nextRunAt, Success(markCompleted));
      committed := CommitRun(c);
    }

    method FailJobRun(channel: string, chatId: int, jobId: string, token: string, startedAt: int, finishedAt: int,
                      nextRunAt: Option<int>, pauseJob: bool, error: string) returns (committed: bool)
      modifies this
      ensures (Tables(), committed) == CommitStep(old(Tables()), Commit(channel, chatId, jobId, token, startedAt, finishedAt,
                                                                        nextRunAt, Failure(pauseJob, error)))
      ensures committed <==> jobId in old(jobs) && old(jobs)[jobId].channel == channel && old(jobs)[jobId].chatId == chatId
                             && old(jobs)[jobId].leaseToken == Some(token)
      ensures jobs == if !committed then old(jobs)
                      else old(jobs)[jobId := old(jobs)[jobId].(
                                       status := if pauseJob then Paused else Active, nextRunAt := nextRunAt,
                                       lastRunAt := Some(finishedAt), lastError := Some(error), runCount := old(jobs)[jobId].runCount + 1,
                                       failureStreak := old(jobs)[jobId].failureStreak + 1, leaseToken := None, leaseUntil := None)]
      ensures runs == old(runs) + if committed then [RunRow(jobId, channel, chatId, startedAt, finishedAt, false, Some(error))] else []
    {
      CommitIs(Tables(), Commit(channel, chatId, jobId, token, startedAt, finishedAt, nextRunAt, Failure(pauseJob, error)));
      var c := Commit(channel, chatId, jobId, token, startedAt, finishedAt, nextRunAt, Failure(pauseJob, error));
      committed := CommitRun(c);
    }

    /** Both transactions insert the run into their own copy of the log and publish it only with the update. */
    method CommitRun(c: Commit) returns (committed: bool)
      modifies this
      ensures (Tables(), committed) == CommitStep(old(Tables()), c)
    {
      var txRuns := runs + [RunOf(c)];
      var rows := CommitRows(jobs, c);
      if rows == {} {
        return false;
      }
      runs := txRuns;
      jobs := Update(jobs, rows, Finished(c));
      committed := true;
    }

    method QueryStats(channel: string, now: int) returns (stats: Stats)
      ensures stats == StatsOf(jobs, channel, now)
    {
      var table := jobs;
      stats := Stats(0, 0, 0, 0, 0, 0);
      NoneCounted(table, channel, now);
      var rest := table.Keys;
      while rest != {}
        invariant rest <= table.Keys
        invariant AreCounted(stats, table, channel, now, rest)
        decreases rest
      {
        var id :| id in rest;
        CountsRow(stats, table, channel, now, rest, id);
        if table[id].channel == channel {
          stats := AddRow(stats, table[id], now);
        }
        rest := rest - {id};
      }
    }
  }

  // ---- Counting rows -----------------------------------------------------------------------------

  lemma CountsOne(rows: set<string>, rest: set<string>, id: string)
    requires id in rest
    ensures |rows - (rest - {id})| == |rows - rest| + One(id in rows)
  {
    assert rows - (rest - {id}) == if id in rows then (rows - rest) + {id} else rows - rest;
  }

  function Sizes(all: set<string>, a: set<string>, p: set<string>, co: set<string>, ca: set<string>, due: set<string>,
                 rest: set<string>): Stats
  {
    Stats(|all - rest|, |a - rest|, |p - rest|, |co - rest|, |ca - rest|, |due - rest|)
  }

  /** The statistics without the rows that are still to be seen. */
  function StatsWithout(jobs: Jobs, channel: string, now: int, rest: set<string>): Stats {
    Sizes(InChannel(jobs, channel), WithStatus(jobs, channel, Active), WithStatus(jobs, channel, Paused),
          WithStatus(jobs, channel, Completed), WithStatus(jobs, channel, Canceled), Due(jobs, channel, now), rest)
  }

  ghost predicate AreCounted(stats: Stats, jobs: Jobs, channel: string, now: int, rest: set<string>) {
    if rest == {} then stats == StatsOf(jobs, channel, now) else stats == StatsWithout(jobs, channel, now, rest)
  }

  lemma WithoutNone(jobs: Jobs, channel: string, now: int)
    ensures StatsWithout(jobs, channel, now, {}) == StatsOf(jobs, channel, now)
  {
    assert InChannel(jobs, channel) - {} == InChannel(jobs, channel) && Due(jobs, channel, now) - {} == Due(jobs, channel, now);
    assert forall status :: WithStatus(jobs, channel, status) - {} == WithStatus(jobs, channel, status);
  }

  lemma NoneCounted(jobs: Jobs, channel: string, now: int)
    ensures AreCounted(Stats(0, 0, 0, 0, 0, 0), jobs, channel, now, jobs.Keys)
  {
    assert InChannel(jobs, channel) - jobs.Keys == {} && Due(jobs, channel, now) - jobs.Keys == {};
    assert forall status :: WithStatus(jobs, channel, status) - jobs.Keys == {};
    WithoutNone(jobs, channel, now);
  }

  lemma SizesOneLess(all: set<string>, a: set<string>, p: set<string>, co: set<string>, ca: set<string>, due: set<string>,
                     rest: set<string>, id: string, job: Job, channel: string, now: int)
    requires id in rest
    requires (id in all <==> job.channel == channel) && (id in due <==> IsDue(job, channel, now))
    requires (id in a <==> job.channel == channel && job.status == Active) && (id in p <==> job.channel == channel && job.status == Paused)
    requires id in co <==> job.channel == channel && job.status == Completed
    requires id in ca <==> job.channel == channel && job.status == Canceled
    ensures var before := Sizes(all, a, p, co, ca, due, rest);
            Sizes(all, a, p, co, ca, due, rest - {id}) == if job.channel == channel then AddRow(before, job, now) else before
  {
    CountsOne(all, rest, id);
    CountsOne(a, rest, id);
    CountsOne(p, rest, id);
    CountsOne(co, rest, id);
    CountsOne(ca, rest, id);
    CountsOne(due, rest, id);
  }

  lemma WithoutOneLess(jobs: Jobs, channel: string, now: int, rest: set<string>, id: string)
    requires id in jobs && id in rest
    ensures StatsWithout(jobs, channel, now, rest - {id})
         == if jobs[id].channel == channel then AddRow(StatsWithout(jobs, channel, now, rest), jobs[id], now)
            else StatsWithout(jobs, channel, now, rest)
  {
    SizesOneLess(InChannel(jobs, channel), WithStatus(jobs, channel, Active), WithStatus(jobs, channel, Paused),
                 WithStatus(jobs, channel, Completed), WithStatus(jobs, channel, Canceled), Due(jobs, channel, now),
                 rest, id, jobs[id], channel, now);
  }

  lemma CountsRow(stats: Stats, jobs: Jobs, channel: string, now: int, rest: set<string>, id: string)
    requires AreCounted(stats, jobs, channel, now, rest) && id in jobs && id in rest
    ensures AreCounted(if jobs[id].channel == channel then AddRow(stats, jobs[id], now) else stats, jobs, channel, now, rest - {id})
  {
    WithoutOneLess(jobs, channel, now, rest, id);
    if rest - {id} == {} {
      WithoutNone(jobs, channel, now);
    }
  }

  // ---- Selecting the earliest rows ---------------------------------------------------------------

  lemma {:induction false} EarliestExists(jobs: Jobs, rows: set<string>)
    requires rows != {} && forall id :: id in rows ==> id in jobs && jobs[id].nextRunAt.Some?
    ensures exists id :: id in rows && forall other :: other in rows ==> jobs[id].nextRunAt.value <= jobs[other].nextRunAt.value
    decreases |rows|
  {
    var id :| id in rows;
    var rest := rows - {id};
    if rest != {} {
      EarliestExists(jobs, rest);
      var best :| best in rest && forall other :: other in rest ==> jobs[best].nextRunAt.value <= jobs[other].nextRunAt.value;
      var least := if jobs[id].nextRunAt.value <= jobs[best].nextRunAt.value then id else best;
      assert forall other :: other in rows ==> other == id || other in rest;
      assert forall other :: other in rows ==> jobs[least].nextRunAt.value <= jobs[other].nextRunAt.value;
    } else {
      assert rows == {id};
    }
  }

  ghost predicate IsSelecting(jobs: Jobs, channel: string, now: int, picked: seq<string>, rest: set<string>) {
    var due := Due(jobs, channel, now);
    && rest <= due
    && (forall i, j :: 0 <= i < j < |picked| ==> picked[i] != picked[j])
    && (forall i :: 0 <= i < |picked| ==> picked[i] in due && picked[i] !in rest)
    && (forall id :: id in due ==> id in rest || id in picked)
    && |picked| + |rest| == |due|
    && (forall i, j :: 0 <= i < j < |picked| ==> jobs[picked[i]].nextRunAt.value <= jobs[picked[j]].nextRunAt.value)
    && (forall i, id :: 0 <= i < |picked| && id in rest ==> jobs[picked[i]].nextRunAt.value <= jobs[id].nextRunAt.value)
  }

  lemma SelectionStart(jobs: Jobs, channel: string, now: int)
    ensures IsSelecting(jobs, channel, now, [], Due(jobs, channel, now))
  {
  }

  lemma SelectionGrows(jobs: Jobs, channel: string, now: int, picked: seq<string>, rest: set<string>, id: string)
    requires IsSelecting(jobs, channel, now, picked, rest) && id in rest
    requires forall other :: other in rest ==> jobs[id].nextRunAt.value <= jobs[other].nextRunAt.value
    ensures IsSelecting(jobs, channel, now, picked + [id], rest - {id})
  {
    var grown := picked + [id];
    assert forall i :: 0 <= i < |grown| ==> grown[i] == if i < |picked| then picked[i] else id;
    forall other | other in Due(jobs, channel, now)
      ensures other in rest - {id} || other in grown
    {
      if other == id {
        assert grown[|picked|] == id;
      }
    }
  }

  lemma SelectionDone(jobs: Jobs, channel: string, now: int, limit: nat, picked: seq<string>, rest: set<string>)
    requires IsSelecting(jobs, channel, now, picked, rest)
    requires |picked| <= Max(limit, 1) && (rest == {} || |picked| == Max(limit, 1))
    ensures IsDueSelection(jobs, channel, now, limit, picked)
  {
    assert rest == {} ==> |rest| == 0;
  }
}
