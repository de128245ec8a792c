/**
 One sweep over stalled job attempts (src/worker/stall-detector.ts, `sweepStalledRuns`). The database's
 answers are parameters: what each read and each procedure call returned, whatever happened in between.
 */
module StallSweep {
  import opened Common
  import opened PagedLoads
  import opened AttemptRecovery

  const FRESH_WORKER_HEARTBEAT_MS: int := 60_000
  const DEFAULT_MAX_RETRIES: nat := 3

  /** `Date.parse`: `None` is not a number. */
  type Stamp = Option<int>

  datatype Job = Job(id: string, attempt: nat, workspace: string, startedAt: Option<Stamp>, createdAt: Stamp)

  datatype Status = RunQueued | RunStarted | RunRunning | RunSuccess | RunError | RunCanceled

  /** Everything that identifies the sandbox connection. */
  datatype Connection = Connection(provider: Option<string>, revision: Option<string>, team: Option<string>,
                                   project: Option<string>)

  datatype RecoveryRun = RecoveryRun(id: string, workspace: string, attempt: Option<nat>, lastActivityAt: Option<Stamp>,
                                     createdAt: Stamp, status: Status, sandbox: Option<string>, connection: Connection,
                                     recoveryRequired: bool)

  datatype Heartbeat = Heartbeat(at: int, activeJobs: Option<seq<string>>)

  datatype Publication = NoPublication | LookupError | Publication(pending: bool, deadline: Stamp)

  datatype Rpc = RpcError | Replied(reply: Reply)

  /** The answers of the database and of the sandbox provider to the calls of one sweep. */
  datatype Answers = Answers(
    publication: RecoveryRun -> Publication,
    failing: Job -> Rpc,
    current: RecoveryRun -> Option<Owned<RecoveryRun>>,   // the re-read row, `None` on an error or no row
    stops: RecoveryRun -> bool)

  datatype Settings = Settings(now: int, defaultTimeout: int, timeouts: map<string, int>, maxRetries: map<string, nat>)

  /** A call that changes the database. */
  datatype Call =
    | Complete(job: string, attempt: nat, run: string)
    | Fail(job: string, attempt: nat, runId: Option<string>, maxRetries: nat)

  /** The result lists of the sweep, and the calls it made. */
  datatype Sweep = Sweep(calls: seq<Call>, stalledRuns: seq<string>, stalledJobs: seq<string>, stopped: seq<string>,
                         retried: seq<string>)

  const NOTHING := Sweep([], [], [], [], [])

  predicate IsActive(run: RecoveryRun) {
    run.status in {RunQueued, RunStarted, RunRunning}
  }

  // ----- what is decided about one job -----

  datatype Decision = Skip | Acknowledge(published: RecoveryRun) | Retire(run: Option<RecoveryRun>)

  /** `run` is the first run of exactly this attempt. */
  ghost predicate IsOwned(runs: seq<RecoveryRun>, attempt: nat, run: RecoveryRun) {
    exists i :: 0 <= i < |runs| && runs[i] == run && run.attempt == Some(attempt)
      && forall j :: 0 <= j < i ==> runs[j].attempt != Some(attempt)
  }

  ghost predicate NoneOwned(runs: seq<RecoveryRun>, attempt: nat) {
    forall run :: run in runs ==> run.attempt != Some(attempt)
  }

  /** `find`: the first run of exactly this attempt. */
  function OwnedRun(runs: seq<RecoveryRun>, attempt: nat): (r: Option<RecoveryRun>)
    ensures forall run :: IsOwned(runs, attempt, run) <==> r == Some(run)
    ensures r.None? <==> NoneOwned(runs, attempt)
  {
    if runs == [] then None
    else if runs[0].attempt == Some(attempt) then
      assert IsOwned(runs, attempt, runs[0]);
      Some(runs[0])
    else
      var r := OwnedRun(runs[1..], attempt);
      assert forall run :: IsOwned(runs, attempt, run) <==> IsOwned(runs[1..], attempt, run) by {
        OwnedBehind(runs, attempt);
      }
      r
  }

  lemma OwnedBehind(runs: seq<RecoveryRun>, attempt: nat)
    requires runs != [] && runs[0].attempt != Some(attempt)
    ensures forall run :: IsOwned(runs, attempt, run) <==> IsOwned(runs[1..], attempt, run)
    ensures NoneOwned(runs, attempt) <==> NoneOwned(runs[1..], attempt)
  {
    forall run | IsOwned(runs, attempt, run) ensures IsOwned(runs[1..], attempt, run) {
      var i :| 0 <= i < |runs| && runs[i] == run && run.attempt == Some(attempt)
               && forall j :: 0 <= j < i ==> runs[j].attempt != Some(attempt);
      assert runs[1..][i - 1] == run;
    }
    forall run | IsOwned(runs[1..], attempt, run) ensures IsOwned(runs, attempt, run) {
      var i :| 0 <= i < |runs[1..]| && runs[1..][i] == run && run.attempt == Some(attempt)
               && forall j :: 0 <= j < i ==> runs[1..][j].attempt != Some(attempt);
      assert runs[i + 1] == run && forall j :: 1 <= j < i + 1 ==> runs[j] == runs[1..][j - 1];
    }
    assert runs == [runs[0]] + runs[1..];
  }

  function Activity(job: Job, run: Option<RecoveryRun>): Stamp {
    match run
    case Some(r) => if r.lastActivityAt.Some? then r.lastActivityAt.value else r.createdAt
    case None => if job.startedAt.Some? then job.startedAt.value else job.createdAt
  }

  function Timeout(s: Settings, workspace: string): int {
    if workspace in s.timeouts then s.timeouts[workspace] else s.defaultTimeout
  }

  function Retries(s: Settings, workspace: string): nat {
    if workspace in s.maxRetries then s.maxRetries[workspace] else DEFAULT_MAX_RETRIES
  }

  predicate Unexpired(p: Publication, now: int) {
    p.Publication? && p.pending && p.deadline.Some? && p.deadline.value > now
  }

  function Decide(s: Settings, a: Answers, job: Job, runs: seq<RecoveryRun>): Decision {
    var owned := OwnedRun(runs, job.attempt);
    if owned.Some? && owned.value.status == RunSuccess then Acknowledge(owned.value)
    else if owned.Some? && !IsActive(owned.value) then Skip
    else
      var activity := Activity(job, owned);
      if activity.None? || s.now - activity.value < Timeout(s, job.workspace) then Skip
      else if owned.None? then Retire(None)
      else
        var p := a.publication(owned.value);
        if p.LookupError? || Unexpired(p, s.now) then Skip else Retire(owned)
  }

  /** When the attempt was last heard of: its run's activity or creation, without a run its start or creation. */
  ghost predicate HeardOf(job: Job, runs: seq<RecoveryRun>, at: Stamp) {
    || (exists run :: IsOwned(runs, job.attempt, run)
          && (run.lastActivityAt == Some(at) || (run.lastActivityAt == None && run.createdAt == at)))
    || (NoneOwned(runs, job.attempt) && (job.startedAt == Some(at) || (job.startedAt == None && job.createdAt == at)))
  }

  /** Nothing has been heard of the attempt for the time-out of its workspace. */
  ghost predicate Idle(s: Settings, job: Job, runs: seq<RecoveryRun>) {
    exists t: int :: HeardOf(job, runs, Some(t))
      && s.now - t >= if job.workspace in s.timeouts then s.timeouts[job.workspace] else s.defaultTimeout
  }

  /** The run is queued, started or running. */
  ghost predicate Underway(run: RecoveryRun) {
    run.status == RunQueued || run.status == RunStarted || run.status == RunRunning
  }

  /** No publication of the run is under way, as far as could be read. */
  ghost predicate NotPublishing(s: Settings, p: Publication) {
    p == NoPublication
    || (exists pending, deadline :: p == Publication(pending, deadline)
          && (!pending || deadline == None || deadline.value <= s.now))
  }

  /** What has to hold for an attempt to be retired. */
  ghost predicate Stalled(s: Settings, a: Answers, job: Job, runs: seq<RecoveryRun>) {
    && Idle(s, job, runs)
    && forall run :: IsOwned(runs, job.attempt, run) ==> Underway(run) && NotPublishing(s, a.publication(run))
  }

  lemma IdleIff(s: Settings, job: Job, runs: seq<RecoveryRun>)
    ensures var activity := Activity(job, OwnedRun(runs, job.attempt));
      Idle(s, job, runs) <==> activity.Some? && s.now - activity.value >= Timeout(s, job.workspace)
  {
    var owned := OwnedRun(runs, job.attempt);
    var activity := Activity(job, owned);
    forall at ensures HeardOf(job, runs, at) <==> at == activity {
      if owned.Some? {
        assert IsOwned(runs, job.attempt, owned.value);
      }
    }
    if activity.Some? {
      assert HeardOf(job, runs, Some(activity.value));
    }
  }

  lemma NotPublishingIff(s: Settings, p: Publication)
    ensures NotPublishing(s, p) <==> !p.LookupError? && !Unexpired(p, s.now)
  {
  }

  lemma RetiresExactlyTheStalled(s: Settings, a: Answers, job: Job, runs: seq<RecoveryRun>)
    ensures Decide(s, a, job, runs).Retire? <==> Stalled(s, a, job, runs)
    ensures Decide(s, a, job, runs).Retire? ==> Decide(s, a, job, runs).run == OwnedRun(runs, job.attempt)
    ensures forall run ::
              Decide(s, a, job, runs) == Acknowledge(run) <==>
                IsOwned(runs, job.attempt, run) && run.status == RunSuccess
  {
    IdleIff(s, job, runs);
    var owned := OwnedRun(runs, job.attempt);
    if owned.Some? {
      assert IsOwned(runs, job.attempt, owned.value);
      NotPublishingIff(s, a.publication(owned.value));
    }
  }

  // ----- what is done about it -----

  /** `mayStopRetiredRun`: the row as it is now, after the attempt was retired. */
  predicate MayStop(run: Owned<RecoveryRun>, current: Option<Owned<RecoveryRun>>) {
    && current.Some?
    && current.value.row.status == RunError
    && !current.value.row.recoveryRequired
    && current.value.row.attempt == run.row.attempt
    && current.value.owner == run.owner
    && current.value.row.sandbox == run.row.sandbox
    && current.value.row.connection == run.row.connection
  }

  predicate Stops(a: Answers, job: Job, run: RecoveryRun) {
    run.sandbox.Some? && MayStop(Owned(Some(job.id), run), a.current(run)) && a.stops(run)
  }

  /** The sandboxes stopped among `runs`, in order. */
  function StoppedOf(a: Answers, job: Job, runs: seq<RecoveryRun>): seq<string> {
    if runs == [] then []
    else
      var last := runs[|runs| - 1];
      StoppedOf(a, job, runs[..|runs| - 1]) + if Stops(a, job, last) then [last.sandbox.value] else []
  }

  function Ids(runs: seq<RecoveryRun>): seq<string> {
    seq(|runs|, i requires 0 <= i < |runs| => runs[i].id)
  }

  function LegacyActive(runs: seq<RecoveryRun>): seq<RecoveryRun> {
    if runs == [] then []
    else
      var last := runs[|runs| - 1];
      LegacyActive(runs[..|runs| - 1]) + if last.attempt.None? && IsActive(last) then [last] else []
  }

  function ResolvedRuns(owned: Option<RecoveryRun>, runs: seq<RecoveryRun>): seq<RecoveryRun> {
    if owned.Some? then [owned.value] else LegacyActive(runs)
  }

  /** The call that retires a job's attempt. */
  function FailCall(s: Settings, job: Job, runs: seq<RecoveryRun>): Call {
    var owned := OwnedRun(runs, job.attempt);
    Fail(job.id, job.attempt, if owned.Some? then Some(owned.value.id) else None, Retries(s, job.workspace))
  }

  /** The effects of the loop body for one job. */
  function SweepJob(s: Settings, a: Answers, job: Job, runs: seq<RecoveryRun>): Sweep {
    match Decide(s, a, job, runs)
    case Skip => NOTHING
    case Acknowledge(run) => NOTHING.(calls := [Complete(job.id, job.attempt, run.id)])
    case Retire(owned) =>
      var call := FailCall(s, job, runs);
      match a.failing(job)
      case RpcError => NOTHING.(calls := [call])
      case Replied(reply) =>
        if reply !in {Error, Requeued} then NOTHING.(calls := [call])
        else
          var resolved := ResolvedRuns(owned, runs);
          Sweep([call], Ids(resolved), if reply == Error then [job.id] else [], StoppedOf(a, job, resolved),
                if reply == Requeued then [job.id] else [])
  }

  function Join(x: Sweep, y: Sweep): Sweep {
    Sweep(x.calls + y.calls, x.stalledRuns + y.stalledRuns, x.stalledJobs + y.stalledJobs, x.stopped + y.stopped,
          x.retried + y.retried)
  }

  function SweepAll(s: Settings, a: Answers, jobs: seq<Job>, runsOf: Job -> seq<RecoveryRun>): Sweep {
    if jobs == [] then NOTHING
    else
      var last := jobs[|jobs| - 1];
      Join(SweepAll(s, a, jobs[..|jobs| - 1], runsOf), SweepJob(s, a, last, runsOf(last)))
  }

  // ----- choosing the candidates -----

  /** A heartbeat of the last minute lists the job. */
  ghost predicate FreshlyListed(beats: seq<Heartbeat>, now: int, id: string) {
    exists h :: h in beats && now - h.at <= 60_000 && h.activeJobs.Some? && id in h.activeJobs.value
  }

  /** `loadFreshWorkerJobIds`. */
  function FreshJobs(beats: seq<Heartbeat>, now: int): (jobs: set<string>)
    ensures forall id :: id in jobs <==> FreshlyListed(beats, now, id)
  {
    if beats == [] then {}
    else
      var h := beats[0];
      (if h.at >= now - FRESH_WORKER_HEARTBEAT_MS && h.activeJobs.Some? then (set id | id in h.activeJobs.value)
       else {})
      + FreshJobs(beats[1..], now)
  }

  function Candidates(jobs: seq<Job>, listed: set<string>): seq<Job> {
    if jobs == [] then []
    else Candidates(jobs[..|jobs| - 1], listed) + if jobs[|jobs| - 1].id in listed then [] else [jobs[|jobs| - 1]]
  }

  function JobIds(jobs: seq<Job>): (ids: seq<string>)
    ensures IdsDistinct(jobs) ==> Distinct(ids)
  {
    seq(|jobs|, i requires 0 <= i < |jobs| => jobs[i].id)
  }

  ghost predicate IdsDistinct(jobs: seq<Job>) {
    forall i, j :: 0 <= i < j < |jobs| ==> jobs[i].id != jobs[j].id
  }

  lemma {:induction false} CandidatesAre(jobs: seq<Job>, listed: set<string>)
    ensures forall job :: job in Candidates(jobs, listed) <==> job in jobs && job.id !in listed
    ensures IdsDistinct(jobs) ==> IdsDistinct(Candidates(jobs, listed))
  {
    if jobs != [] {
      CandidatesAre(jobs[..|jobs| - 1], listed);
      assert jobs == jobs[..|jobs| - 1] + [jobs[|jobs| - 1]];
    }
  }

  /** The runs bound to a job, in the order of the table. */
  function RunsOf(runs: seq<Owned<RecoveryRun>>): Job -> seq<RecoveryRun> {
    (job: Job) => RowsOf(runs, job.id)
  }

  // ----- the sweep as it runs -----

  method Clean(a: Answers, job: Job, resolved: seq<RecoveryRun>)
    returns (stalledRuns: seq<string>, stopped: seq<string>)
    ensures stalledRuns == Ids(resolved) && stopped == StoppedOf(a, job, resolved)
  {
    stalledRuns, stopped := [], [];
    for i := 0 to |resolved|
      invariant stalledRuns == Ids(resolved[..i]) && stopped == StoppedOf(a, job, resolved[..i])
    {
      PrefixStep(resolved, i);
      var run := resolved[i];
      stalledRuns := stalledRuns + [run.id];
      if run.sandbox.Some? && MayStop(Owned(Some(job.id), run), a.current(run)) {
        if a.stops(run) {
          stopped := stopped + [run.sandbox.value];
        }
      }
    }
    FullPrefix(resolved);
  }

  method SweepOne(s: Settings, a: Answers, job: Job, runs: seq<RecoveryRun>) returns (effect: Sweep)
    ensures effect == SweepJob(s, a, job, runs)
  {
    effect := NOTHING;
    var owned := OwnedRun(runs, job.attempt);
    if owned.Some? && owned.value.status == RunSuccess {
      return effect.(calls := [Complete(job.id, job.attempt, owned.value.id)]);
    }
    if owned.Some? && !IsActive(owned.value) {
      return;
    }
    var activity := Activity(job, owned);
    if activity.None? || s.now - activity.value < Timeout(s, job.workspace) {
      return;
    }
    if owned.Some? {
      var publication := a.publication(owned.value);
      if publication.LookupError? || Unexpired(publication, s.now) {
        return;
      }
    }
    var runId := if owned.Some? then Some(owned.value.id) else None;
    effect := effect.(calls := [Fail(job.id, job.attempt, runId, Retries(s, job.workspace))]);
    var outcome := a.failing(job);
    if outcome.RpcError? || outcome.reply !in {Error, Requeued} {
      return;
    }
    if outcome.reply == Requeued {
      effect := effect.(retried := [job.id]);
    } else {
      effect := effect.(stalledJobs := [job.id]);
    }
    var stalledRuns, stopped := Clean(a, job, ResolvedRuns(owned, runs));
    effect := effect.(stalledRuns := stalledRuns, stopped := stopped);
  }

  method SweepCandidates(s: Settings, a: Answers, candidates: seq<Job>, runs: seq<Owned<RecoveryRun>>)
    returns (result: Sweep)
    ensures result == SweepAll(s, a, candidates, RunsOf(runs))
  {
    result := NOTHING;
    for i := 0 to |candidates|
      invariant result == SweepAll(s, a, candidates[..i], RunsOf(runs))
    {
      PrefixStep(candidates, i);
      var effect := SweepOne(s, a, candidates[i], RowsOf(runs, candidates[i].id));
      result := Join(result, effect);
    }
    FullPrefix(candidates);
  }

  /** Only the runs of the jobs at hand matter. */
  lemma {:induction false} SweepSeesOnlyItsJobs(s: Settings, a: Answers, jobs: seq<Job>,
                                                runsOf: Job -> seq<RecoveryRun>, others: Job -> seq<RecoveryRun>)
    requires forall job :: job in jobs ==> runsOf(job) == others(job)
    ensures SweepAll(s, a, jobs, runsOf) == SweepAll(s, a, jobs, others)
  {
    if jobs != [] {
      SweepSeesOnlyItsJobs(s, a, jobs[..|jobs| - 1], runsOf, others);
    }
  }

  lemma LoadedRunsSuffice(s: Settings, a: Answers, jobs: seq<Job>, runs: seq<Owned<RecoveryRun>>,
                          table: seq<Owned<RecoveryRun>>)
    requires RowsAgree(runs, table, JobIds(jobs))
    ensures SweepAll(s, a, jobs, RunsOf(runs)) == SweepAll(s, a, jobs, RunsOf(table))
  {
    forall job | job in jobs ensures RunsOf(runs)(job) == RunsOf(table)(job) {
      var i :| 0 <= i < |jobs| && jobs[i] == job;
      assert JobIds(jobs)[i] == job.id;
    }
    SweepSeesOnlyItsJobs(s, a, jobs, RunsOf(runs), RunsOf(table));
  }

  /** Some read that the sweep depends on fails; `beats` is `None` when the heartbeats could not be read. */
  ghost predicate SomeReadFails(s: Settings, claimed: seq<Job>, claimedFails: nat -> bool,
                                beats: Option<seq<Heartbeat>>,
                                table: seq<Owned<RecoveryRun>>, runsFail: nat -> nat -> bool)
  {
    || SomePageFails(|claimed|, claimedFails)
    || beats.None?
    || SomeBatchFails(table, JobIds(Candidates(claimed, FreshJobs(beats.value, s.now))), 0, runsFail)
  }

  /**
   The sweep over the table of claimed jobs and the table of runs, whose ids are unique. Paging and batching leave no
   trace: either a read fails and nothing at all is done, or every claimed job that no fresh heartbeat lists is judged
   by all the runs that the table binds to it.
   */
  method SweepStalledRuns(s: Settings, a: Answers, claimed: seq<Job>, claimedFails: nat -> bool,
                          beats: Option<seq<Heartbeat>>, table: seq<Owned<RecoveryRun>>, runsFail: nat -> nat -> bool)
    returns (result: Sweep)
    requires IdsDistinct(claimed)
    ensures result == if SomeReadFails(s, claimed, claimedFails, beats, table, runsFail) then NOTHING
                      else SweepAll(s, a, Candidates(claimed, FreshJobs(beats.value, s.now)), RunsOf(table))
  {
    result := NOTHING;
    var jobs := LoadClaimedJobs(claimed, claimedFails);
    if jobs == [] || beats.None? {
      return;
    }
    var candidates := Candidates(jobs, FreshJobs(beats.value, s.now));
    if candidates == [] {
      return;
    }
    CandidatesAre(jobs, FreshJobs(beats.value, s.now));
    var runs := LoadRuns(table, JobIds(candidates), runsFail);
    if runs.None? {
      return;
    }
    result := SweepCandidates(s, a, candidates, runs.value);
    LoadedRunsSuffice(s, a, candidates, runs.value, table);
  }

  // ----- what a sweep may do -----

  /** A job gets at most one call, and it names the job. */
  lemma JobCallsOnce(s: Settings, a: Answers, job: Job, runs: seq<RecoveryRun>)
    ensures |SweepJob(s, a, job, runs).calls| <= 1
    ensures forall c :: c in SweepJob(s, a, job, runs).calls ==> c.job == job.id
  {
  }

  /** Each call is made for one of the jobs, as that job's body says. */
  lemma {:induction false} CallsBelong(s: Settings, a: Answers, jobs: seq<Job>, runsOf: Job -> seq<RecoveryRun>)
    ensures forall c :: c in SweepAll(s, a, jobs, runsOf).calls ==>
              exists job :: job in jobs && job.id == c.job && SweepJob(s, a, job, runsOf(job)).calls == [c]
  {
    if jobs != [] {
      CallsBelong(s, a, jobs[..|jobs| - 1], runsOf);
      JobCallsOnce(s, a, jobs[|jobs| - 1], runsOf(jobs[|jobs| - 1]));
      MembersStep(jobs);
    }
  }

  ghost predicate JobsDistinct(calls: seq<Call>) {
    forall i, j :: 0 <= i < j < |calls| ==> calls[i].job != calls[j].job
  }

  lemma DistinctAppend(calls: seq<Call>, more: seq<Call>, id: string)
    requires JobsDistinct(calls) && |more| <= 1
    requires forall c :: c in more ==> c.job == id
    requires forall c :: c in calls ==> c.job != id
    ensures JobsDistinct(calls + more)
  {
  }

  /** No job gets a second call. */
  lemma {:induction false} AtMostOneCallPerJob(s: Settings, a: Answers, jobs: seq<Job>, runsOf: Job -> seq<RecoveryRun>)
    requires IdsDistinct(jobs)
    ensures JobsDistinct(SweepAll(s, a, jobs, runsOf).calls)
  {
    if jobs != [] {
      var init, last := jobs[..|jobs| - 1], jobs[|jobs| - 1];
      AtMostOneCallPerJob(s, a, init, runsOf);
      CallsBelong(s, a, init, runsOf);
      JobCallsOnce(s, a, last, runsOf(last));
      DistinctAppend(SweepAll(s, a, init, runsOf).calls, SweepJob(s, a, last, runsOf(last)).calls, last.id);
      SweepStep(s, a, jobs, runsOf);
    }
  }

  /** The call that retires a stalled attempt, with the run of exactly that attempt or with none. */
  ghost predicate Retires(s: Settings, job: Job, runs: seq<RecoveryRun>, c: Call) {
    && c.Fail? && c.job == job.id && c.attempt == job.attempt
    && c.maxRetries == (if job.workspace in s.maxRetries then s.maxRetries[job.workspace] else 3)
    && (if NoneOwned(runs, job.attempt) then c.runId == None
        else exists run :: IsOwned(runs, job.attempt, run) && c.runId == Some(run.id))
  }

  lemma RetiresIff(s: Settings, job: Job, runs: seq<RecoveryRun>, c: Call)
    ensures Retires(s, job, runs, c) <==> c == FailCall(s, job, runs)
  {
    var owned := OwnedRun(runs, job.attempt);
    if owned.Some? {
      assert IsOwned(runs, job.attempt, owned.value);
    }
  }

  lemma JobCallsAre(s: Settings, a: Answers, job: Job, runs: seq<RecoveryRun>, c: Call)
    ensures c.Fail? ==>
              (c in SweepJob(s, a, job, runs).calls <==> Stalled(s, a, job, runs) && Retires(s, job, runs, c))
    ensures c.Complete? ==>
              (c in SweepJob(s, a, job, runs).calls <==>
                 exists run :: IsOwned(runs, job.attempt, run) && run.status == RunSuccess
                   && c == Complete(job.id, job.attempt, run.id))
  {
    RetiresExactlyTheStalled(s, a, job, runs);
    RetiresIff(s, job, runs, c);
    var decision := Decide(s, a, job, runs);
    if decision.Acknowledge? {
      assert IsOwned(runs, job.attempt, decision.published);
    }
  }

  lemma CandidatesAreUnlisted(jobs: seq<Job>, beats: seq<Heartbeat>, now: int)
    ensures forall job :: job in Candidates(jobs, FreshJobs(beats, now)) <==>
                            job in jobs && !FreshlyListed(beats, now, job.id)
  {
    CandidatesAre(jobs, FreshJobs(beats, now));
  }

  /**
   The sweep asks to fail exactly the stalled attempts that no fresh heartbeat lists, each with the run of
   exactly that attempt or, when there is none, with no run.
   */
  lemma FailsExactlyTheStalled(s: Settings, a: Answers, jobs: seq<Job>, beats: seq<Heartbeat>,
                               runsOf: Job -> seq<RecoveryRun>, c: Call)
    requires c.Fail?
    ensures c in SweepAll(s, a, Candidates(jobs, FreshJobs(beats, s.now)), runsOf).calls
       <==> exists job :: job in jobs && !FreshlyListed(beats, s.now, job.id)
                          && Stalled(s, a, job, runsOf(job)) && Retires(s, job, runsOf(job), c)
  {
    CandidatesAreUnlisted(jobs, beats, s.now);
    CallsAre(s, a, Candidates(jobs, FreshJobs(beats, s.now)), runsOf, c);
    forall job
      ensures c in SweepJob(s, a, job, runsOf(job)).calls
         <==> Stalled(s, a, job, runsOf(job)) && Retires(s, job, runsOf(job), c)
    {
      JobCallsAre(s, a, job, runsOf(job), c);
    }
  }

  /** It acknowledges exactly the attempts whose own run has succeeded, whether they are idle or not. */
  lemma AcknowledgesExactlyThePublished(s: Settings, a: Answers, jobs: seq<Job>, beats: seq<Heartbeat>,
                                        runsOf: Job -> seq<RecoveryRun>, c: Call)
    requires c.Complete?
    ensures c in SweepAll(s, a, Candidates(jobs, FreshJobs(beats, s.now)), runsOf).calls
       <==> exists job, run :: job in jobs && !FreshlyListed(beats, s.now, job.id)
              && IsOwned(runsOf(job), job.attempt, run) && run.status == RunSuccess
              && c == Complete(job.id, job.attempt, run.id)
  {
    CandidatesAreUnlisted(jobs, beats, s.now);
    CallsAre(s, a, Candidates(jobs, FreshJobs(beats, s.now)), runsOf, c);
    forall job
      ensures c in SweepJob(s, a, job, runsOf(job)).calls
         <==> exists run :: IsOwned(runsOf(job), job.attempt, run) && run.status == RunSuccess
                && c == Complete(job.id, job.attempt, run.id)
    {
      JobCallsAre(s, a, job, runsOf(job), c);
    }
  }

  lemma {:induction false} CallsAre(s: Settings, a: Answers, jobs: seq<Job>, runsOf: Job -> seq<RecoveryRun>, c: Call)
    ensures c in SweepAll(s, a, jobs, runsOf).calls
       <==> exists job :: job in jobs && c in SweepJob(s, a, job, runsOf(job)).calls
  {
    if jobs != [] {
      CallsAre(s, a, jobs[..|jobs| - 1], runsOf, c);
      assert jobs == jobs[..|jobs| - 1] + [jobs[|jobs| - 1]];
    }
  }

  lemma {:induction false} LegacyActiveAre(runs: seq<RecoveryRun>)
    ensures forall run :: run in LegacyActive(runs) <==> run in runs && run.attempt.None? && IsActive(run)
  {
    if runs != [] {
      LegacyActiveAre(runs[..|runs| - 1]);
      assert runs == runs[..|runs| - 1] + [runs[|runs| - 1]];
    }
  }

  /** The procedure has retired the attempt: it was stalled, and the answer was that it was failed or requeued. */
  ghost predicate WasRetired(s: Settings, a: Answers, job: Job, runs: seq<RecoveryRun>) {
    Stalled(s, a, job, runs) && (a.failing(job) == Replied(Error) || a.failing(job) == Replied(Requeued))
  }

  /** The run went down with the attempt: its own run, or without one a run underway that has no attempt. */
  ghost predicate WentDown(job: Job, runs: seq<RecoveryRun>, run: RecoveryRun) {
    || IsOwned(runs, job.attempt, run)
    || (NoneOwned(runs, job.attempt) && run in runs && run.attempt == None && Underway(run))
  }

  /** The run's row, read again, still is the failed owner of the same sandbox in the same account. */
  ghost predicate StillOwnsSandbox(a: Answers, job: Job, run: RecoveryRun) {
    exists row: RecoveryRun :: a.current(run) == Some(Owned(Some(job.id), row))
      && row.status == RunError && !row.recoveryRequired && row.attempt == run.attempt
      && row.sandbox == run.sandbox && row.connection == run.connection
  }

  ghost predicate SandboxStopped(s: Settings, a: Answers, job: Job, runs: seq<RecoveryRun>, run: RecoveryRun,
                                 sandbox: string)
  {
    && WasRetired(s, a, job, runs) && WentDown(job, runs, run)
    && run.sandbox == Some(sandbox) && StillOwnsSandbox(a, job, run) && a.stops(run)
  }

  lemma ResolvedAre(job: Job, runs: seq<RecoveryRun>)
    ensures forall run :: run in ResolvedRuns(OwnedRun(runs, job.attempt), runs) <==> WentDown(job, runs, run)
  {
    var owned := OwnedRun(runs, job.attempt);
    LegacyActiveAre(runs);
    if owned.Some? {
      assert IsOwned(runs, job.attempt, owned.value);
    }
  }

  lemma StopsIff(a: Answers, job: Job, run: RecoveryRun)
    ensures Stops(a, job, run) <==> run.sandbox.Some? && StillOwnsSandbox(a, job, run) && a.stops(run)
  {
    if Stops(a, job, run) {
      var current := a.current(run).value;
      assert a.current(run) == Some(Owned(Some(job.id), current.row));
    }
  }

  lemma {:induction false} StoppedAre(a: Answers, job: Job, runs: seq<RecoveryRun>, sandbox: string)
    ensures sandbox in StoppedOf(a, job, runs)
       <==> exists run :: run in runs && Stops(a, job, run) && run.sandbox == Some(sandbox)
  {
    if runs != [] {
      StoppedAre(a, job, runs[..|runs| - 1], sandbox);
      assert runs == runs[..|runs| - 1] + [runs[|runs| - 1]];
    }
  }

  lemma JobStops(s: Settings, a: Answers, job: Job, runs: seq<RecoveryRun>, sandbox: string)
    ensures sandbox in SweepJob(s, a, job, runs).stopped <==> JobStopped(s, a, job, runs, sandbox)
  {
    var resolved := ResolvedRuns(OwnedRun(runs, job.attempt), runs);
    RetiresExactlyTheStalled(s, a, job, runs);
    ResolvedAre(job, runs);
    StoppedAre(a, job, resolved, sandbox);
    if WasRetired(s, a, job, runs) {
      if run :| run in resolved && Stops(a, job, run) && run.sandbox == Some(sandbox) {
        StopsIff(a, job, run);
        assert SandboxStopped(s, a, job, runs, run, sandbox);
      }
      if run :| SandboxStopped(s, a, job, runs, run, sandbox) {
        StopsIff(a, job, run);
        assert run in resolved;
      }
    }
  }

  ghost predicate JobStopped(s: Settings, a: Answers, job: Job, runs: seq<RecoveryRun>, sandbox: string) {
    exists run :: SandboxStopped(s, a, job, runs, run, sandbox)
  }

  /**
   A sandbox is stopped exactly for a run that went down with a retired attempt, and only while the run's row still is
   the failed owner of that same sandbox: a retry's sandbox never is.
   */
  lemma {:induction false} StopsOnlyItsOwn(s: Settings, a: Answers, jobs: seq<Job>,
                                           runsOf: Job -> seq<RecoveryRun>, sandbox: string)
    ensures sandbox in SweepAll(s, a, jobs, runsOf).stopped
       <==> exists job :: job in jobs && JobStopped(s, a, job, runsOf(job), sandbox)
  {
    if jobs != [] {
      var init, last := jobs[..|jobs| - 1], jobs[|jobs| - 1];
      StopsOnlyItsOwn(s, a, init, runsOf, sandbox);
      JobStops(s, a, last, runsOf(last), sandbox);
      SweepStep(s, a, jobs, runsOf);
      MembersStep(jobs);
    }
  }

  lemma SweepStep(s: Settings, a: Answers, jobs: seq<Job>, runsOf: Job -> seq<RecoveryRun>)
    requires jobs != []
    ensures var last := jobs[|jobs| - 1];
      SweepAll(s, a, jobs, runsOf)
      == Join(SweepAll(s, a, jobs[..|jobs| - 1], runsOf), SweepJob(s, a, last, runsOf(last)))
  {
  }

  lemma MembersStep(jobs: seq<Job>)
    requires jobs != []
    ensures forall job :: job in jobs <==> job in jobs[..|jobs| - 1] || job == jobs[|jobs| - 1]
  {
    assert jobs == jobs[..|jobs| - 1] + [jobs[|jobs| - 1]];
  }

  lemma IdsAre(runs: seq<RecoveryRun>, id: string)
    ensures id in Ids(runs) <==> exists run :: run in runs && run.id == id
  {
    if run :| run in runs && run.id == id {
      var i :| 0 <= i < |runs| && runs[i] == run;
      assert Ids(runs)[i] == id;
    }
  }

  ghost predicate JobLost(s: Settings, a: Answers, job: Job, runs: seq<RecoveryRun>, id: string) {
    WasRetired(s, a, job, runs) && exists run :: WentDown(job, runs, run) && run.id == id
  }

  lemma JobLoses(s: Settings, a: Answers, job: Job, runs: seq<RecoveryRun>, id: string)
    ensures id in SweepJob(s, a, job, runs).stalledRuns <==> JobLost(s, a, job, runs, id)
  {
    RetiresExactlyTheStalled(s, a, job, runs);
    ResolvedAre(job, runs);
    IdsAre(ResolvedRuns(OwnedRun(runs, job.attempt), runs), id);
  }

  /** The stalled runs that are reported are exactly those that went down with a retired attempt. */
  lemma {:induction false} StalledRunsAreExact(s: Settings, a: Answers, jobs: seq<Job>,
                                               runsOf: Job -> seq<RecoveryRun>, id: string)
    ensures id in SweepAll(s, a, jobs, runsOf).stalledRuns
       <==> exists job :: job in jobs && JobLost(s, a, job, runsOf(job), id)
  {
    if jobs != [] {
      var init, last := jobs[..|jobs| - 1], jobs[|jobs| - 1];
      StalledRunsAreExact(s, a, init, runsOf, id);
      JobLoses(s, a, last, runsOf(last), id);
      SweepStep(s, a, jobs, runsOf);
      MembersStep(jobs);
    }
  }

  /** The job's attempt was asked to be retired, and the procedure answered with `reply`. */
  ghost predicate RetiredWith(s: Settings, a: Answers, job: Job, runs: seq<RecoveryRun>, reply: Reply) {
    Stalled(s, a, job, runs) && a.failing(job) == Replied(reply)
  }

  /** One of the jobs has this id and was retired with `reply`. */
  ghost predicate SomeRetired(s: Settings, a: Answers, jobs: seq<Job>, runsOf: Job -> seq<RecoveryRun>, id: string,
                              reply: Reply)
  {
    exists job :: job in jobs && job.id == id && RetiredWith(s, a, job, runsOf(job), reply)
  }

  lemma SomeRetiredStep(s: Settings, a: Answers, jobs: seq<Job>, last: Job, runsOf: Job -> seq<RecoveryRun>,
                        id: string, reply: Reply)
    ensures SomeRetired(s, a, jobs + [last], runsOf, id, reply)
       <==> (SomeRetired(s, a, jobs, runsOf, id, reply)
             || (last.id == id && RetiredWith(s, a, last, runsOf(last), reply)))
  {
    assert last in jobs + [last];
    if SomeRetired(s, a, jobs, runsOf, id, reply) {
      var job :| job in jobs && job.id == id && RetiredWith(s, a, job, runsOf(job), reply);
      assert job in jobs + [last];
    }
  }

  /** The result list that belongs to a reply of the procedure. */
  function ListFor(sweep: Sweep, reply: Reply): seq<string> {
    if reply == Requeued then sweep.retried else sweep.stalledJobs
  }

  lemma JobListIsExact(s: Settings, a: Answers, job: Job, runs: seq<RecoveryRun>, id: string, reply: Reply)
    requires reply in {Requeued, Error}
    ensures id in ListFor(SweepJob(s, a, job, runs), reply) <==> job.id == id && RetiredWith(s, a, job, runs, reply)
  {
    RetiresExactlyTheStalled(s, a, job, runs);
  }

  lemma ListStep(s: Settings, a: Answers, jobs: seq<Job>, last: Job, runsOf: Job -> seq<RecoveryRun>, reply: Reply)
    ensures ListFor(SweepAll(s, a, jobs + [last], runsOf), reply)
         == ListFor(SweepAll(s, a, jobs, runsOf), reply) + ListFor(SweepJob(s, a, last, runsOf(last)), reply)
  {
    assert (jobs + [last])[..|jobs|] == jobs;
  }

  lemma {:induction false} ListIsExact(s: Settings, a: Answers, jobs: seq<Job>, runsOf: Job -> seq<RecoveryRun>,
                                       id: string, reply: Reply)
    requires reply in {Requeued, Error}
    ensures id in ListFor(SweepAll(s, a, jobs, runsOf), reply) <==> SomeRetired(s, a, jobs, runsOf, id, reply)
  {
    if jobs != [] {
      var init, last := jobs[..|jobs| - 1], jobs[|jobs| - 1];
      assert jobs == init + [last];
      ListIsExact(s, a, init, runsOf, id, reply);
      ListStep(s, a, init, last, runsOf, reply);
      JobListIsExact(s, a, last, runsOf(last), id, reply);
      SomeRetiredStep(s, a, init, last, runsOf, id, reply);
    }
  }

  /** The result lists name exactly the jobs that the procedure requeued, and exactly those that it failed for good. */
  lemma ListsAreExact(s: Settings, a: Answers, jobs: seq<Job>, runsOf: Job -> seq<RecoveryRun>, id: string)
    ensures id in SweepAll(s, a, jobs, runsOf).retried <==> SomeRetired(s, a, jobs, runsOf, id, Requeued)
    ensures id in SweepAll(s, a, jobs, runsOf).stalledJobs <==> SomeRetired(s, a, jobs, runsOf, id, Error)
  {
    ListIsExact(s, a, jobs, runsOf, id, Requeued);
    ListIsExact(s, a, jobs, runsOf, id, Error);
  }
}
