/**
 The worker process as a transition system (src/worker/index.ts composing scheduler.ts, lifecycle.ts and
 shutdown.ts). One step is one stretch of code between two `await`s; every other promise may settle in
 between, in any order. The steps use the functions that the objects of `WorkerObjects` are proved to compute.
 */
module WorkerProtocol {
  import opened WorkerObjects

  // ----- the three waits started by the first drain request (lifecycle.ts:32-40, index.ts:59-67) -----

  /** `waitForJobs`: the scheduler loop, then a snapshot of the jobs, then a snapshot of the heartbeats. */
  datatype JobsWait =
    | AwaitRun(started: bool)             // `started`: `schedulerRun` is `run()`'s promise, not the initial one
    | AwaitJobs(jobs: set<Attempt>)
    | AwaitBeats(beats: set<nat>)
    | JobsDone
    | JobsFailed

  datatype AuxWait = AuxPending | AuxDone | AuxFailed

  datatype MaintWait = MaintPending(tasks: set<nat>) | MaintDone

  datatype Barrier = NoBarrier | Barrier(jobs: JobsWait, aux: AuxWait, maint: MaintWait, settled: bool)

  /** Where `main` is suspended; `Crashed` is `process.exit(1)`. */
  datatype MainPoint =
    | Starting                            // registration and the control server
    | AwaitStop
    | IdleJobs(idleJobs: set<Attempt>)    // finishWorkerShutdown: scheduler.waitForIdle, first half
    | IdleBeats(idleBeats: set<nat>)      // second half
    | IdleTimer(idleTasks: set<nat>)      // timers stopped, timerTasks.waitForIdle
    | Deregistering                       // the deregistration has been sent, and everything after it
    | Crashed

  datatype World = World(
    max: nat,
    sched: Sched,
    life: Life,
    draining: bool,
    barrier: Barrier,
    main: MainPoint,
    maintOn: bool, maintTasks: set<nat>,
    timerOn: bool, timerTasks: set<nat>,
    nextTask: nat,
    // History: what the claim RPC handed out, what ended, starts after a drain, the last advertised set.
    claimed: set<Attempt>, completed: set<Attempt>, lateStarts: nat, advertised: set<string>)

  function Initial(max: nat): World {
    World(max, Sched({}, map[], 0, NotStarted), Life(Running, false, false, Pending), false, NoBarrier, Starting,
          false, {}, false, {}, 0, {}, {}, 0, {})
  }

  // ----- steps of the scheduler -----

  datatype SchedEvent =
    | ClaimEmpty                          // no job, or the claim failed
    | ClaimThrows
    | ClaimJob(job: Attempt)
    | BeatSettles(beat: nat)
    | BeatResumes(ok: bool)               // the loop goes on after its own heartbeat
    | Wakes
    | JobEnds(attempt: Attempt)

  predicate CanSched(w: World, e: SchedEvent) {
    match e
    case ClaimEmpty => w.sched.point == Claiming
    case ClaimThrows => w.sched.point == Claiming
    case ClaimJob(a) => w.sched.point == Claiming && a !in w.claimed
    case BeatSettles(b) => b in w.sched.beats
    case BeatResumes(_) => w.sched.point.Advertising? && w.sched.point.beat !in w.sched.beats
    case Wakes => w.sched.point == Waiting
    case JobEnds(a) => a in w.sched.inFlight
  }

  function DoSched(w: World, e: SchedEvent): World {
    match e
    case ClaimEmpty => w.(sched := LeaveFill(w.sched, w.draining))
    case ClaimThrows => w.(sched := w.sched.(point := Rejected))
    case ClaimJob(a) =>
      var s := Start(w.sched, a);
      w.(sched := s, claimed := w.claimed + {a}, advertised := s.beats[w.sched.nextBeat],
         lateStarts := w.lateStarts + if w.draining then 1 else 0)
    case BeatSettles(b) => w.(sched := Settle(w.sched, b))
    case BeatResumes(ok) =>
      w.(sched := if ok then Fill(w.sched, w.draining, w.max) else w.sched.(point := Rejected))
    case Wakes => w.(sched := Fill(w.sched, w.draining, w.max))
    case JobEnds(a) =>
      var s := Finish(w.sched, a);
      w.(sched := s, completed := w.completed + {a}, advertised := s.beats[w.sched.nextBeat])
  }

  // ----- steps of the lifecycle and of its three waits -----

  datatype LifeEvent =
    | Drain
    | Stop
    | RunSettles
    | JobsSettle
    | BeatsSettle
    | AuxSettles(auxOk: bool)
    | MaintSettles
    | WaitsSucceed
    | WaitsFail

  predicate CanLife(w: World, e: LifeEvent) {
    var b := w.barrier;
    match e
    case Drain => true
    case Stop => true
    case RunSettles => b.Barrier? && b.jobs.AwaitRun? && (b.jobs.started ==> w.sched.point in {Returned, Rejected})
    case JobsSettle => b.Barrier? && b.jobs.AwaitJobs? && b.jobs.jobs !! w.sched.inFlight
    case BeatsSettle => b.Barrier? && b.jobs.AwaitBeats? && b.jobs.beats !! w.sched.beats.Keys
    case AuxSettles(_) => b.Barrier? && b.aux.AuxPending?
    case MaintSettles => b.Barrier? && b.maint.MaintPending? && b.maint.tasks !! w.maintTasks
    case WaitsSucceed => b.Barrier? && !b.settled && b.jobs.JobsDone? && b.aux.AuxDone? && b.maint.MaintDone?
    case WaitsFail => b.Barrier? && !b.settled && (b.jobs.JobsFailed? || b.aux.AuxFailed?)
  }

  /** `requestDrain` closes claiming and maintenance and takes the first snapshots, all in one stretch. */
  function CloseIntake(w: World): World {
    if w.life.phase != Running then w
    else w.(draining := true, maintOn := false,
            barrier := Barrier(AwaitRun(w.sched.point != NotStarted), AuxPending, MaintPending(w.maintTasks), false))
  }

  function DoLife(w: World, e: LifeEvent): World
    requires CanLife(w, e)
  {
    var b := w.barrier;
    match e
    case Drain => CloseIntake(w).(life := LifeDrain(w.life))
    case Stop => CloseIntake(w).(life := LifeStop(w.life))
    case RunSettles =>
      w.(barrier := b.(jobs := if b.jobs.started && w.sched.point == Rejected then JobsFailed
                               else AwaitJobs(w.sched.inFlight)))
    case JobsSettle => w.(barrier := b.(jobs := AwaitBeats(w.sched.beats.Keys)))
    case BeatsSettle => w.(barrier := b.(jobs := JobsDone))
    case AuxSettles(ok) => w.(barrier := b.(aux := if ok then AuxDone else AuxFailed))
    case MaintSettles => w.(barrier := b.(maint := MaintDone))
    case WaitsSucceed => w.(barrier := b.(settled := true), life := LifeDrained(w.life))
    case WaitsFail => w.(barrier := b.(settled := true), life := LifeFailed(w.life))
  }

  // ----- steps of main and of the timers -----

  datatype MainEvent =
    | Boot
    | StartupFails
    | SeesStop
    | SeesJobsIdle
    | SeesBeatsIdle
    | Deregister
    | TimerFires
    | TimerTaskEnds(task: nat)
    | MaintFires
    | MaintTaskEnds(maintTask: nat)

  predicate CanMain(w: World, e: MainEvent) {
    match e
    case Boot => w.main == Starting
    case StartupFails => w.main == Starting
    case SeesStop => w.main == AwaitStop && w.life.stopped != Pending
    case SeesJobsIdle => w.main.IdleJobs? && w.main.idleJobs !! w.sched.inFlight
    case SeesBeatsIdle => w.main.IdleBeats? && w.main.idleBeats !! w.sched.beats.Keys
    case Deregister => w.main.IdleTimer? && w.main.idleTasks !! w.timerTasks
    case TimerFires => w.timerOn
    case TimerTaskEnds(t) => t in w.timerTasks
    case MaintFires => w.maintOn
    case MaintTaskEnds(t) => t in w.maintTasks
  }

  function DoMain(w: World, e: MainEvent): World {
    match e
    case Boot => w.(main := AwaitStop, timerOn := true, maintOn := !w.draining,
                    sched := Fill(w.sched, w.draining, w.max))
    case StartupFails => w.(main := Crashed)
    case SeesStop => w.(main := if w.life.stopped == Failed then Crashed else IdleJobs(w.sched.inFlight))
    case SeesJobsIdle => w.(main := IdleBeats(w.sched.beats.Keys))
    case SeesBeatsIdle => w.(main := IdleTimer(w.timerTasks), timerOn := false)
    case Deregister => w.(main := Deregistering)
    case TimerFires => w.(timerTasks := w.timerTasks + {w.nextTask}, nextTask := w.nextTask + 1)
    case TimerTaskEnds(t) => w.(timerTasks := w.timerTasks - {t})
    case MaintFires => w.(maintTasks := w.maintTasks + {w.nextTask}, nextTask := w.nextTask + 1)
    case MaintTaskEnds(t) => w.(maintTasks := w.maintTasks - {t})
  }

  datatype Event = OfSched(s: SchedEvent) | OfLife(l: LifeEvent) | OfMain(m: MainEvent)

  predicate Can(w: World, e: Event) {
    w.main != Crashed
    && match e
       case OfSched(s) => CanSched(w, s)
       case OfLife(l) => CanLife(w, l)
       case OfMain(m) => CanMain(w, m)
  }

  function Do(w: World, e: Event): World
    requires Can(w, e)
  {
    match e
    case OfSched(s) => DoSched(w, s)
    case OfLife(l) => DoLife(w, l)
    case OfMain(m) => DoMain(w, m)
  }

  /** The world after a list of events, each of which was possible when it happened. */
  ghost predicate Run(w: World, events: seq<Event>, end: World)
    decreases |events|
  {
    if events == [] then end == w
    else Can(w, events[0]) && Run(Do(w, events[0]), events[1..], end)
  }

  // ----- the invariant -----

  ghost predicate Bounded(w: World) {
    |w.sched.inFlight| <= w.max && (w.sched.point == Claiming ==> |w.sched.inFlight| < w.max)
  }

  /** Nothing claimed is lost. */
  ghost predicate Conserved(w: World) {
    w.claimed == w.sched.inFlight + w.completed && w.sched.inFlight !! w.completed
  }

  /** The heartbeat begun last advertises exactly the jobs still in flight. */
  ghost predicate Advertised(w: World) {
    w.advertised == ActiveJobs(w.sched.inFlight)
  }

  ghost predicate OneLateStart(w: World) {
    w.lateStarts == 0
    || (w.lateStarts == 1 && w.draining && w.sched.point !in {NotStarted, Claiming, Waiting})
  }

  ghost predicate PhasesAgree(w: World) {
    && (w.life.phase != Running <==> w.draining)
    && (w.draining <==> w.barrier.Barrier?)
    && (w.draining ==> !w.maintOn)
    && (w.life.phase == Stopping <==> w.life.stopRequested)
    && (w.life.phase == Drained <==> w.life.drained && !w.life.stopRequested)
    && (w.life.stopped == Resolved ==> w.life.drained && w.life.stopRequested)
    && (w.life.drained ==> w.draining && w.barrier.jobs.JobsDone? && w.barrier.maint.MaintDone?)
  }

  ghost predicate LoopOver(w: World) {
    w.sched.point in {NotStarted, Returned}
  }

  ghost predicate JobsWaitCovers(w: World) {
    w.draining && w.barrier.Barrier? ==>
      match w.barrier.jobs
      case AwaitRun(started) => started || LoopOver(w)
      case AwaitJobs(jobs) => LoopOver(w) && w.sched.inFlight <= jobs
      case AwaitBeats(beats) => LoopOver(w) && w.sched.inFlight == {} && w.sched.beats.Keys <= beats
      case JobsDone => LoopOver(w) && w.sched.inFlight == {} && w.sched.beats == map[]
      case JobsFailed => true
  }

  ghost predicate MaintWaitCovers(w: World) {
    w.draining && w.barrier.Barrier? ==>
      match w.barrier.maint
      case MaintPending(tasks) => w.maintTasks <= tasks
      case MaintDone => w.maintTasks == {}
  }

  ghost predicate MainAgrees(w: World) {
    && (w.main == Starting ==> w.sched.point == NotStarted && w.sched.inFlight == {})
    && (w.sched.point == NotStarted ==> w.main in {Starting, Crashed})
    && (w.main !in {Starting, AwaitStop, Crashed} ==> w.life.stopped == Resolved)
    && (w.main.IdleTimer? ==> !w.timerOn && w.timerTasks <= w.main.idleTasks)
    && (w.main == Deregistering ==> !w.timerOn && w.timerTasks == {})
  }

  ghost predicate Inv(w: World) {
    && Bounded(w)
    && Conserved(w)
    && Advertised(w)
    && OneLateStart(w)
    && PhasesAgree(w)
    && JobsWaitCovers(w)
    && MaintWaitCovers(w)
    && MainAgrees(w)
  }

  lemma InitialInv(max: nat)
    ensures Inv(Initial(max))
  {
  }

  lemma SchedKeepsBound(w: World, e: SchedEvent)
    requires Bounded(w) && CanSched(w, e)
    ensures Bounded(DoSched(w, e))
  {
    match e
    case ClaimJob(a) => assert |w.sched.inFlight + {a}| <= |w.sched.inFlight| + 1;
    case JobEnds(a) => assert |w.sched.inFlight - {a}| <= |w.sched.inFlight|;
    case _ =>
  }

  lemma SchedConserves(w: World, e: SchedEvent)
    requires Conserved(w) && CanSched(w, e)
    ensures Conserved(DoSched(w, e))
  {
  }

  lemma SchedAdvertises(w: World, e: SchedEvent)
    requires Advertised(w) && CanSched(w, e)
    ensures Advertised(DoSched(w, e))
  {
    match e
    case ClaimJob(a) =>
    case JobEnds(a) =>
    case _ => assert DoSched(w, e).sched.inFlight == w.sched.inFlight;
  }

  lemma SchedStartsLateOnce(w: World, e: SchedEvent)
    requires OneLateStart(w) && CanSched(w, e)
    ensures OneLateStart(DoSched(w, e))
  {
  }

  lemma SchedKeepsWaits(w: World, e: SchedEvent)
    requires Inv(w) && CanSched(w, e)
    ensures PhasesAgree(DoSched(w, e)) && JobsWaitCovers(DoSched(w, e))
    ensures MaintWaitCovers(DoSched(w, e)) && MainAgrees(DoSched(w, e))
  {
  }

  lemma LifeKeepsInv(w: World, e: LifeEvent)
    requires Inv(w) && CanLife(w, e)
    ensures Inv(DoLife(w, e))
  {
  }

  lemma MainKeepsInv(w: World, e: MainEvent)
    requires Inv(w) && CanMain(w, e)
    ensures Inv(DoMain(w, e))
  {
  }

  lemma StepKeepsInv(w: World, e: Event)
    requires Inv(w) && Can(w, e)
    ensures Inv(Do(w, e))
  {
    match e
    case OfSched(s) =>
      SchedKeepsBound(w, s);
      SchedConserves(w, s);
      SchedAdvertises(w, s);
      SchedStartsLateOnce(w, s);
      SchedKeepsWaits(w, s);
    case OfLife(l) => LifeKeepsInv(w, l);
    case OfMain(m) => MainKeepsInv(w, m);
  }

  lemma {:induction false} RunKeepsInv(w: World, events: seq<Event>, end: World)
    requires Inv(w) && Run(w, events, end)
    ensures Inv(end)
    decreases |events|
  {
    if events != [] {
      StepKeepsInv(w, events[0]);
      RunKeepsInv(Do(w, events[0]), events[1..], end);
    }
  }

  // ----- theorems over every run of the worker -----

  /**
   In every interleaving: never more attempts in flight than the cap; each claimed attempt is in flight or
   completed, never lost and never both; at most one job starts after a drain; and the heartbeat begun last
   advertises exactly the jobs still held.
   */
  lemma WorkIsBoundedAndConserved(max: nat, events: seq<Event>, w: World)
    requires Run(Initial(max), events, w)
    ensures |w.sched.inFlight| <= max
    ensures w.claimed == w.sched.inFlight + w.completed && w.sched.inFlight !! w.completed
    ensures w.lateStarts <= 1
    ensures w.advertised == ActiveJobs(w.sched.inFlight)
  {
    InitialInv(max);
    RunKeepsInv(Initial(max), events, w);
    RunKeepsMax(Initial(max), events, w);
  }

  /**
   "Drained", or a resolved stop, means that every job ever claimed has completed, also one claimed by an RPC
   that was pending when the drain came, and that no scheduler heartbeat and no maintenance task is outstanding.
   */
  lemma DrainedIsQuiet(max: nat, events: seq<Event>, w: World)
    requires Run(Initial(max), events, w)
    requires w.life.phase == Drained || w.life.stopped == Resolved
    ensures w.sched.inFlight == {} && w.completed == w.claimed
    ensures w.sched.beats == map[] && w.maintTasks == {} && !w.maintOn
  {
    InitialInv(max);
    RunKeepsInv(Initial(max), events, w);
  }

  /**
   When deregistration runs, no heartbeat of the scheduler or of the interval timer is outstanding, and
   whatever happens next, none begins, no task begins and no job is claimed.
   */
  lemma DeregistrationIsFinal(max: nat, before: seq<Event>, w: World, after: seq<Event>, end: World)
    requires Run(Initial(max), before, w) && w.main == Deregistering
    requires Run(w, after, end)
    ensures w.sched.beats == map[] && w.timerTasks == {} && w.maintTasks == {} && w.completed == w.claimed
    ensures end.sched == w.sched && end.claimed == w.claimed
    ensures end.nextTask == w.nextTask && end.timerTasks == {} && end.maintTasks == {}
  {
    InitialInv(max);
    RunKeepsInv(Initial(max), before, w);
    QuietStays(w, after, end);
  }

  lemma {:induction false} QuietStays(w: World, events: seq<Event>, end: World)
    requires Inv(w) && w.main == Deregistering && Run(w, events, end)
    ensures end.sched == w.sched && end.claimed == w.claimed
    ensures end.nextTask == w.nextTask && end.timerTasks == w.timerTasks && end.maintTasks == w.maintTasks
    decreases |events|
  {
    if events != [] {
      QuietStep(w, events[0]);
      StepKeepsInv(w, events[0]);
      QuietStays(Do(w, events[0]), events[1..], end);
    }
  }

  lemma QuietStep(w: World, e: Event)
    requires Inv(w) && w.main == Deregistering && Can(w, e)
    ensures var w' := Do(w, e);
      && w'.main == w.main && w'.sched == w.sched && w'.claimed == w.claimed
      && w'.nextTask == w.nextTask && w'.timerTasks == w.timerTasks && w'.maintTasks == w.maintTasks
  {
  }

  /** The phase only moves forward, the stop promise settles at most once, and a request is never forgotten. */
  ghost predicate Forward(w: World, w': World) {
    && PhaseRank(w.life.phase) <= PhaseRank(w'.life.phase)
    && (w.life.stopped != Pending ==> w'.life.stopped == w.life.stopped)
    && (w.life.drained ==> w'.life.drained)
    && (w.life.stopRequested ==> w'.life.stopRequested)
    && w.claimed <= w'.claimed && w.completed <= w'.completed
  }

  lemma {:induction false} LifeMovesForward(w: World, events: seq<Event>, end: World)
    requires Inv(w) && Run(w, events, end)
    ensures Forward(w, end)
    decreases |events|
  {
    if events != [] {
      StepMovesForward(w, events[0]);
      StepKeepsInv(w, events[0]);
      LifeMovesForward(Do(w, events[0]), events[1..], end);
    }
  }

  lemma StepMovesForward(w: World, e: Event)
    requires Inv(w) && Can(w, e)
    ensures Forward(w, Do(w, e))
  {
    match e
    case OfSched(s) => SchedMovesForward(w, s);
    case OfLife(l) => LifeStepMovesForward(w, l);
    case OfMain(m) => MainMovesForward(w, m);
  }

  lemma SchedMovesForward(w: World, e: SchedEvent)
    requires CanSched(w, e)
    ensures Forward(w, DoSched(w, e))
  {
    assert w.claimed <= DoSched(w, e).claimed && w.completed <= DoSched(w, e).completed;
  }

  lemma LifeStepMovesForward(w: World, e: LifeEvent)
    requires PhasesAgree(w) && CanLife(w, e)
    ensures Forward(w, DoLife(w, e))
  {
    assert DoLife(w, e).claimed == w.claimed && DoLife(w, e).completed == w.completed;
  }

  lemma MainMovesForward(w: World, e: MainEvent)
    requires CanMain(w, e)
    ensures Forward(w, DoMain(w, e))
  {
    assert DoMain(w, e).claimed == w.claimed && DoMain(w, e).completed == w.completed;
  }

  lemma {:induction false} RunKeepsMax(w: World, events: seq<Event>, end: World)
    requires Run(w, events, end)
    ensures end.max == w.max
    decreases |events|
  {
    if events != [] {
      RunKeepsMax(Do(w, events[0]), events[1..], end);
    }
  }

  /** After the drain nothing is claimed but the one job of a claim that was pending, and after that, nothing. */
  lemma {:induction false} LateStartIsLast(w: World, events: seq<Event>, end: World)
    requires Inv(w) && w.lateStarts == 1 && Run(w, events, end)
    ensures end.claimed == w.claimed && end.lateStarts == 1
    decreases |events|
  {
    if events != [] {
      StepKeepsInv(w, events[0]);
      LateStartIsLast(Do(w, events[0]), events[1..], end);
    }
  }

  // ----- the bounds are met: a drain during a pending claim -----

  lemma RunStep(w: World, e: Event, rest: seq<Event>, end: World)
    requires Can(w, e) && Run(Do(w, e), rest, end)
    ensures Run(w, [e] + rest, end)
  {
    assert ([e] + rest)[1..] == rest;
  }

  /** One start after a drain does happen: the claim was pending when the drain came. */
  lemma LateStartHappens(max: nat, a: Attempt) returns (events: seq<Event>, end: World)
    requires max > 0
    ensures Run(Initial(max), events, end)
    ensures end.life == Life(Draining, false, false, Pending) && end.lateStarts == 1 && end.sched.inFlight == {a}
    ensures end.main == AwaitStop && end.sched.point.Advertising?
    ensures end.barrier == Barrier(AwaitRun(true), AuxPending, MaintPending({}), false)
  {
    var w0 := Initial(max);
    var w1 := Do(w0, OfMain(Boot));
    var w2 := Do(w1, OfLife(Drain));
    end := Do(w2, OfSched(ClaimJob(a)));
    RunStep(w2, OfSched(ClaimJob(a)), [], end);
    RunStep(w1, OfLife(Drain), [OfSched(ClaimJob(a))], end);
    events := [OfMain(Boot)] + ([OfLife(Drain)] + ([OfSched(ClaimJob(a))] + []));
    RunStep(w0, OfMain(Boot), [OfLife(Drain)] + ([OfSched(ClaimJob(a))] + []), end);
  }
}
