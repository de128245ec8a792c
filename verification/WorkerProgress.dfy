/**
 The shutdown of the worker process can always be completed unless something has failed: the state machine of
 `WorkerProtocol` has no dead ends of its own.
 */
module WorkerProgress {
  import opened WorkerObjects
  import opened WorkerProtocol

  /** A failure that the source lets end the process: a rejected loop, a failed wait, or a crash. */
  predicate Broken(w: World) {
    || w.main == Crashed
    || w.sched.point == Rejected
    || w.life.stopped == Failed
    || (w.barrier.Barrier? && (w.barrier.jobs.JobsFailed? || w.barrier.aux.AuxFailed?))
  }

  /** The waits settle exactly one way, and a stop that was asked for is then answered. */
  ghost predicate Settling(w: World) {
    && (w.life.drained || w.life.stopped == Failed ==> w.barrier.Barrier? && w.barrier.settled)
    && (w.barrier.Barrier? && w.barrier.settled ==> w.life.drained != (w.life.stopped == Failed))
    && (w.life.drained ==> w.barrier.Barrier? && w.barrier.aux.AuxDone?)
    && (w.life.drained && w.life.stopRequested ==> w.life.stopped != Pending)
  }

  lemma LifeKeepsSettling(w: World, e: LifeEvent)
    requires PhasesAgree(w) && Settling(w) && CanLife(w, e)
    ensures Settling(DoLife(w, e))
  {
  }

  lemma StepKeepsSettling(w: World, e: Event)
    requires PhasesAgree(w) && Settling(w) && Can(w, e)
    ensures Settling(Do(w, e))
  {
    match e
    case OfSched(s) => assert DoSched(w, s).barrier == w.barrier && DoSched(w, s).life == w.life;
    case OfLife(l) => LifeKeepsSettling(w, l);
    case OfMain(m) => assert DoMain(w, m).barrier == w.barrier && DoMain(w, m).life == w.life;
  }

  lemma {:induction false} RunKeepsSettling(w: World, events: seq<Event>, end: World)
    requires Inv(w) && Settling(w) && Run(w, events, end)
    ensures Inv(end) && Settling(end)
    decreases |events|
  {
    if events != [] {
      StepKeepsInv(w, events[0]);
      StepKeepsSettling(w, events[0]);
      RunKeepsSettling(Do(w, events[0]), events[1..], end);
    }
  }

  // ----- a broken worker never deregisters -----

  lemma LifeLeavesBroken(w: World, e: LifeEvent)
    requires PhasesAgree(w) && Broken(w) && CanLife(w, e)
    ensures Broken(DoLife(w, e))
  {
  }

  lemma BrokenStep(w: World, e: Event)
    requires PhasesAgree(w) && MainAgrees(w) && Broken(w) && Can(w, e)
    ensures Broken(Do(w, e))
  {
    match e
    case OfSched(s) => assert DoSched(w, s).barrier == w.barrier && DoSched(w, s).life == w.life;
    case OfLife(l) => LifeLeavesBroken(w, l);
    case OfMain(m) => assert DoMain(w, m).barrier == w.barrier && DoMain(w, m).life == w.life;
  }

  lemma {:induction false} BrokenStays(w: World, events: seq<Event>, end: World)
    requires Inv(w) && Broken(w) && Run(w, events, end)
    ensures Broken(end)
    decreases |events|
  {
    if events != [] {
      StepKeepsInv(w, events[0]);
      BrokenStep(w, events[0]);
      BrokenStays(Do(w, events[0]), events[1..], end);
    }
  }

  lemma DeregisteringIsNotBroken(w: World)
    requires PhasesAgree(w) && JobsWaitCovers(w) && MainAgrees(w) && Settling(w) && w.main == Deregistering
    ensures !Broken(w)
  {
  }

  lemma BrokenNeverDeregisters(w: World, events: seq<Event>, end: World)
    requires Inv(w) && Settling(w) && Broken(w) && Run(w, events, end)
    ensures end.main != Deregistering
  {
    BrokenStays(w, events, end);
    RunKeepsSettling(w, events, end);
    if end.main == Deregistering {
      DeregisteringIsNotBroken(end);
    }
  }

  // ----- any other worker can -----

  /** What has yet to happen to the loop and to the three waits; each wait is one more stage. */
  function JobsRank(j: JobsWait): nat {
    match j case AwaitRun(_) => 3 case AwaitJobs(_) => 2 case AwaitBeats(_) => 1 case JobsDone => 0 case JobsFailed => 0
  }

  function MainRank(m: MainPoint): nat {
    match m
    case Starting => 5
    case AwaitStop => 4
    case IdleJobs(_) => 3
    case IdleBeats(_) => 2
    case IdleTimer(_) => 1
    case Deregistering => 0
    case Crashed => 0
  }

  predicate LoopEnded(p: RunPoint) {
    p in {Returned, Rejected}
  }

  /** The stages that are still to come. */
  function Stages(w: World): nat {
    100 * MainRank(w.main)
    + (if w.life.stopRequested then 0 else 50)
    + (if w.life.drained then 0 else 20)
    + (if w.barrier.NoBarrier? then 20 else 3 * WaitStages(w.barrier))
    + (if LoopEnded(w.sched.point) then 0 else 1)
  }

  function WaitStages(b: Barrier): nat
    requires b.Barrier?
  {
    (if b.maint.MaintPending? then 1 else 0) + (if b.aux.AuxPending? then 1 else 0) + JobsRank(b.jobs)
  }

  /** What is to be waited for within a stage; a job that ends leaves a heartbeat behind. */
  function Work(w: World): nat {
    2 * |w.sched.inFlight| + |w.sched.beats.Keys| + |w.maintTasks| + |w.timerTasks|
  }

  predicate Closer(w': World, w: World) {
    Stages(w') < Stages(w) || (Stages(w') == Stages(w) && Work(w') < Work(w))
  }

  /** The next event that brings the drain on, once `main` waits for the stop promise. */
  ghost function WaitsNext(w: World): Event {
    var b := w.barrier;
    if b.NoBarrier? then OfLife(Drain)
    else if b.maint.MaintPending? then
      if w.maintTasks == {} then OfLife(MaintSettles) else var t :| t in w.maintTasks; OfMain(MaintTaskEnds(t))
    else if b.aux.AuxPending? then OfLife(AuxSettles(true))
    else match b.jobs
      case AwaitRun(started) =>
        if started && !LoopEnded(w.sched.point) then OfSched(LoopNext(w)) else OfLife(RunSettles)
      case AwaitJobs(_) =>
        if w.sched.inFlight == {} then OfLife(JobsSettle) else var a :| a in w.sched.inFlight; OfSched(JobEnds(a))
      case AwaitBeats(_) =>
        if w.sched.beats.Keys == {} then OfLife(BeatsSettle)
        else var beat :| beat in w.sched.beats; OfSched(BeatSettles(beat))
      case _ => OfLife(WaitsSucceed)
  }

  /** What takes the scheduler loop of a draining worker to its end. */
  function LoopNext(w: World): SchedEvent {
    match w.sched.point
    case Claiming => ClaimEmpty
    case Advertising(beat) => if beat in w.sched.beats then BeatSettles(beat) else BeatResumes(true)
    case _ => Wakes
  }

  ghost function Next(w: World): Event {
    match w.main
    case Starting => OfMain(Boot)
    case AwaitStop =>
      if !w.life.drained then WaitsNext(w)
      else if !w.life.stopRequested then OfLife(Stop)
      else OfMain(SeesStop)
    case IdleJobs(_) => OfMain(SeesJobsIdle)
    case IdleBeats(_) => OfMain(SeesBeatsIdle)
    case _ =>
      if w.timerTasks == {} then OfMain(Deregister) else var t :| t in w.timerTasks; OfMain(TimerTaskEnds(t))
  }

  ghost predicate Healthy(w: World) {
    Inv(w) && Settling(w) && !Broken(w)
  }

  lemma WaitsNextIsPossible(w: World)
    requires Healthy(w) && w.main == AwaitStop && !w.life.drained
    ensures Can(w, WaitsNext(w)) && !Broken(Do(w, WaitsNext(w)))
    ensures Do(w, WaitsNext(w)).life.stopRequested == w.life.stopRequested
  {
  }

  lemma NextIsPossible(w: World)
    requires Healthy(w) && w.main != Deregistering
    ensures Can(w, Next(w)) && Healthy(Do(w, Next(w)))
  {
    if w.main == AwaitStop && !w.life.drained {
      WaitsNextIsPossible(w);
    }
    StepKeepsInv(w, Next(w));
    StepKeepsSettling(w, Next(w));
  }

  lemma SetSizes<T>(s: set<T>, x: T)
    ensures x in s ==> |s - {x}| == |s| - 1
    ensures |s + {x}| <= |s| + 1
  {
  }

  lemma JobEndIsCloser(w: World, a: Attempt)
    requires a in w.sched.inFlight
    ensures Closer(DoSched(w, JobEnds(a)), w)
  {
    var s := w.sched;
    SetSizes(s.inFlight, a);
    SetSizes(s.beats.Keys, s.nextBeat);
    assert Finish(s, a).beats.Keys == s.beats.Keys + {s.nextBeat};
  }

  lemma BeatEndIsCloser(w: World, beat: nat)
    requires beat in w.sched.beats
    ensures Closer(DoSched(w, BeatSettles(beat)), w)
  {
    SetSizes(w.sched.beats.Keys, beat);
    assert Settle(w.sched, beat).beats.Keys == w.sched.beats.Keys - {beat};
  }

  lemma TaskEndIsCloser(w: World, task: nat)
    ensures task in w.maintTasks ==> Closer(DoMain(w, MaintTaskEnds(task)), w)
    ensures task in w.timerTasks ==> Closer(DoMain(w, TimerTaskEnds(task)), w)
  {
    SetSizes(w.maintTasks, task);
    SetSizes(w.timerTasks, task);
  }

  lemma LoopNextIsCloser(w: World)
    requires w.draining && !LoopEnded(w.sched.point)
    ensures Closer(DoSched(w, LoopNext(w)), w)
  {
    match LoopNext(w)
    case BeatSettles(beat) => BeatEndIsCloser(w, beat);
    case _ =>
  }

  lemma WaitsNextIsCloser(w: World)
    requires PhasesAgree(w) && Settling(w) && !Broken(w)
    requires w.main == AwaitStop && !w.life.drained
    requires Can(w, WaitsNext(w))
    ensures Closer(Do(w, WaitsNext(w)), w)
  {
    match WaitsNext(w)
    case OfSched(JobEnds(a)) => JobEndIsCloser(w, a);
    case OfSched(BeatSettles(beat)) => BeatEndIsCloser(w, beat);
    case OfSched(_) => LoopNextIsCloser(w);
    case OfMain(MaintTaskEnds(t)) => TaskEndIsCloser(w, t);
    case _ =>
  }

  lemma NextIsCloser(w: World)
    requires Healthy(w) && w.main != Deregistering && Can(w, Next(w))
    ensures Closer(Do(w, Next(w)), w)
  {
    if w.main == AwaitStop && !w.life.drained {
      WaitsNextIsCloser(w);
    } else {
      match Next(w)
      case OfMain(TimerTaskEnds(t)) => TaskEndIsCloser(w, t);
      case _ =>
    }
  }

  ghost predicate LeadsToDeregistration(w: World, events: seq<Event>, end: World) {
    Run(w, events, end) && end.main == Deregistering
  }

  /** From every healthy world some run leads to the deregistration. */
  lemma {:induction false} Deregisters(w: World) returns (events: seq<Event>, end: World)
    requires Healthy(w)
    ensures LeadsToDeregistration(w, events, end)
    decreases Stages(w), Work(w)
  {
    if w.main == Deregistering {
      events, end := [], w;
    } else {
      NextIsPossible(w);
      NextIsCloser(w);
      events, end := Deregisters(Do(w, Next(w)));
      RunStep(w, Next(w), events, end);
      events := [Next(w)] + events;
    }
  }

  /** And it passes through a world in which everything has drained; a stop is not needed for that. */
  lemma {:induction false} Drains(w: World) returns (events: seq<Event>, end: World)
    requires Healthy(w)
    ensures Run(w, events, end) && end.life.drained && (!w.life.stopRequested ==> end.life.phase == Drained)
    decreases Stages(w), Work(w)
  {
    if w.life.drained {
      events, end := [], w;
    } else {
      NextIsPossible(w);
      NextIsCloser(w);
      NextKeepsStop(w);
      events, end := Drains(Do(w, Next(w)));
      RunStep(w, Next(w), events, end);
      events := [Next(w)] + events;
    }
  }

  lemma NextKeepsStop(w: World)
    requires Healthy(w) && !w.life.drained
    ensures w.main != Deregistering && Can(w, Next(w))
    ensures Do(w, Next(w)).life.stopRequested == w.life.stopRequested
  {
    if w.main == AwaitStop {
      WaitsNextIsPossible(w);
    }
  }

  /**
   At any time in any run: the worker can still drain everything and deregister exactly if its loop has not thrown,
   none of the three waits has failed and it has not crashed.
   */
  lemma CanDeregisterIffNotBroken(max: nat, before: seq<Event>, w: World)
    requires Run(Initial(max), before, w)
    ensures !Broken(w) <==> exists events, end :: LeadsToDeregistration(w, events, end)
  {
    InitialInv(max);
    RunKeepsSettling(Initial(max), before, w);
    if Broken(w) {
      forall events, end | Run(w, events, end) ensures !LeadsToDeregistration(w, events, end) {
        BrokenNeverDeregisters(w, events, end);
      }
    } else {
      var events, end := Deregisters(w);
    }
  }

  /** A worker that starts a job during a drain still gets both to "drained" and to its deregistration. */
  lemma LateStartStillDrains(max: nat, a: Attempt)
    returns (before: seq<Event>, w: World, draining: seq<Event>, drained: World, stopping: seq<Event>, end: World)
    requires max > 0
    ensures Run(Initial(max), before, w) && w.lateStarts == 1 && w.sched.inFlight == {a}
    ensures Run(w, draining, drained) && drained.life.phase == Drained
    ensures LeadsToDeregistration(w, stopping, end)
  {
    before, w := LateStartHappens(max, a);
    InitialInv(max);
    RunKeepsSettling(Initial(max), before, w);
    draining, drained := Drains(w);
    stopping, end := Deregisters(w);
  }

  // ----- a worker that is not draining uses all its slots -----

  lemma {:induction false} FreshAttempt(claimed: set<Attempt>) returns (n: nat)
    ensures forall a :: a in claimed ==> a.count < n
    decreases |claimed|
  {
    if claimed == {} {
      n := 0;
    } else {
      var a :| a in claimed;
      var m := FreshAttempt(claimed - {a});
      n := if a.count < m then m else a.count + 1;
      assert claimed == claimed - {a} + {a};
    }
  }

  /** The loop is running and nobody has asked it to stop claiming. */
  ghost predicate Claims(w: World) {
    w.main != Crashed && !w.draining && Bounded(w)
    && (w.sched.point == Claiming || w.sched.point.Advertising? || w.sched.point == Waiting)
  }

  /** What the loop does next when there is a job for every claim. */
  ghost function FillNext(w: World, claim: Attempt): SchedEvent {
    match w.sched.point
    case Claiming => ClaimJob(claim)
    case Advertising(beat) => if beat in w.sched.beats then BeatSettles(beat) else BeatResumes(true)
    case _ => Wakes
  }

  function FillRank(w: World): nat {
    match w.sched.point
    case Claiming => 0
    case Advertising(beat) => if beat in w.sched.beats then 2 else 1
    case _ => 3
  }

  lemma FillStep(w: World, claim: Attempt)
    requires Claims(w) && |w.sched.inFlight| < w.max && claim !in w.claimed && Conserved(w)
    ensures var e := OfSched(FillNext(w, claim));
      && Can(w, e) && Claims(Do(w, e)) && Conserved(Do(w, e)) && Do(w, e).max == w.max
      && w.sched.inFlight <= Do(w, e).sched.inFlight
      && (|Do(w, e).sched.inFlight| > |w.sched.inFlight|
          || (Do(w, e).sched.inFlight == w.sched.inFlight && FillRank(Do(w, e)) < FillRank(w)))
      && (w.sched.point != Waiting ==> FillNext(w, claim) != Wakes && Do(w, e).sched.point != Waiting)
  {
    SchedKeepsBound(w, FillNext(w, claim));
    SchedConserves(w, FillNext(w, claim));
  }

  /**
   As long as there are jobs to claim, the loop goes on until every slot is taken, and it waits for nothing but its own
   heartbeats on the way; the jobs that were running are still running then.
   */
  lemma {:induction false} FillsEverySlot(w: World) returns (events: seq<Event>, end: World)
    requires Claims(w) && Conserved(w)
    ensures Run(w, events, end) && |end.sched.inFlight| == w.max && w.sched.inFlight <= end.sched.inFlight
    ensures w.sched.point != Waiting ==> OfSched(Wakes) !in events
    decreases w.max - |w.sched.inFlight|, FillRank(w)
  {
    if |w.sched.inFlight| == w.max {
      events, end := [], w;
    } else {
      var n := FreshAttempt(w.claimed);
      var claim := Attempt("", n);
      var e := OfSched(FillNext(w, claim));
      FillStep(w, claim);
      events, end := FillsEverySlot(Do(w, e));
      RunStep(w, e, events, end);
      events := [e] + events;
    }
  }

  // ----- the loop never stops by itself -----

  /** The scheduler loop has returned only because the worker drains. */
  ghost predicate LoopGoesOn(w: World) {
    (w.sched.point == Returned ==> w.draining) && (w.sched.point == NotStarted ==> w.main in {Starting, Crashed})
  }

  lemma StepKeepsLoop(w: World, e: Event)
    requires LoopGoesOn(w) && Can(w, e)
    ensures LoopGoesOn(Do(w, e))
  {
  }

  lemma {:induction false} RunKeepsLoop(w: World, events: seq<Event>, end: World)
    requires LoopGoesOn(w) && Run(w, events, end)
    ensures LoopGoesOn(end)
    decreases |events|
  {
    if events != [] {
      StepKeepsLoop(w, events[0]);
      RunKeepsLoop(Do(w, events[0]), events[1..], end);
    }
  }

  /**
   Without a drain, a crash or a thrown error, a worker that has started never stops claiming: at any time in any run
   it can go on until every slot is taken, and it loses none of the jobs it holds on the way.
   */
  lemma NeverStopsByItself(max: nat, before: seq<Event>, w: World) returns (events: seq<Event>, end: World)
    requires Run(Initial(max), before, w)
    requires !w.draining && w.main != Starting && w.main != Crashed && w.sched.point != Rejected
    ensures Run(w, events, end) && |end.sched.inFlight| == max && w.sched.inFlight <= end.sched.inFlight
  {
    InitialInv(max);
    RunKeepsInv(Initial(max), before, w);
    RunKeepsMax(Initial(max), before, w);
    RunKeepsLoop(Initial(max), before, w);
    events, end := FillsEverySlot(w);
  }
}
