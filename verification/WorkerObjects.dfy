/**
 The stateful objects of the worker (src/worker/scheduler.ts, lifecycle.ts, shutdown.ts). Between two
 `await`s JavaScript runs without interruption, so each method below is one such stretch of the source;
 its contract is a function of the object's state, and `WorkerProtocol` interleaves those functions.
 */
module WorkerObjects {
  import opened Common

  /** One claim of a job: the key of the in-flight map. */
  datatype Attempt = Attempt(job: string, count: nat)

  /** The string under which the in-flight map keeps the claim. */
  function AttemptKey(a: Attempt): string {
    a.job + ":" + Decimal(a.count)
  }

  /** Two claims never share a key, whatever the job ids look like: the last colon ends the id. */
  lemma AttemptKeyInjective(a: Attempt, b: Attempt)
    ensures AttemptKey(a) == AttemptKey(b) <==> a == b
  {
    if AttemptKey(a) == AttemptKey(b) {
      var s, m, n := AttemptKey(a), |a.job|, |b.job|;
      DecimalDigits(a.count);
      DecimalDigits(b.count);
      assert s[m] == ':' && s[n] == ':';
      assert forall k :: m < k < |s| ==> s[k] == Decimal(a.count)[k - m - 1];
      assert forall k :: n < k < |s| ==> s[k] == Decimal(b.count)[k - n - 1];
      assert m == n;
      assert s[..m] == a.job && s[..n] == b.job;
      assert s[m + 1..] == Decimal(a.count) && s[n + 1..] == Decimal(b.count);
      DecimalInjective(a.count, b.count);
    }
  }

  /** Where `run` is suspended. */
  datatype RunPoint =
    | NotStarted
    | Claiming                  // awaiting the claim RPC
    | Advertising(beat: nat)    // awaiting the heartbeat of the job just started
    | Waiting                   // awaiting a delay or a free slot
    | Returned
    | Rejected

  /** The in-flight attempts, the outstanding heartbeat writes with what they advertise, and the loop. */
  datatype Sched = Sched(inFlight: set<Attempt>, beats: map<nat, set<string>>, nextBeat: nat, point: RunPoint)

  /** `getActiveJobIds`. */
  function ActiveJobs(inFlight: set<Attempt>): set<string> {
    set a | a in inFlight :: a.job
  }

  /** `emitHeartbeat`: a new outstanding write that advertises the current jobs. */
  function Emit(s: Sched): Sched {
    s.(beats := s.beats[s.nextBeat := ActiveJobs(s.inFlight)], nextBeat := s.nextBeat + 1)
  }

  /** From the head of either loop to the next `await`. */
  function Fill(s: Sched, draining: bool, max: nat): Sched {
    s.(point := if draining then Returned else if |s.inFlight| < max then Claiming else Waiting)
  }

  /** The claim found no job, or failed: leave the fill phase. */
  function LeaveFill(s: Sched, draining: bool): Sched {
    s.(point := if draining then Returned else Waiting)
  }

  /** `startJob`, and the heartbeat that advertises it at once. */
  function Start(s: Sched, a: Attempt): Sched {
    var s' := Emit(s.(inFlight := s.inFlight + {a}));
    s'.(point := Advertising(s.nextBeat))
  }

  /** The `finally` of a claimed job: free the slot and stop advertising it. */
  function Finish(s: Sched, a: Attempt): Sched {
    Emit(s.(inFlight := s.inFlight - {a}))
  }

  function Settle(s: Sched, beat: nat): Sched {
    s.(beats := s.beats - {beat})
  }

  class Scheduler {
    const maxConcurrentJobs: nat
    var inFlight: set<Attempt>
    var heartbeats: map<nat, set<string>>
    var nextBeat: nat
    var point: RunPoint
    /** What was ever claimed, what has ended, and what the heartbeat begun last advertises. */
    ghost var claimed: set<Attempt>
    ghost var completed: set<Attempt>
    ghost var advertised: set<string>

    ghost function State(): Sched
      reads this
    {
      Sched(inFlight, heartbeats, nextBeat, point)
    }

    /**
     Never more attempts than the cap, also when a pending claim succeeds; no claimed attempt lost or counted twice; the
     jobs held, and no others, are advertised; heartbeats have names of their own.
     */
    ghost predicate Valid()
      reads this
    {
      && |inFlight| <= maxConcurrentJobs && (point == Claiming ==> |inFlight| < maxConcurrentJobs)
      && claimed == inFlight + completed && inFlight !! completed
      && advertised == ActiveJobs(inFlight)
      && (forall beat :: beat in heartbeats ==> beat < nextBeat)
      && (point.Advertising? ==> point.beat < nextBeat)
    }

    constructor (max: nat)
      ensures Valid() && State() == Sched({}, map[], 0, NotStarted) && maxConcurrentJobs == max && claimed == {}
    {
      maxConcurrentJobs := max;
      inFlight, heartbeats, nextBeat, point := {}, map[], 0, NotStarted;
      claimed, completed, advertised := {}, {}, {};
    }

    method GetActiveJobIds() returns (jobs: set<string>)
      ensures jobs == ActiveJobs(inFlight)
    {
      jobs := {};
      var rest := inFlight;
      while rest != {}
        invariant rest <= inFlight && jobs == ActiveJobs(inFlight - rest)
      {
        var a :| a in rest;
        assert inFlight - (rest - {a}) == inFlight - rest + {a};
        jobs, rest := jobs + {a.job}, rest - {a};
      }
      assert inFlight - rest == inFlight;
    }

    /** A heartbeat of its own, which advertises exactly the jobs held. */
    method EmitHeartbeat() returns (beat: nat)
      modifies this`heartbeats, this`nextBeat, this`advertised
      ensures State() == Emit(old(State())) && beat == old(nextBeat)
      ensures advertised == ActiveJobs(inFlight) == heartbeats[beat]
    {
      var jobs := GetActiveJobIds();
      beat := nextBeat;
      heartbeats, nextBeat, advertised := heartbeats[beat := jobs], nextBeat + 1, jobs;
    }

    /** `run` from the head of a loop to its next `await`: a claim is begun only with a free slot and no drain. */
    method Continue(draining: bool)
      requires Valid()
      modifies this`point
      ensures Valid() && State() == Fill(old(State()), draining, maxConcurrentJobs)
      ensures point == Returned <==> draining
      ensures point == Claiming <==> !draining && |inFlight| < maxConcurrentJobs
      ensures point == Waiting <==> !draining && |inFlight| == maxConcurrentJobs
    {
      if draining {
        point := Returned;
      } else if |inFlight| < maxConcurrentJobs {
        point := Claiming;
      } else {
        point := Waiting;
      }
    }

    /**
     The claim procedure answered; `job` is what it claimed, if anything. Exactly that attempt joins the claimed
     ones, and before anything else happens a heartbeat protects it together with every job held before.
     */
    method OnClaimResult(job: Option<Attempt>, draining: bool)
      requires Valid() && point == Claiming && (job.Some? ==> job.value !in claimed)
      modifies this
      ensures Valid()
      ensures State() == match job case None => LeaveFill(old(State()), draining) case Some(a) => Start(old(State()), a)
      ensures completed == old(completed)
      ensures claimed == old(claimed) + if job.Some? then {job.value} else {}
      ensures job.Some? ==>
        && point.Advertising? && point.beat !in old(heartbeats) && point.beat in heartbeats
        && job.value.job in heartbeats[point.beat]
        && forall a :: a in old(inFlight) ==> a.job in heartbeats[point.beat]
    {
      match job {
        case None =>
          point := if draining then Returned else Waiting;
        case Some(a) =>
          inFlight, claimed := inFlight + {a}, claimed + {a};
          var beat := EmitHeartbeat();
          point := Advertising(beat);
      }
    }

    /** A claimed job ended: its slot is free, it counts as completed, and a heartbeat advertises the others. */
    method OnJobSettled(a: Attempt)
      requires Valid() && a in inFlight
      modifies this`inFlight, this`heartbeats, this`nextBeat, this`completed, this`advertised
      ensures Valid() && State() == Finish(old(State()), a)
      ensures completed == old(completed) + {a} && |inFlight| == |old(inFlight)| - 1
      ensures forall b :: b in old(inFlight) && b != a ==> b.job in advertised
    {
      inFlight, completed := inFlight - {a}, completed + {a};
      var beat := EmitHeartbeat();
    }

    method OnHeartbeatSettled(beat: nat)
      requires Valid()
      modifies this`heartbeats
      ensures Valid() && State() == Settle(old(State()), beat)
    {
      heartbeats := heartbeats - {beat};
    }
  }

  /** An older attempt that ends never stops a newer attempt of the same job from being advertised. */
  lemma FinishKeepsNewerAttempt(s: Sched, ended: Attempt, other: Attempt)
    requires other in s.inFlight && other != ended
    ensures other in Finish(s, ended).inFlight
    ensures other.job in ActiveJobs(Finish(s, ended).inFlight)
    ensures other.job in Finish(s, ended).beats[s.nextBeat]
  {
    assert other in s.inFlight - {ended};
  }

  /** A job is no longer advertised exactly when its last attempt ends; all other jobs stay advertised. */
  lemma FinishAdvertisesExactly(s: Sched, ended: Attempt, job: string)
    requires ended in s.inFlight
    ensures job in ActiveJobs(Finish(s, ended).inFlight)
       <==> (job in ActiveJobs(s.inFlight)
             && (job != ended.job || exists a :: a in s.inFlight && a.job == job && a != ended))
  {
    if exists a :: a in s.inFlight && a.job == job && a != ended {
      var a :| a in s.inFlight && a.job == job && a != ended;
      assert a in s.inFlight - {ended};
    }
  }

  // ----- lifecycle.ts -----

  datatype Phase = Running | Draining | Drained | Stopping

  /** The `stopped` promise; settling it a second time has no effect. */
  datatype Stopped = Pending | Resolved | Failed

  datatype Life = Life(phase: Phase, drained: bool, stopRequested: bool, stopped: Stopped)

  function PhaseRank(p: Phase): nat {
    match p case Running => 0 case Draining => 1 case Drained => 2 case Stopping => 3
  }

  function Resolve(l: Life): Life {
    if l.stopped == Pending then l.(stopped := Resolved) else l
  }

  function LifeDrain(l: Life): Life {
    if l.phase != Running then l else l.(phase := Draining)
  }

  function LifeStop(l: Life): Life {
    var l' := LifeDrain(l).(stopRequested := true, phase := Stopping);
    if l'.drained then Resolve(l') else l'
  }

  /** The three waits have all succeeded. */
  function LifeDrained(l: Life): Life {
    var l' := l.(drained := true);
    if l'.stopRequested then Resolve(l') else l'.(phase := Drained)
  }

  /** One of the three waits has failed. */
  function LifeFailed(l: Life): Life {
    if l.stopped == Pending then l.(stopped := Failed) else l
  }

  class Lifecycle {
    var phase: Phase
    var drained: bool
    var stopRequested: bool
    var stopped: Stopped
    /** How often the intake was closed and the three waits were started, and whether these have settled. */
    ghost var drains: nat
    ghost var settled: bool

    ghost function State(): Life
      reads this
    {
      Life(phase, drained, stopRequested, stopped)
    }

    /**
     The intake has been closed exactly once if it was closed at all; the phase says what was asked for and what has
     happened; the stop promise is resolved exactly if a stop was asked for and everything has drained, and rejected
     exactly if the waits have failed.
     */
    ghost predicate Valid()
      reads this
    {
      && drains == (if phase == Running then 0 else 1)
      && (settled ==> phase != Running) && (drained ==> settled)
      && (phase == Stopping <==> stopRequested)
      && (phase == Drained <==> drained && !stopRequested)
      && stopped == (if settled && !drained then Failed else if drained && stopRequested then Resolved else Pending)
    }

    constructor ()
      ensures Valid() && State() == Life(Running, false, false, Pending) && !settled
    {
      phase, drained, stopRequested, stopped, drains, settled := Running, false, false, Pending, 0, false;
    }

    /** However often it is called, the intake is closed once. */
    method RequestDrain()
      requires Valid()
      modifies this`phase, this`drains
      ensures Valid() && State() == LifeDrain(old(State())) && drains == 1
    {
      if phase != Running {
        return;
      }
      phase := Draining;
      drains := drains + 1;
    }

    method RequestStop()
      requires Valid()
      modifies this
      ensures Valid() && State() == LifeStop(old(State())) && drains == 1 && settled == old(settled)
    {
      RequestDrain();
      stopRequested := true;
      phase := Stopping;
      if drained {
        ResolveStopped();
      }
    }

    method ResolveStopped()
      modifies this`stopped
      ensures State() == Resolve(old(State()))
    {
      if stopped == Pending {
        stopped := Resolved;
      }
    }

    /** The combined promise of the three waits settles once, after they were started. */
    method OnWaitsSettled(ok: bool)
      requires Valid() && drains == 1 && !settled
      modifies this
      ensures Valid() && State() == (if ok then LifeDrained(old(State())) else LifeFailed(old(State())))
      ensures drains == 1 && settled && drained == ok
    {
      settled := true;
      if ok {
        drained := true;
        if stopRequested {
          ResolveStopped();
        } else {
          phase := Drained;
        }
      } else if stopped == Pending {
        stopped := Failed;
      }
    }
  }

  /** What may happen to the lifecycle. */
  datatype LifeCall = DrainCall | StopCall | WaitsCall(ok: bool)

  function IsWaits(c: LifeCall): bool {
    c.WaitsCall?
  }

  /** The waits settle at most once, and only after a drain or a stop has started them. */
  ghost predicate Possible(calls: seq<LifeCall>) {
    && (forall i :: 0 <= i < |calls| && IsWaits(calls[i]) ==> exists j :: 0 <= j < i && !IsWaits(calls[j]))
    && (forall i, j :: 0 <= i < j < |calls| ==> !(IsWaits(calls[i]) && IsWaits(calls[j])))
  }

  /** The state that a set of calls leads to. */
  function Outcome(calls: set<LifeCall>): Life {
    var ok, failed := WaitsCall(true) in calls, WaitsCall(false) in calls;
    var stop := StopCall in calls;
    Life(if stop then Stopping else if ok then Drained else if DrainCall in calls then Draining else Running,
         ok, stop, if failed then Failed else if ok && stop then Resolved else Pending)
  }

  /** Waits have settled at most one way, and only if something started them. */
  ghost predicate Sane(made: set<LifeCall>) {
    && (WaitsCall(true) in made || WaitsCall(false) in made ==> DrainCall in made || StopCall in made)
    && !(WaitsCall(true) in made && WaitsCall(false) in made)
  }

  /** One more call takes the outcome of the calls before it to the outcome of all of them. */
  lemma OutcomeStep(made: set<LifeCall>, c: LifeCall)
    requires Sane(made)
    ensures c == DrainCall ==> Outcome(made + {c}) == LifeDrain(Outcome(made))
    ensures c == StopCall ==> Outcome(made + {c}) == LifeStop(Outcome(made))
    ensures IsWaits(c) && Sane(made + {c}) && WaitsCall(true) !in made && WaitsCall(false) !in made ==>
              Outcome(made + {c}) == if c.ok then LifeDrained(Outcome(made)) else LifeFailed(Outcome(made))
  {
  }

  /** The calls up to `i`, without their order. */
  function Made(calls: seq<LifeCall>, i: nat): set<LifeCall>
    requires i <= |calls|
  {
    set c | c in calls[..i]
  }

  lemma MadeStep(calls: seq<LifeCall>, i: nat)
    requires Possible(calls) && i < |calls|
    ensures Made(calls, i + 1) == Made(calls, i) + {calls[i]} && Sane(Made(calls, i)) && Sane(Made(calls, i + 1))
    ensures IsWaits(calls[i]) ==> i > 0 && WaitsCall(true) !in Made(calls, i) && WaitsCall(false) !in Made(calls, i)
  {
    PrefixStep(calls, i);
    PossibleIsSane(calls, i);
    PossibleIsSane(calls, i + 1);
  }

  lemma PossibleIsSane(calls: seq<LifeCall>, i: nat)
    requires Possible(calls) && i <= |calls|
    ensures Sane(Made(calls, i))
  {
    if c: LifeCall :| c in calls[..i] && IsWaits(c) {
      var k :| 0 <= k < i && calls[k] == c;
      var j :| 0 <= j < k && !IsWaits(calls[j]);
      assert calls[j] in calls[..i];
    }
  }

  /**
   Any sequence of requests and settling waits: the state depends only on which calls were made, not on their order,
   and the intake was closed exactly once if anything was asked for.
   */
  method Drive(life: Lifecycle, calls: seq<LifeCall>)
    requires life.Valid() && life.State() == Life(Running, false, false, Pending) && !life.settled
    requires Possible(calls)
    modifies life
    ensures life.Valid() && life.State() == Outcome(set c | c in calls)
    ensures life.drains == if calls == [] then 0 else 1
  {
    for i := 0 to |calls|
      invariant life.Valid() && life.State() == Outcome(Made(calls, i))
      invariant life.drains == if i == 0 then 0 else 1
      invariant life.settled <==> WaitsCall(true) in Made(calls, i) || WaitsCall(false) in Made(calls, i)
    {
      MadeStep(calls, i);
      OutcomeStep(Made(calls, i), calls[i]);
      match calls[i] {
        case DrainCall => life.RequestDrain();
        case StopCall => life.RequestStop();
        case WaitsCall(ok) => life.OnWaitsSettled(ok);
      }
    }
    FullPrefix(calls);
    assert Made(calls, |calls|) == set c | c in calls;
  }

  // ----- shutdown.ts: createTimerTaskTracker -----

  class TimerTaskTracker {
    var activeTasks: set<nat>
    var nextTask: nat

    ghost predicate Valid()
      reads this
    {
      forall t :: t in activeTasks ==> t < nextTask
    }

    constructor ()
      ensures Valid() && activeTasks == {}
    {
      activeTasks, nextTask := {}, 0;
    }

    /** A timer callback starts a task that was not active before. */
    method Run() returns (task: nat)
      requires Valid()
      modifies this
      ensures Valid() && task !in old(activeTasks) && activeTasks == old(activeTasks) + {task}
    {
      task := nextTask;
      activeTasks, nextTask := activeTasks + {task}, nextTask + 1;
    }

    method OnTaskSettled(task: nat)
      requires Valid()
      modifies this`activeTasks
      ensures Valid() && activeTasks == old(activeTasks) - {task}
    {
      activeTasks := activeTasks - {task};
    }
  }
}
