/**
 Retiring one captured claim of a job (src/worker/loop.ts, `retireAttempt`), while the processor it belongs
 to, other workers, users and clocks go on changing the same rows.

 The database procedures are atomic steps, as the comments of their callers describe them and as
 supabase/migrations define them.
 */
module AttemptRecovery {
  import opened Common

  datatype JobStatus = Claimed | Queued | Succeeded | Failed | Canceled

  datatype RunStatus = Active | Published | Ended

  /** `intent`: a pending or claimed publication of the run, before its deadline. */
  datatype Run = Run(id: nat, status: RunStatus, intent: bool)

  /** A run of the job that carries no attempt number, as older rows do not. */
  datatype LegacyStatus = LegacyQueued | LegacyStarted | LegacyOver

  /**
   What the database holds about one attempt. `superseded`: the job's attempt count has moved on.
   `paused`: work that has not started is to be handed back. `history`: the runs with an error row.
   `legacy`: the job's runs without an attempt number.
   */
  datatype Row = Row(superseded: bool, status: JobStatus, run: Option<Run>, paused: bool, history: seq<nat>,
                     legacy: map<nat, LegacyStatus>)

  /** The captured attempt still owns its job. */
  predicate Held(row: Row) {
    !row.superseded && row.status == Claimed
  }

  /** A run ends only together with its attempt, and only an active run has a publication under way. */
  predicate Consistent(row: Row) {
    row.run.Some? ==>
      && (Held(row) ==> row.run.value.status != Ended)
      && (row.run.value.intent ==> row.run.value.status == Active)
  }

  // ----- what others do -----

  datatype Event =
    | StartCommits(id: nat)       // the late start binds a run
    | Publishes
    | Acknowledges
    | IntentOpens
    | IntentExpires
    | OthersFail(retry: bool)
    | Cancels
    | Reclaims
    | Pauses(on: bool)
    | LegacyMoves(legacyId: nat, to: LegacyStatus)

  function SetRun(row: Row, status: RunStatus, intent: bool): Row
    requires row.run.Some?
  {
    row.(run := Some(row.run.value.(status := status, intent := intent)))
  }

  function EndRun(row: Row): Row {
    if row.run.Some? && row.run.value.status == Active then SetRun(row, Ended, false) else row
  }

  /** Every run without an attempt number is over. */
  function EndLegacy(legacy: map<nat, LegacyStatus>): map<nat, LegacyStatus> {
    map id | id in legacy :: LegacyOver
  }

  /** A runless failure: no run of the attempt, but those without a number. */
  function EndAll(row: Row): Row {
    if row.run.Some? then EndRun(row) else row.(legacy := EndLegacy(row.legacy))
  }

  /** An event that its guard rejects has no effect. */
  function Apply(row: Row, e: Event): Row {
    var active := Held(row) && row.run.Some? && row.run.value.status == Active;
    match e
    case StartCommits(id) =>
      if Held(row) && row.run.None? && !row.paused then row.(run := Some(Run(id, Active, false))) else row
    case Publishes => if active then SetRun(row, Published, false) else row
    case Acknowledges =>
      if Held(row) && row.run.Some? && row.run.value.status == Published then row.(status := Succeeded) else row
    case IntentOpens => if active then SetRun(row, Active, true) else row
    case IntentExpires => if row.run.Some? then SetRun(row, row.run.value.status, false) else row
    case OthersFail(retry) =>
      if Held(row) && (row.run.None? || (active && !row.run.value.intent))
      then EndAll(row).(status := if retry then Queued else Failed) else row
    case Cancels => if Held(row) then EndRun(row).(status := Canceled) else row
    case Reclaims => if row.status == Queued then row.(superseded := true, status := Claimed) else row
    case Pauses(on) => row.(paused := on)
    case LegacyMoves(id, to) =>
      if id in row.legacy && row.legacy[id] != LegacyOver then row.(legacy := row.legacy[id := to]) else row
  }

  function ApplyAll(row: Row, events: seq<Event>): Row
    decreases |events|
  {
    if events == [] then row else ApplyAll(Apply(row, events[0]), events[1..])
  }

  /** What no event undoes: an attempt that lost its job never gets it back, and a bound run stays bound. */
  ghost predicate Relied(row: Row, later: Row) {
    && (Held(later) ==> Held(row))
    && (row.run.Some? ==> later.run.Some? && later.run.value.id == row.run.value.id)
    && (!Held(row) && row.run.None? ==> later.run.None?)
    && (row.run.Some? && row.run.value.status == Ended ==> later.run.value.status == Ended)
    && later.history == row.history
  }

  lemma {:induction false} EventsAreReliable(row: Row, events: seq<Event>)
    requires Consistent(row)
    ensures Consistent(ApplyAll(row, events)) && Relied(row, ApplyAll(row, events))
    decreases |events|
  {
    if events != [] {
      assert Consistent(Apply(row, events[0])) && Relied(row, Apply(row, events[0]));
      EventsAreReliable(Apply(row, events[0]), events[1..]);
    }
  }

  // ----- the procedure fail_stalled_session_job_attempt -----

  datatype Reply = Stale | Success | Error | Requeued

  datatype Answer = Answer(row: Row, reply: Reply)

  /** Work that has not started is handed back while it is paused. */
  predicate HandedBack(row: Row) {
    && Held(row) && row.paused && (row.run.None? || row.run.value.status == Ended)
    && forall id :: id in row.legacy ==> row.legacy[id] != LegacyStarted
  }

  /** `retrying`: the procedure grants the retry that was asked for. */
  function FailAttempt(row: Row, runId: Option<nat>, retrying: bool): Answer {
    if HandedBack(row) then Answer(row.(status := Queued), Stale)
    else if runId.Some? && (row.run.None? || row.run.value.id != runId.value) then Answer(row, Stale)
    else if row.run.Some? && row.run.value.intent then Answer(row, Stale)
    else if row.superseded || row.status !in {Claimed, Succeeded} then Answer(row, Stale)
    else if runId.Some? && row.run.value.status == Published then Answer(row.(status := Succeeded), Success)
    else if runId.Some? && row.run.value.status == Ended then Answer(row, Stale)
    else if runId.None? && row.run.Some? then Answer(row, Stale)
    else if row.status == Succeeded then Answer(row, Stale)
    else Answer(EndAll(row).(status := if retrying then Queued else Failed), if retrying then Requeued else Error)
  }

  /**
   The procedure fails an attempt exactly when the attempt owns its job, no publication is under way, and the
   caller named its active run, or named none and there is none. It then ends that run and no other; without one it
   ends the runs that carry no attempt number, and those only then.
   */
  lemma FailsOnlyItsOwn(row: Row, runId: Option<nat>, retrying: bool)
    requires Consistent(row)
    ensures var a := FailAttempt(row, runId, retrying);
      && (a.reply in {Error, Requeued} <==>
            && Held(row)
            && (if row.run.None? then runId.None? && !HandedBack(row)
                else runId == Some(row.run.value.id) && row.run.value.status == Active && !row.run.value.intent))
      && (a.reply in {Error, Requeued} ==>
            !Held(a.row) && (row.run.Some? ==> a.row.run == Some(Run(row.run.value.id, Ended, false))))
      && a.row.legacy.Keys == row.legacy.Keys
      && (if a.reply in {Error, Requeued} && row.run.None?
          then forall id :: id in row.legacy ==> a.row.legacy[id] == LegacyOver
          else a.row.legacy == row.legacy)
      && Consistent(a.row) && Relied(row, a.row)
  {
  }

  /** Nothing of the job has started. */
  ghost predicate Unstarted(row: Row) {
    && (row.run.None? || row.run.value.status == Ended)
    && forall id :: id in row.legacy ==> row.legacy[id] == LegacyQueued || row.legacy[id] == LegacyOver
  }

  /** The call names the attempt's run, which is active and has no publication under way; or names none, rightly. */
  ghost predicate MayEnd(row: Row, runId: Option<nat>) {
    if row.run.None? then runId == None
    else runId == Some(row.run.value.id) && row.run.value.status == Active && !row.run.value.intent
  }

  /** The run that the call names has published its work, and the job still is the attempt's. */
  ghost predicate HasPublished(row: Row, runId: Option<nat>) {
    && row.run.Some? && runId == Some(row.run.value.id) && row.run.value.status == Published && !row.run.value.intent
    && !row.superseded && (row.status == Claimed || row.status == Succeeded)
  }

  /** Every reply of the procedure, and what it has done to the row then. */
  ghost predicate Replies(row: Row, runId: Option<nat>, retrying: bool, a: Answer) {
    if Held(row) && row.paused && Unstarted(row) then
      a.reply == Stale && a.row == row.(status := Queued)
    else if Held(row) && MayEnd(row, runId) then
      && a.reply == (if retrying then Requeued else Error)
      && a.row.status == (if retrying then Queued else Failed)
      && (if row.run.Some? then a.row.run == Some(Run(row.run.value.id, Ended, false)) && a.row.legacy == row.legacy
          else a.row.run == None && a.row.legacy.Keys == row.legacy.Keys
               && forall id :: id in row.legacy ==> a.row.legacy[id] == LegacyOver)
      && a.row == row.(status := a.row.status, run := a.row.run, legacy := a.row.legacy)
    else if HasPublished(row, runId) then
      a.reply == Success && a.row == row.(status := Succeeded)
    else
      a.reply == Stale && a.row == row
  }

  /** The procedure fails, requeues, acknowledges or hands back an attempt exactly as its state demands. */
  lemma ReplyIsExact(row: Row, runId: Option<nat>, retrying: bool)
    requires Consistent(row)
    ensures Replies(row, runId, retrying, FailAttempt(row, runId, retrying))
  {
  }

  /** A runless call that is stale leaves a held attempt only if a run is bound: the next lookup finds it. */
  lemma StaleRunlessMeansBound(row: Row)
    requires FailAttempt(row, None, false).reply == Stale
    ensures var later := FailAttempt(row, None, false).row; Held(later) ==> later.run.Some?
  {
  }

  // ----- retireAttempt -----

  /** How a call to the database goes: answered, or lost before or after it took effect. */
  datatype Fate = Answered | LostBefore | LostAfter

  datatype RetireError = Aborted | LookupFailed | FailureNotRecorded | HistoryFailed

  /** The attempt's run is `id`, and it has ended. */
  predicate IsOver(row: Row, id: nat) {
    row.run.Some? && row.run.value.id == id && row.run.value.status == Ended
  }

  class AttemptStore {
    var row: Row
    /** The runs that `Fail` has ended. */
    ghost var ended: seq<nat>

    ghost predicate Valid()
      reads this
    {
      Consistent(row)
    }

    constructor (row: Row)
      requires Consistent(row)
      ensures Valid() && this.row == row && ended == []
    {
      this.row, ended := row, [];
    }

    method Happen(events: seq<Event>)
      requires Valid()
      modifies this`row
      ensures Valid() && row == ApplyAll(old(row), events) && Relied(old(row), row)
      ensures events == [] ==> row == old(row)
    {
      EventsAreReliable(row, events);
      row := ApplyAll(row, events);
    }

    method Lookup(fate: Fate) returns (run: Result<Option<nat>, RetireError>)
      ensures run == if fate != Answered then Err(LookupFailed)
                     else Ok(if row.run.None? then None else Some(row.run.value.id))
    {
      if fate != Answered {
        return Err(LookupFailed);
      }
      run := Ok(if row.run.None? then None else Some(row.run.value.id));
    }

    method Fail(runId: Option<nat>, fate: Fate) returns (reply: Result<Reply, RetireError>)
      requires Valid()
      modifies this
      ensures Valid() && Relied(old(row), row)
      ensures row == if fate == LostBefore then old(row) else FailAttempt(old(row), runId, false).row
      ensures reply == if fate != Answered then Err(FailureNotRecorded)
                       else Ok(FailAttempt(old(row), runId, false).reply)
      ensures ended == old(ended)
                     + if runId.Some? && fate != LostBefore && FailAttempt(old(row), runId, false).reply == Error
                                    then [runId.value] else []
      ensures forall id :: id in ended ==> id in old(ended) || IsOver(row, id)
    {
      FailsOnlyItsOwn(row, runId, false);
      var answer := FailAttempt(row, runId, false);
      if fate != LostBefore {
        row := answer.row;
        ended := ended + if runId.Some? && answer.reply == Error then [runId.value] else [];
      }
      reply := if fate != Answered then Err(FailureNotRecorded) else Ok(answer.reply);
    }

    method InsertHistory(runId: nat, fate: Fate) returns (ok: bool)
      requires Valid()
      modifies this`row
      ensures Valid() && ok == (fate == Answered)
      ensures row == old(row).(history := if fate == LostBefore then old(row).history else old(row).history + [runId])
    {
      if fate != LostBefore {
        row := row.(history := row.history + [runId]);
      }
      ok := fate == Answered;
    }
  }

  /** At most one error row was added, and then for the run of this attempt, which this recovery ended. */
  ghost predicate HistoryIsHonest(before: Row, after: Row) {
    after.history == before.history
    || (&& after.run.Some? && after.run.value.status == Ended && !Held(after) && Held(before)
        && after.history == before.history + [after.run.value.id])
  }

  /** Nobody interferes, no call is lost, and the deadline never passes. */
  ghost predicate Quiet(env: nat -> seq<Event>, fate: nat -> Fate, aborted: nat -> bool) {
    forall k: nat :: env(k) == [] && fate(k) == Answered && !aborted(k)
  }

  /** The attempt owns its job, and a publication of its run is under way. */
  ghost predicate Publishing(row: Row) {
    Held(row) && row.run.Some? && row.run.value.intent
  }

  /**
   Asked to fail its own run, or no run where there is none, the procedure leaves an attempt held exactly if a
   publication is under way, and then it changes nothing.
   */
  lemma LeavesOnlyPublishing(row: Row, examined: Option<nat>)
    requires Consistent(row)
    requires examined.Some? ==> row.run.Some? && row.run.value.id == examined.value
    requires examined.None? ==> row.run.None? || !Held(row)
    ensures Held(FailAttempt(row, examined, false).row) <==> Publishing(row)
    ensures Publishing(row) ==> FailAttempt(row, examined, false).row == row
  {
  }

  /** How a lookup and the failing call after it may end: `asked` is the row that the failing call found. */
  ghost predicate Decided(before: Row, asked: Row, row: Row, examined: Option<nat>, reply: Reply) {
    && row == FailAttempt(asked, examined, false).row && reply == FailAttempt(asked, examined, false).reply
    && Relied(before, asked) && Consistent(asked)
    && (examined.Some? ==> asked.run.Some? && asked.run.value.id == examined.value)
    && (examined.None? && Held(asked) ==> before.run.None?)
  }

  /** After a round that ends the loop, the attempt is held exactly if it was publishing, and then it was examined. */
  lemma RoundEnds(before: Row, asked: Row, row: Row, examined: Option<nat>, reply: Reply)
    requires Decided(before, asked, row, examined, reply) && Consistent(before)
    ensures examined.Some? || reply != Stale ==>
              (Held(row) <==> Publishing(asked)) && (Held(row) ==> row == asked && examined == Some(row.run.value.id))
    ensures examined.None? && reply == Stale && Held(row) ==> row.run.Some?
    ensures examined.None? && (Held(before) ==> before.run.Some?) ==> !Held(row) && !Publishing(asked)
    ensures examined.Some? && reply == Error ==>
              !Held(row) && IsOver(row, examined.value)
  {
    FailsOnlyItsOwn(asked, examined, false);
    if examined.Some? || asked.run.None? || !Held(asked) {
      LeavesOnlyPublishing(asked, examined);
    }
  }

  /** One round of the loop: a lookup and the failing call for what it found. */
  method Round(db: AttemptStore, before: seq<Event>, between: seq<Event>, lookupFate: Fate, failFate: Fate,
               aborted: (bool, bool))
    returns (r: Result<Reply, RetireError>, examined: Option<nat>, ghost asked: Row)
    requires db.Valid()
    modifies db
    ensures db.Valid() && Relied(old(db.row), db.row)
    ensures r.Ok? ==> Decided(old(db.row), asked, db.row, examined, r.value)
    ensures r.Ok? ==> db.ended == old(db.ended) + if examined.Some? && r.value == Error then [examined.value] else []
    ensures forall id :: id in db.ended ==> id in old(db.ended) || IsOver(db.row, id)
    ensures aborted.0 ==> r == Err(Aborted) && db.row == old(db.row)
    ensures before == between == [] && lookupFate == failFate == Answered && aborted == (false, false) ==>
              r.Ok? && asked == old(db.row)
  {
    examined, asked := None, db.row;
    if aborted.0 {
      return Err(Aborted), examined, asked;
    }
    db.Happen(before);
    var run := db.Lookup(lookupFate);
    if run.Err? {
      return Err(run.error), examined, asked;
    }
    examined := run.value;
    if aborted.1 {
      return Err(Aborted), examined, asked;
    }
    db.Happen(between);
    asked := db.row;
    r := db.Fail(examined, failFate);
  }

  /**
   `retireAttempt` up to its last call. `env(k)` happens before the k-th call to the database, `fate(k)` is how that
   call goes, and `aborted(k)` whether the recovery deadline has passed by then; all three are arbitrary. `asked` is
   the row that the last failing call found.

   After a normal return the attempt is still held exactly if a publication was under way when the failing call came,
   and then its run has been examined; otherwise it was failed, handed back, canceled, published or superseded. Two
   lookups always suffice. There is an error row for exactly the run that this call ended, if it ended one. Once the
   deadline has passed nothing is begun.
   */
  method RetireCalls(db: AttemptStore, env: nat -> seq<Event>, fate: nat -> Fate, aborted: nat -> bool)
    returns (r: Result<(), RetireError>, examined: Option<nat>, ghost asked: Row)
    requires db.Valid() && db.ended == []
    modifies db
    ensures db.Valid()
    ensures r.Ok? ==> (Held(db.row) <==> Publishing(asked))
    ensures r.Ok? && Held(db.row) ==> db.row == asked && examined == Some(db.row.run.value.id)
    ensures Quiet(env, fate, aborted) ==> r.Ok? && (Held(db.row) <==> Publishing(old(db.row)))
    ensures HistoryIsHonest(old(db.row), db.row)
    ensures r.Ok? ==> db.row.history == old(db.row.history) + db.ended
    ensures forall id :: id in db.ended ==> IsOver(db.row, id)
    ensures aborted(0) ==> r == Err(Aborted) && db.row == old(db.row)
  {
    examined, asked := None, db.row;
    for lookup := 0 to 2
      invariant db.Valid() && Relied(old(db.row), db.row) && db.ended == []
      invariant aborted(0) ==> lookup == 0 && db.row == old(db.row)
      invariant lookup > 0 && Held(db.row) ==> db.row.run.Some?
      invariant lookup == 2 ==> !Held(db.row) && !Publishing(asked)
      invariant Quiet(env, fate, aborted) ==>
                  if lookup == 0 then db.row == old(db.row) else !Held(db.row) && !Publishing(old(db.row))
    {
      var call := 2 * lookup;
      ghost var before := db.row;
      var reply;
      reply, examined, asked := Round(db, env(call), env(call + 1), fate(call), fate(call + 1),
                                      (aborted(call), aborted(call + 1)));
      if reply.Err? {
        return Err(reply.error), examined, asked;
      }
      RoundEnds(before, asked, db.row, examined, reply.value);
      if examined.Some? && reply.value == Error {
        r := RecordHistory(db, examined.value, env(call + 2), fate(call + 2), aborted(call + 2));
        return r, examined, asked;
      }
      if examined.Some? || reply.value != Stale {
        return Ok(()), examined, asked;
      }
    }
    return Ok(()), examined, asked;
  }

  /**
   `retireAttempt`, and whatever happens between its last call and the moment the caller goes on: a normal return never
   leaves the attempt held with a run that was not examined.
   */
  method RetireAttempt(db: AttemptStore, env: nat -> seq<Event>, fate: nat -> Fate, aborted: nat -> bool,
                       after: seq<Event>)
    returns (r: Result<(), RetireError>, examined: Option<nat>, ghost asked: Row)
    requires db.Valid() && db.ended == []
    modifies db
    ensures db.Valid()
    ensures r.Ok? && Held(db.row) ==> Publishing(asked) && db.row.run.Some? && examined == Some(db.row.run.value.id)
    ensures r.Ok? && after == [] ==> (Held(db.row) <==> Publishing(asked))
    ensures Quiet(env, fate, aborted) && after == [] ==> r.Ok? && (Held(db.row) <==> Publishing(old(db.row)))
    ensures HistoryIsHonest(old(db.row), db.row)
    ensures r.Ok? ==> db.row.history == old(db.row.history) + db.ended
    ensures forall id :: id in db.ended ==> IsOver(db.row, id)
    ensures aborted(0) ==> r == Err(Aborted) && db.row == ApplyAll(old(db.row), after)
  {
    r, examined, asked := RetireCalls(db, env, fate, aborted);
    db.Happen(after);
  }

  /**
   A normal return with the attempt still claimed does happen: the run that the lookup found has a publication under
   way. And it may be over by the time the caller goes on, which leaves the attempt claimed with nothing under way.
   */
  lemma HeldAfterRetirement(id: nat, history: seq<nat>)
    ensures var row := Row(false, Claimed, Some(Run(id, Active, true)), false, history, map[]);
      && Consistent(row) && Publishing(row)
      && FailAttempt(row, Some(id), false) == Answer(row, Stale)
      && Held(ApplyAll(row, [IntentExpires])) && !Publishing(ApplyAll(row, [IntentExpires]))
  {
    var row := Row(false, Claimed, Some(Run(id, Active, true)), false, history, map[]);
    assert ApplyAll(row, [IntentExpires]) == Apply(row, IntentExpires);
  }

  method RecordHistory(db: AttemptStore, runId: nat, events: seq<Event>, fate: Fate, aborted: bool)
    returns (r: Result<(), RetireError>)
    requires db.Valid() && !Held(db.row)
    requires IsOver(db.row, runId)
    modifies db`row
    ensures db.Valid() && !Held(db.row) && IsOver(db.row, runId)
    ensures !aborted && fate == Answered ==> r.Ok?
    ensures db.row.history == old(db.row.history) || db.row.history == old(db.row.history) + [runId]
    ensures r.Ok? ==> db.row.history == old(db.row.history) + [runId]
  {
    if aborted {
      return Err(Aborted);
    }
    db.Happen(events);
    var ok := db.InsertHistory(runId, fate);
    r := if ok then Ok(()) else Err(HistoryFailed);
  }

  /** One lookup would not do: a start that commits right after it leaves the attempt held by an unexamined run. */
  lemma OneLookupIsNotEnough(id: nat)
    ensures var row := Row(false, Claimed, None, false, [], map[]);
      var bound := ApplyAll(row, [StartCommits(id)]);
      var answer := FailAttempt(bound, None, false);
      && row.run.None? && answer.reply == Stale
      && Held(answer.row) && answer.row.run == Some(Run(id, Active, false))
  {
    var row := Row(false, Claimed, None, false, [], map[]);
    assert ApplyAll(row, [StartCommits(id)]) == Apply(row, StartCommits(id));
  }
}
