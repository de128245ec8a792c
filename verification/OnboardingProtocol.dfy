/**
 Several clients on one onboarding record. Each builds patches from its own copy; the server reads the row,
 compares versions, normalises, and writes by compare-and-swap (src/features/onboarding/data.ts,
 updateWorkspaceOnboardingData and completeWorkspaceOnboarding). Between any two steps of one request anything
 else may happen: other requests, refreshes, replies that come late or never, local navigation.

 Every write of the row gets a version of its own.
 */
module OnboardingProtocol {
  import opened Common
  import opened OnboardingFlow

  /** `base` is the copy the patch was built from; `expected` is the version sent along. */
  datatype Request = Request(action: Action, base: Onboarding, changes: Payload, expected: nat)

  /** How far the server has come with a request. */
  datatype Stage =
    | Sent(request: Request)
    | Writing(request: Request, view: View, payload: Payload)   // read, compared and normalised
    | Rereading(request: Request)                               // the compare-and-swap matched no row
    | Answered(reply: Reply)

  /** `waiting`: the request in flight, at most one. `refreshes`: rows read for GET requests. */
  datatype Client = Client(copy: Onboarding, waiting: Option<nat>, refreshes: set<Onboarding>)

  datatype World = World(row: Onboarding, clients: map<nat, Client>, stages: map<nat, Stage>, nextId: nat)

  datatype Event =
    | Opens(c: nat)                                // a client loads the page
    | Sends(c: nat, action: Action)
    | Selects(c: nat, step: Step, canManage: bool) // local navigation
    | ServerReads(id: nat, view: View)
    | ServerWrites(id: nat, now: int)
    | ServerRereads(id: nat)
    | Delivered(c: nat)
    | GivesUp(c: nat)                              // the reply is lost; the server may still go on
    | RefreshReads(c: nat)
    | RefreshArrives(c: nat, read: Onboarding)
    | RepositoryDeleted(now: int)                  // the foreign key is set to null

  function AfterRead(row: Onboarding, request: Request, view: View): Stage {
    if row.version != request.expected then Answered(Conflict(row))
    else if request.action == Complete && view.blocked then Answered(Failure)
    else
      match Normalize(row, view, request.changes)
      case Err(_) => Answered(Failure)
      case Ok(payload) => Writing(request, view, payload)
  }

  function AfterWrite(row: Onboarding, s: Stage, now: int): (Onboarding, Stage)
    requires s.Writing?
  {
    if row.version == s.request.expected then
      var written := Written(row, UpdateOf(s.payload, now));
      (written, Answered(Accepted(written)))
    else (row, Rereading(s.request))
  }

  /** An event that cannot happen has no effect. */
  function Do(w: World, e: Event): World {
    match e
    case Opens(c) => if c in w.clients then w else w.(clients := w.clients[c := Client(w.row, None, {})])
    case Sends(c, action) =>
      if c in w.clients && w.clients[c].waiting.None? && Patch(action, w.clients[c].copy).Some? then
        var copy := w.clients[c].copy;
        w.(clients := w.clients[c := w.clients[c].(waiting := Some(w.nextId))],
           stages := w.stages[w.nextId := Sent(Request(action, copy, Patch(action, copy).value, copy.version))],
           nextId := w.nextId + 1)
      else w
    case Selects(c, step, canManage) =>
      if c in w.clients then
        w.(clients := w.clients[c := w.clients[c].(copy := SelectStep(w.clients[c].copy, step, canManage))])
      else w
    case ServerReads(id, view) =>
      if id in w.stages && w.stages[id].Sent? then
        w.(stages := w.stages[id := AfterRead(w.row, w.stages[id].request, view)])
      else w
    case ServerWrites(id, now) =>
      if id in w.stages && w.stages[id].Writing? then
        var (row, stage) := AfterWrite(w.row, w.stages[id], now);
        w.(row := row, stages := w.stages[id := stage])
      else w
    case ServerRereads(id) =>
      if id in w.stages && w.stages[id].Rereading? then w.(stages := w.stages[id := Answered(Conflict(w.row))]) else w
    case Delivered(c) =>
      if c in w.clients && w.clients[c].waiting.Some? && w.clients[c].waiting.value in w.stages
         && w.stages[w.clients[c].waiting.value].Answered?
      then
        var reply := w.stages[w.clients[c].waiting.value].reply;
        w.(clients := w.clients[c := w.clients[c].(copy := Reduce(w.clients[c].copy, reply), waiting := None)])
      else w
    case GivesUp(c) => if c in w.clients then w.(clients := w.clients[c := w.clients[c].(waiting := None)]) else w
    case RefreshReads(c) =>
      if c in w.clients then
        w.(clients := w.clients[c := w.clients[c].(refreshes := w.clients[c].refreshes + {w.row})])
      else w
    case RefreshArrives(c, read) =>
      if c in w.clients && read in w.clients[c].refreshes then
        w.(clients := w.clients[c := w.clients[c].(copy := read)])
      else w
    case RepositoryDeleted(now) => w.(row := w.row.(repository := None, version := w.row.version + 1))
  }

  function Run(w: World, events: seq<Event>): World
    decreases |events|
  {
    if events == [] then w else Run(Do(w, events[0]), events[1..])
  }

  // ----- the invariant -----

  /** A row that was read: older than the row, or the row. */
  ghost predicate SnapshotOk(s: Onboarding, row: Onboarding) {
    Valid(s) && s.version <= row.version && (s.version == row.version ==> s == row)
  }

  /** A client's copy: older than the row, or the row but for the step shown and its status. */
  ghost predicate CopyOk(copy: Onboarding, row: Onboarding) {
    && Valid(copy) && copy.version <= row.version
    && (copy.version == row.version ==> copy == row.(current := copy.current, status := copy.status))
  }

  ghost predicate RequestOk(r: Request, row: Onboarding) {
    CopyOk(r.base, row) && Patch(r.action, r.base) == Some(r.changes) && r.expected == r.base.version
  }

  ghost predicate StageOk(s: Stage, row: Onboarding) {
    match s
    case Sent(r) => RequestOk(r, row)
    case Writing(r, view, payload) =>
      && RequestOk(r, row) && PayloadValid(payload)
      && (r.expected == row.version ==> Normalize(row, view, r.changes) == Ok(payload))
    case Rereading(r) => RequestOk(r, row)
    case Answered(reply) => reply.Failure? || SnapshotOk(reply.row, row)
  }

  ghost predicate ClientOk(c: Client, row: Onboarding) {
    CopyOk(c.copy, row) && forall s :: s in c.refreshes ==> SnapshotOk(s, row)
  }

  ghost predicate Inv(w: World) {
    && Valid(w.row)
    && (forall c :: c in w.clients ==> ClientOk(w.clients[c], w.row))
    && (forall id :: id in w.stages ==> StageOk(w.stages[id], w.row))
  }

  lemma InitialInv()
    ensures Inv(World(FRESH, map[], map[], 0))
  {
  }

  /** A new version makes everything that was read before it old. */
  lemma NewVersionKeeps(w: World, row: Onboarding)
    requires Inv(w) && Valid(row) && row.version == w.row.version + 1
    ensures Inv(w.(row := row))
  {
  }

  lemma ReadKeeps(row: Onboarding, r: Request, view: View)
    requires Valid(row) && RequestOk(r, row)
    ensures StageOk(AfterRead(row, r, view), row)
  {
    PatchesAreValid(r.action, r.base);
    NormalizingKeepsValid(row, view, r.changes);
  }

  /**
   An accepted write is never based on a stale row: the row is still the one the client's patch was built from,
   so the write is what the client's action means on the row itself.
   */
  lemma AcceptedWriteIsFresh(row: Onboarding, s: Stage, now: int)
    requires Valid(row) && StageOk(s, row) && s.Writing? && row.version == s.request.expected
    ensures var base := s.request.base;
      && base == row.(current := base.current, status := base.status)
      && Acts(s.request.action, row, base.current, base.status, s.view, now, AfterWrite(row, s, now).0)
  {
    var base := s.request.base;
    AtomicallyActs(s.request.action, row, base.current, base.status, s.view, now, AfterWrite(row, s, now).0);
  }

  lemma ClientReplaced(w: World, c: nat, client: Client)
    requires Inv(w) && ClientOk(client, w.row)
    ensures Inv(w.(clients := w.clients[c := client]))
  {
  }

  lemma StageReplaced(w: World, id: nat, s: Stage)
    requires Inv(w) && StageOk(s, w.row)
    ensures Inv(w.(stages := w.stages[id := s]))
  {
  }

  lemma WriteKeeps(w: World, id: nat, now: int)
    requires Inv(w) && id in w.stages && w.stages[id].Writing?
    ensures Inv(Do(w, ServerWrites(id, now)))
  {
    var s := w.stages[id];
    var (row, stage) := AfterWrite(w.row, s, now);
    if w.row.version == s.request.expected {
      assert Valid(row);
      NewVersionKeeps(w, row);
    }
    StageReplaced(w.(row := row), id, stage);
  }

  lemma SendKeeps(w: World, c: nat, action: Action)
    requires Inv(w)
    ensures Inv(Do(w, Sends(c, action)))
  {
    if c in w.clients && w.clients[c].waiting.None? && Patch(action, w.clients[c].copy).Some? {
      var copy := w.clients[c].copy;
      ClientReplaced(w, c, w.clients[c].(waiting := Some(w.nextId)));
      StageReplaced(w.(clients := w.clients[c := w.clients[c].(waiting := Some(w.nextId))]), w.nextId,
                    Sent(Request(action, copy, Patch(action, copy).value, copy.version)));
    }
  }

  lemma ReadStepKeeps(w: World, id: nat, view: View)
    requires Inv(w) && id in w.stages && w.stages[id].Sent?
    ensures Inv(Do(w, ServerReads(id, view)))
  {
    ReadKeeps(w.row, w.stages[id].request, view);
    StageReplaced(w, id, AfterRead(w.row, w.stages[id].request, view));
  }

  lemma RefreshKeeps(w: World, c: nat, read: Onboarding)
    requires Inv(w) && c in w.clients && SnapshotOk(read, w.row)
    ensures Inv(w.(clients := w.clients[c := w.clients[c].(refreshes := w.clients[c].refreshes + {read})]))
    ensures Inv(w.(clients := w.clients[c := w.clients[c].(copy := read)]))
  {
    ClientReplaced(w, c, w.clients[c].(refreshes := w.clients[c].refreshes + {read}));
    ClientReplaced(w, c, w.clients[c].(copy := read));
  }

  lemma DeliveryKeeps(w: World, c: nat)
    requires Inv(w)
    ensures Inv(Do(w, Delivered(c)))
  {
    if Do(w, Delivered(c)) != w {
      var reply := w.stages[w.clients[c].waiting.value].reply;
      assert StageOk(w.stages[w.clients[c].waiting.value], w.row);
      ClientReplaced(w, c, w.clients[c].(copy := Reduce(w.clients[c].copy, reply), waiting := None));
    }
  }

  lemma StepKeepsInv(w: World, e: Event)
    requires Inv(w)
    ensures Inv(Do(w, e))
  {
    match e
    case Opens(c) => ClientReplaced(w, c, Client(w.row, None, {}));
    case Sends(c, action) => SendKeeps(w, c, action);
    case Selects(c, step, canManage) =>
      if c in w.clients {
        ClientReplaced(w, c, w.clients[c].(copy := SelectStep(w.clients[c].copy, step, canManage)));
      }
    case ServerReads(id, view) =>
      if id in w.stages && w.stages[id].Sent? {
        ReadStepKeeps(w, id, view);
      }
    case ServerWrites(id, now) =>
      if id in w.stages && w.stages[id].Writing? {
        WriteKeeps(w, id, now);
      }
    case ServerRereads(id) => StageReplaced(w, id, Answered(Conflict(w.row)));
    case Delivered(c) => DeliveryKeeps(w, c);
    case GivesUp(c) =>
      if c in w.clients {
        ClientReplaced(w, c, w.clients[c].(waiting := None));
      }
    case RefreshReads(c) =>
      if c in w.clients {
        RefreshKeeps(w, c, w.row);
      }
    case RefreshArrives(c, read) =>
      if c in w.clients && read in w.clients[c].refreshes {
        RefreshKeeps(w, c, read);
      }
    case RepositoryDeleted(now) => NewVersionKeeps(w, w.row.(repository := None, version := w.row.version + 1));
  }

  lemma {:induction false} RunKeepsInv(w: World, events: seq<Event>)
    requires Inv(w)
    ensures Inv(Run(w, events))
    decreases |events|
  {
    if events != [] {
      StepKeepsInv(w, events[0]);
      RunKeepsInv(Do(w, events[0]), events[1..]);
    }
  }

  // ----- theorems over every run -----

  /**
   In every run, the lists of the row and of every client stay in the order of the flow, without duplicates and
   disjoint, and only skippable steps are ever skipped.
   */
  lemma StepsStayConsistent(events: seq<Event>)
    ensures var w := Run(World(FRESH, map[], map[], 0), events);
      Valid(w.row) && forall c :: c in w.clients ==> Valid(w.clients[c].copy)
  {
    InitialInv();
    RunKeepsInv(World(FRESH, map[], map[], 0), events);
  }

  /** One indivisible change of the row. */
  datatype Change = Acted(action: Action, step: Step, status: Status, view: View, now: int) | Cleared

  ghost predicate IsChange(row: Onboarding, c: Change, after: Onboarding) {
    match c
    case Acted(action, step, status, view, now) => Acts(action, row, step, status, view, now, after)
    case Cleared => after == row.(repository := None, version := row.version + 1)
  }

  ghost predicate Serial(row: Onboarding, changes: seq<Change>, end: Onboarding)
    decreases |changes|
  {
    if changes == [] then end == row
    else exists mid :: IsChange(row, changes[0], mid) && Serial(mid, changes[1..], end)
  }

  /** What one event does to the row: nothing, or one indivisible change. */
  lemma RowChangesAtomically(w: World, e: Event) returns (changes: seq<Change>)
    requires Inv(w)
    ensures if changes == [] then Do(w, e).row == w.row
            else |changes| == 1 && IsChange(w.row, changes[0], Do(w, e).row)
  {
    changes := [];
    match e
    case ServerWrites(id, now) =>
      if id in w.stages && w.stages[id].Writing? && w.row.version == w.stages[id].request.expected {
        var s := w.stages[id];
        AcceptedWriteIsFresh(w.row, s, now);
        changes := [Acted(s.request.action, s.request.base.current, s.request.base.status, s.view, now)];
      }
    case RepositoryDeleted(now) => changes := [Cleared];
    case _ =>
  }

  /** Every interleaving of clients is a serial run of indivisible actions on the row: no update is lost. */
  lemma {:induction false} EveryRunIsSerial(w: World, events: seq<Event>) returns (changes: seq<Change>)
    requires Inv(w)
    ensures Serial(w.row, changes, Run(w, events).row)
    decreases |events|
  {
    changes := [];
    if events != [] {
      var first := RowChangesAtomically(w, events[0]);
      StepKeepsInv(w, events[0]);
      var rest := EveryRunIsSerial(Do(w, events[0]), events[1..]);
      if first == [] {
        changes := rest;
      } else {
        changes := first + rest;
        assert changes[1..] == rest;
      }
    }
  }

  lemma {:induction false} SerialKeepsStamps(row: Onboarding, changes: seq<Change>, end: Onboarding)
    requires StampsAgree(row) && Serial(row, changes, end)
    ensures StampsAgree(end)
    decreases |changes|
  {
    if changes != [] {
      var mid :| IsChange(row, changes[0], mid) && Serial(mid, changes[1..], end);
      SerialKeepsStamps(mid, changes[1..], end);
    }
  }

  /** In every run the row has a dismissal time exactly while it is dismissed, and a completion time when completed. */
  lemma StampsFollowStatus(events: seq<Event>)
    ensures StampsAgree(Run(World(FRESH, map[], map[], 0), events).row)
  {
    InitialInv();
    var changes := EveryRunIsSerial(World(FRESH, map[], map[], 0), events);
    SerialKeepsStamps(FRESH, changes, Run(World(FRESH, map[], map[], 0), events).row);
  }

  /**
   When a client takes in an accept or a conflict, its step state and version are those of the row the reply was
   made from; if the row has not changed since, they are the row's.
   */
  lemma DeliveryShowsTheRow(events: seq<Event>, c: nat)
    requires var w := Run(World(FRESH, map[], map[], 0), events);
      && c in w.clients && w.clients[c].waiting.Some? && w.clients[c].waiting.value in w.stages
      && w.stages[w.clients[c].waiting.value].Answered? && !w.stages[w.clients[c].waiting.value].reply.Failure?
    ensures var w := Run(World(FRESH, map[], map[], 0), events);
      var copy := Do(w, Delivered(c)).clients[c].copy;
      && copy == w.stages[w.clients[c].waiting.value].reply.row
      && copy.version <= w.row.version && (copy.version == w.row.version ==> copy == w.row)
  {
    InitialInv();
    RunKeepsInv(World(FRESH, map[], map[], 0), events);
    var w := Run(World(FRESH, map[], map[], 0), events);
    assert StageOk(w.stages[w.clients[c].waiting.value], w.row);
  }

  lemma RunOfTwo(w: World, e: Event, f: Event)
    ensures Run(w, [e, f]) == Do(Do(w, e), f)
  {
    assert [e, f][1..] == [f] && [f][1..] == [];
    assert Run(Do(Do(w, e), f), []) == Do(Do(w, e), f);
    assert Run(Do(w, e), [f]) == Run(Do(Do(w, e), f), [f][1..]);
  }

  lemma {:induction false} RunConcat(w: World, a: seq<Event>, b: seq<Event>)
    ensures Run(w, a + b) == Run(Run(w, a), b)
    decreases |a|
  {
    if a == [] {
      assert a + b == b;
    } else {
      assert (a + b)[1..] == a[1..] + b;
      RunConcat(Do(w, a[0]), a[1..], b);
    }
  }

  /** The world after a client's request has been read by the server, with nothing in between. */
  lemma SentAndRead(w: World, c: nat, action: Action, view: View)
    requires Inv(w) && c in w.clients && w.clients[c].waiting == None
    requires w.clients[c].copy.version == w.row.version
    requires Admitted(action, w.row, w.clients[c].copy.current, w.clients[c].copy.status, view)
    requires !(action == Complete && view.blocked)
    ensures var mid := Run(w, [Sends(c, action), ServerReads(w.nextId, view)]);
      && mid.row == w.row && c in mid.clients && mid.clients[c] == w.clients[c].(waiting := Some(w.nextId))
      && w.nextId in mid.stages && mid.stages[w.nextId].Writing?
      && mid.stages[w.nextId].view == view
      && mid.stages[w.nextId].request.action == action && mid.stages[w.nextId].request.base == w.clients[c].copy
      && mid.stages[w.nextId].request.expected == w.row.version
  {
    var copy := w.clients[c].copy;
    assert ClientOk(w.clients[c], w.row);
    AdmittedIff(action, w.row, copy.current, copy.status, view, 0);
    assert copy == w.row.(current := copy.current, status := copy.status);
    RunOfTwo(w, Sends(c, action), ServerReads(w.nextId, view));
  }

  /** The write and the delivery of its reply. */
  lemma WrittenAndDelivered(w: World, c: nat, id: nat, now: int)
    requires Valid(w.row) && c in w.clients && w.clients[c].waiting == Some(id)
    requires id in w.stages && w.stages[id].Writing? && StageOk(w.stages[id], w.row)
    requires w.stages[id].request.expected == w.row.version
    ensures var end := Run(w, [ServerWrites(id, now), Delivered(c)]);
      var r := w.stages[id].request;
      && Acts(r.action, w.row, r.base.current, r.base.status, w.stages[id].view, now, end.row)
      && c in end.clients && end.clients[c].copy == end.row && end.clients[c].waiting == None
  {
    AcceptedWriteIsFresh(w.row, w.stages[id], now);
    RunOfTwo(w, ServerWrites(id, now), Delivered(c));
  }

  /**
   A client that is up to date and undisturbed gets what it asked for: the action takes effect on the row, and the
   client then shows the row.
   */
  lemma UndisturbedRequestSucceeds(w: World, c: nat, action: Action, view: View, now: int)
    requires Inv(w) && c in w.clients && w.clients[c].waiting == None
    requires w.clients[c].copy.version == w.row.version
    requires Admitted(action, w.row, w.clients[c].copy.current, w.clients[c].copy.status, view)
    requires !(action == Complete && view.blocked)
    ensures var copy := w.clients[c].copy;
      var end := Run(w, [Sends(c, action), ServerReads(w.nextId, view)] + [ServerWrites(w.nextId, now), Delivered(c)]);
      && Acts(action, w.row, copy.current, copy.status, view, now, end.row)
      && c in end.clients && end.clients[c].copy == end.row && end.clients[c].waiting == None
  {
    var first, second := [Sends(c, action), ServerReads(w.nextId, view)], [ServerWrites(w.nextId, now), Delivered(c)];
    RunConcat(w, first, second);
    SentAndRead(w, c, action, view);
    RunKeepsInv(w, first);
    WrittenAndDelivered(Run(w, first), c, w.nextId, now);
  }

  /** A request that is out of date when it is read changes nothing, and brings its client up to date. */
  lemma StaleRequestIsRefused(w: World, c: nat, id: nat, view: View)
    requires c in w.clients && w.clients[c].waiting == Some(id)
    requires id in w.stages && w.stages[id].Sent? && w.stages[id].request.expected != w.row.version
    ensures var end := Run(w, [ServerReads(id, view), Delivered(c)]);
      end.row == w.row && c in end.clients && end.clients[c].copy == w.row && end.clients[c].waiting == None
  {
    RunOfTwo(w, ServerReads(id, view), Delivered(c));
  }
}
