/**
 The onboarding record of a workspace: the patches a client builds (src/features/onboarding/flow.ts), what the
 server makes of them (src/features/onboarding/data.ts), and how a client takes in the reply
 (src/features/onboarding/mutation-reducer.ts).
 */
module OnboardingFlow {
  import opened Common

  datatype Step = GitHub | Repository | Pipeline | Linear | Sandbox | Runtime | Verify

  datatype Status = NotStarted | InProgress | Dismissed | Completed

  /** The row, and equally a client's copy of it. `version` stands for `updated_at`. */
  datatype Onboarding = Onboarding(
    completed: seq<Step>, skipped: seq<Step>, current: Step, status: Status, repository: Option<string>,
    dismissedAt: Option<int>, completedAt: Option<int>, version: nat)

  /** A field that is `None` is absent from the payload. */
  datatype Payload = Payload(
    completed: Option<seq<Step>>, skipped: Option<seq<Step>>, current: Option<Step>, status: Option<Status>,
    repository: Option<Option<string>>)

  const STEPS: seq<Step> := [GitHub, Repository, Pipeline, Linear, Sandbox, Runtime, Verify]
  const SKIPPABLE: set<Step> := {Linear, Runtime}
  const DEPENDENT: set<Step> := {Repository, Runtime, Verify}
  const EMPTY := Payload(None, None, None, None, None)

  function Index(step: Step): (i: nat)
    ensures i < |STEPS| && STEPS[i] == step
  {
    match step
    case GitHub => 0
    case Repository => 1
    case Pipeline => 2
    case Linear => 3
    case Sandbox => 4
    case Runtime => 5
    case Verify => 6
  }

  function NextStep(step: Step): Option<Step> {
    if Index(step) + 1 < |STEPS| then Some(STEPS[Index(step) + 1]) else None
  }

  // ----- step lists -----

  function Filtered(steps: seq<Step>, keep: Step -> bool): seq<Step> {
    if steps == [] then []
    else
      var last := steps[|steps| - 1];
      Filtered(steps[..|steps| - 1], keep) + if keep(last) then [last] else []
  }

  function UniqueSteps(steps: seq<Step>): seq<Step> {
    Filtered(STEPS, (step: Step) => step in steps)
  }

  function AppendStep(steps: seq<Step>, step: Step): seq<Step> {
    UniqueSteps(steps + [step])
  }

  function RemoveStep(steps: seq<Step>, removed: Step): seq<Step> {
    Filtered(steps, (step: Step) => step != removed)
  }

  function Independent(steps: seq<Step>): seq<Step> {
    Filtered(steps, (step: Step) => step !in DEPENDENT)
  }

  /** In the order of the flow, and so without duplicates. */
  ghost predicate InOrder(steps: seq<Step>) {
    forall i, j :: 0 <= i < j < |steps| ==> Index(steps[i]) < Index(steps[j])
  }

  lemma {:induction false} FilteredSteps(steps: seq<Step>, keep: Step -> bool)
    ensures forall step :: step in Filtered(steps, keep) <==> step in steps && keep(step)
    ensures InOrder(steps) ==> InOrder(Filtered(steps, keep))
  {
    if steps != [] {
      var init, last := steps[..|steps| - 1], steps[|steps| - 1];
      FilteredSteps(init, keep);
      assert steps == init + [last];
      if InOrder(steps) {
        forall step | step in Filtered(init, keep) ensures Index(step) < Index(last) {
          var i :| 0 <= i < |init| && init[i] == step;
          assert Index(steps[i]) < Index(steps[|steps| - 1]);
        }
      }
    }
  }

  lemma AppendedSteps(steps: seq<Step>, step: Step)
    ensures forall s :: s in AppendStep(steps, step) <==> s in steps || s == step
    ensures InOrder(AppendStep(steps, step))
  {
    FilteredSteps(STEPS, (s: Step) => s in steps + [step]);
    AllSteps();
  }

  lemma AllSteps()
    ensures InOrder(STEPS) && forall step: Step :: step in STEPS
  {
    assert forall i :: 0 <= i < |STEPS| ==> Index(STEPS[i]) == i;
    forall step: Step ensures step in STEPS {
      assert STEPS[Index(step)] == step;
    }
  }

  // ----- the invariant of the record -----

  ghost predicate ListsValid(completed: seq<Step>, skipped: seq<Step>) {
    && InOrder(completed) && InOrder(skipped)
    && (forall step :: step in skipped ==> step !in completed && step in SKIPPABLE)
  }

  ghost predicate Valid(o: Onboarding) {
    ListsValid(o.completed, o.skipped)
  }

  // ----- the patches of flow.ts -----

  datatype Action =
    | Continue
    | StepComplete
    | SelectRepository(id: string, effective: Option<string>)
    | Advance
    | Skip
    | Navigate(target: Step)
    | Exit
    | Complete                       // a request of its own, whose changes the server chooses

  function Lists(completed: seq<Step>, skipped: seq<Step>): Payload {
    EMPTY.(completed := Some(completed), skipped := Some(skipped))
  }

  function ContinuePatch(o: Onboarding): Payload {
    var lists := Lists(AppendStep(o.completed, o.current), RemoveStep(o.skipped, o.current));
    match NextStep(o.current)
    case None => lists.(current := Some(o.current), status := Some(Completed))
    case Some(next) => lists.(current := Some(next), status := Some(InProgress))
  }

  function StepCompletionPatch(o: Onboarding): Option<Payload> {
    if NextStep(o.current).None? || o.status == Completed then None
    else Some(Lists(AppendStep(o.completed, o.current), RemoveStep(o.skipped, o.current)).(status := Some(InProgress)))
  }

  function RepositorySelectionPatch(o: Onboarding, id: string, effective: Option<string>): Option<Payload> {
    if effective == Some(id) then
      if o.repository != Some(id) then Some(EMPTY.(repository := Some(Some(id)))) else None
    else
      Some(Lists(Independent(o.completed), Independent(o.skipped)).(repository := Some(Some(id)),
                                                                    status := Some(InProgress)))
  }

  function AdvancePatch(o: Onboarding): Option<Payload> {
    match NextStep(o.current)
    case None => None
    case Some(next) => Some(EMPTY.(current := Some(next), status := Some(InProgress)))
  }

  function SkipPatch(o: Onboarding): Option<Payload> {
    if o.current !in SKIPPABLE || NextStep(o.current).None? then None
    else
      Some(Lists(RemoveStep(o.completed, o.current), AppendStep(o.skipped, o.current))
           .(current := NextStep(o.current), status := Some(InProgress)))
  }

  function NavigationPatch(o: Onboarding, target: Step): Option<Payload> {
    if o.status == Completed || target == o.current then None
    else Some(EMPTY.(current := Some(target), status := Some(InProgress)))
  }

  function ExitPatch(o: Onboarding): Option<Payload> {
    if o.status == Completed then None else Some(EMPTY.(status := Some(Dismissed)))
  }

  /** What completeWorkspaceOnboarding writes. */
  function CompletionChanges(): Payload {
    Lists(STEPS, []).(current := Some(Verify), status := Some(Completed))
  }

  function Patch(a: Action, o: Onboarding): Option<Payload> {
    match a
    case Continue => Some(ContinuePatch(o))
    case StepComplete => StepCompletionPatch(o)
    case SelectRepository(id, effective) => RepositorySelectionPatch(o, id, effective)
    case Advance => AdvancePatch(o)
    case Skip => SkipPatch(o)
    case Navigate(target) => NavigationPatch(o, target)
    case Exit => ExitPatch(o)
    case Complete => Some(CompletionChanges())
  }

  /** A payload names both lists or neither; lists that it names are valid together. */
  ghost predicate PayloadValid(p: Payload) {
    && (p.completed.Some? <==> p.skipped.Some?)
    && (p.completed.Some? ==> ListsValid(p.completed.value, p.skipped.value))
  }

  lemma PatchesAreValid(a: Action, o: Onboarding)
    requires Valid(o)
    ensures Patch(a, o).Some? ==> PayloadValid(Patch(a, o).value)
  {
    match a
    case Continue => CompletingLists(o.completed, o.skipped, o.current);
    case StepComplete => CompletingLists(o.completed, o.skipped, o.current);
    case SelectRepository(id, effective) => IndependentLists(o.completed, o.skipped);
    case Skip => SkippingLists(o.completed, o.skipped, o.current);
    case Complete => AllSteps();
    case _ =>
  }

  lemma CompletingLists(completed: seq<Step>, skipped: seq<Step>, step: Step)
    requires ListsValid(completed, skipped)
    ensures ListsValid(AppendStep(completed, step), RemoveStep(skipped, step))
  {
    AppendedSteps(completed, step);
    FilteredSteps(skipped, (s: Step) => s != step);
  }

  lemma SkippingLists(completed: seq<Step>, skipped: seq<Step>, step: Step)
    requires ListsValid(completed, skipped)
    ensures step in SKIPPABLE ==> ListsValid(RemoveStep(completed, step), AppendStep(skipped, step))
  {
    FilteredSteps(completed, (s: Step) => s != step);
    AppendedSteps(skipped, step);
  }

  lemma IndependentLists(completed: seq<Step>, skipped: seq<Step>)
    requires ListsValid(completed, skipped)
    ensures ListsValid(Independent(completed), Independent(skipped))
  {
    FilteredSteps(completed, (step: Step) => step !in DEPENDENT);
    FilteredSteps(skipped, (step: Step) => step !in DEPENDENT);
  }

  // ----- the server -----

  /** What the server reads besides the row: the primary profile's repository, the named repository, blockers. */
  datatype View = View(primary: Option<string>, known: bool, archived: bool, blocked: bool)

  datatype Refusal = RepositoryNotFound | RepositoryArchived | Blocked

  /** normalizeWorkspaceOnboardingUpdatePayload. */
  function Normalize(row: Onboarding, v: View, p: Payload): Result<Payload, Refusal> {
    if p.repository.None? then Ok(p)
    else
      var selected := p.repository.value;
      if selected.Some? && !v.known then Err(RepositoryNotFound)
      else if selected.Some? && v.archived then Err(RepositoryArchived)
      else
        var effective := if row.repository.Some? then row.repository else v.primary;
        if selected == effective then
          if selected == row.repository then Ok(p)
          else Ok(p.(completed := Some(row.completed), skipped := Some(row.skipped), status := Some(row.status)))
        else
          var completed := if p.completed.Some? then p.completed.value else row.completed;
          var skipped := if p.skipped.Some? then p.skipped.value else row.skipped;
          Ok(p.(completed := Some(Independent(completed)), skipped := Some(Independent(skipped)),
                status := if p.status.Some? then p.status else Some(InProgress)))
  }

  lemma NormalizingKeepsValid(row: Onboarding, v: View, p: Payload)
    requires Valid(row) && PayloadValid(p)
    ensures Normalize(row, v, p).Ok? ==> PayloadValid(Normalize(row, v, p).value)
  {
    IndependentLists(if p.completed.Some? then p.completed.value else row.completed,
                     if p.skipped.Some? then p.skipped.value else row.skipped);
  }

  /** The columns of one UPDATE. */
  datatype Update = Update(changes: Payload, dismissedAt: Option<Option<int>>, completedAt: Option<Option<int>>)

  function UpdateOf(p: Payload, now: int): Update {
    Update(p,
           if p.status == Some(Dismissed) then Some(Some(now))
           else if p.status in {Some(Completed), Some(InProgress)} then Some(None) else None,
           if p.status == Some(Completed) then Some(Some(now)) else None)
  }

  /** buildWorkspaceOnboardingUpdatePayload. */
  method BuildUpdatePayload(p: Payload, now: int) returns (u: Update)
    ensures u == UpdateOf(p, now)
  {
    u := Update(EMPTY, None, None);
    if p.status.Some? {
      u := u.(changes := u.changes.(status := p.status));
      if p.status.value == Dismissed {
        u := u.(dismissedAt := Some(Some(now)));
      } else if p.status.value == Completed {
        u := u.(completedAt := Some(Some(now)), dismissedAt := Some(None));
      } else if p.status.value == InProgress {
        u := u.(dismissedAt := Some(None));
      }
    }
    if p.current.Some? {
      u := u.(changes := u.changes.(current := p.current));
    }
    if p.repository.Some? {
      u := u.(changes := u.changes.(repository := p.repository));
    }
    if p.completed.Some? {
      u := u.(changes := u.changes.(completed := p.completed));
    }
    if p.skipped.Some? {
      u := u.(changes := u.changes.(skipped := p.skipped));
    }
  }

  function Or<T>(value: Option<T>, otherwise: T): T {
    if value.Some? then value.value else otherwise
  }

  /** The row after the UPDATE; the trigger gives it a version of its own. */
  function Written(row: Onboarding, u: Update): Onboarding {
    Onboarding(Or(u.changes.completed, row.completed), Or(u.changes.skipped, row.skipped),
               Or(u.changes.current, row.current),
               Or(u.changes.status, row.status), Or(u.changes.repository, row.repository),
               Or(u.dismissedAt, row.dismissedAt), Or(u.completedAt, row.completedAt), row.version + 1)
  }

  /**
   A payload for an update of the row in one indivisible step: what the client's action means when it is applied
   to the row itself, given the step and the status the client was showing.
   */
  function Atomically(row: Onboarding, a: Action, step: Step, status: Status, v: View, now: int): Option<Onboarding> {
    match Patch(a, row.(current := step, status := status))
    case None => None
    case Some(p) =>
      match Normalize(row, v, p)
      case Err(_) => None
      case Ok(q) => Some(Written(row, UpdateOf(q, now)))
  }

  lemma AtomicallyKeepsValid(row: Onboarding, a: Action, step: Step, status: Status, v: View, now: int)
    requires Valid(row) && Atomically(row, a, step, status, v, now).Some?
    ensures Valid(Atomically(row, a, step, status, v, now).value)
  {
    var p := Patch(a, row.(current := step, status := status)).value;
    PatchesAreValid(a, row.(current := step, status := status));
    NormalizingKeepsValid(row, v, p);
  }

  /** The time stamps follow the status: set by dismissing and completing, and cleared by going on. */
  ghost predicate StampsAgree(row: Onboarding) {
    (row.dismissedAt.Some? <==> row.status == Dismissed) && (row.status == Completed ==> row.completedAt.Some?)
  }

  lemma AtomicallyKeepsStamps(row: Onboarding, a: Action, step: Step, status: Status, v: View, now: int)
    requires StampsAgree(row) && Atomically(row, a, step, status, v, now).Some?
    ensures StampsAgree(Atomically(row, a, step, status, v, now).value)
  {
    var p := Patch(a, row.(current := step, status := status)).value;
    var q := Normalize(row, v, p).value;
    assert q.status in {None, Some(row.status), Some(InProgress), Some(Dismissed), Some(Completed)};
  }

  // ----- what each action writes, in the fields of the row -----

  ghost predicate Successor(step: Step, next: Step) {
    || (step == GitHub && next == Repository) || (step == Repository && next == Pipeline)
    || (step == Pipeline && next == Linear) || (step == Linear && next == Sandbox)
    || (step == Sandbox && next == Runtime) || (step == Runtime && next == Verify)
  }

  /** The flow goes on: no longer dismissed, and completed when it was before. */
  ghost predicate GoesOn(row: Onboarding, after: Onboarding) {
    after.status == InProgress && after.dismissedAt == None && after.completedAt == row.completedAt
  }

  ghost predicate Ends(after: Onboarding, now: int) {
    after.status == Completed && after.completedAt == Some(now) && after.dismissedAt == None
  }

  /** The step counts as completed, and no longer as skipped. */
  ghost predicate CompletesStep(row: Onboarding, step: Step, after: Onboarding) {
    && (forall s :: s in after.completed <==> s in row.completed || s == step)
    && (forall s :: s in after.skipped <==> s in row.skipped && s != step)
  }

  ghost predicate SkipsStep(row: Onboarding, step: Step, after: Onboarding) {
    && (forall s :: s in after.skipped <==> s in row.skipped || s == step)
    && (forall s :: s in after.completed <==> s in row.completed && s != step)
  }

  ghost predicate KeepsLists(row: Onboarding, after: Onboarding) {
    after.completed == row.completed && after.skipped == row.skipped
  }

  /** The steps that depend on the repository count neither as completed nor as skipped any more; all others stay. */
  ghost predicate DropsDependent(row: Onboarding, after: Onboarding) {
    && (forall s :: s in after.completed <==> s in row.completed && s != Repository && s != Runtime && s != Verify)
    && (forall s :: s in after.skipped <==> s in row.skipped && s != Repository && s != Runtime && s != Verify)
  }

  /** The status is written as it was, and stamped anew. */
  ghost predicate KeepsStatus(row: Onboarding, after: Onboarding, now: int) {
    && after.status == row.status
    && after.completedAt == (if row.status == Completed then Some(now) else row.completedAt)
    && after.dismissedAt == (match row.status
                             case Dismissed => Some(now)
                             case NotStarted => row.dismissedAt
                             case _ => None)
  }

  /** Choosing the repository that is the primary one anyway changes nothing else; any other choice sets work back. */
  ghost predicate ChoosesRepository(row: Onboarding, id: string, v: View, now: int, after: Onboarding) {
    && after.repository == Some(id) && after.current == row.current
    && if row.repository == None && v.primary == Some(id)
       then KeepsLists(row, after) && KeepsStatus(row, after, now)
       else DropsDependent(row, after) && GoesOn(row, after)
  }

  /** What an action, sent while `step` and `status` are shown, makes of the row. */
  ghost predicate Acts(a: Action, row: Onboarding, step: Step, status: Status, v: View, now: int, after: Onboarding) {
    && after.version == row.version + 1
    && Valid(after)
    && (!a.SelectRepository? ==> after.repository == row.repository)
    && match a
       case Continue =>
         && CompletesStep(row, step, after)
         && if step == Verify then after.current == Verify && Ends(after, now)
            else Successor(step, after.current) && GoesOn(row, after)
       case StepComplete =>
         && step != Verify && status != Completed
         && CompletesStep(row, step, after) && after.current == row.current && GoesOn(row, after)
       case SelectRepository(id, effective) =>
         && v.known && !v.archived && !(effective == Some(id) && row.repository == Some(id))
         && ChoosesRepository(row, id, v, now, after)
       case Advance => KeepsLists(row, after) && Successor(step, after.current) && GoesOn(row, after)
       case Skip =>
         && (step == Linear || step == Runtime)
         && SkipsStep(row, step, after) && Successor(step, after.current) && GoesOn(row, after)
       case Navigate(target) =>
         && status != Completed && target != step
         && KeepsLists(row, after) && after.current == target && GoesOn(row, after)
       case Exit =>
         && status != Completed && KeepsLists(row, after) && after.current == row.current
         && after.status == Dismissed && after.dismissedAt == Some(now) && after.completedAt == row.completedAt
       case Complete =>
         && after.completed == [GitHub, Repository, Pipeline, Linear, Sandbox, Runtime, Verify] && after.skipped == []
         && after.current == Verify && Ends(after, now)
  }

  /** Ordered lists with the same steps are the same. */
  lemma {:induction false} OrderedAreEqual(a: seq<Step>, b: seq<Step>)
    requires InOrder(a) && InOrder(b) && forall s :: s in a <==> s in b
    ensures a == b
  {
    if a == [] {
      NoMembers(b);
    } else if b == [] {
      NoMembers(a);
    } else {
      LastsAreEqual(a, b);
      var init, rest := a[..|a| - 1], b[..|b| - 1];
      InitMembers(a);
      InitMembers(b);
      forall s ensures s in init <==> s in rest {
        assert s in init <==> s in a && s != a[|a| - 1];
        assert s in rest <==> s in b && s != b[|b| - 1];
      }
      OrderedAreEqual(init, rest);
      assert a == init + [a[|a| - 1]] && b == rest + [b[|b| - 1]];
    }
  }

  lemma LastsAreEqual(a: seq<Step>, b: seq<Step>)
    requires InOrder(a) && InOrder(b) && a != [] && b != [] && forall s :: s in a <==> s in b
    ensures a[|a| - 1] == b[|b| - 1]
  {
    var x, y := a[|a| - 1], b[|b| - 1];
    assert x in b && y in a;
    var i :| 0 <= i < |b| && b[i] == x;
    var j :| 0 <= j < |a| && a[j] == y;
    assert Index(x) <= Index(y) && Index(y) <= Index(x);
    assert STEPS[Index(x)] == x && STEPS[Index(y)] == y;
  }

  lemma InitMembers(a: seq<Step>)
    requires InOrder(a) && a != []
    ensures InOrder(a[..|a| - 1])
    ensures forall s :: s in a[..|a| - 1] <==> s in a && s != a[|a| - 1]
  {
    assert a == a[..|a| - 1] + [a[|a| - 1]];
  }

  /** The lists that an action's outcome can have are determined by what is in them. */
  lemma ActsOnce(a: Action, row: Onboarding, step: Step, status: Status, v: View, now: int,
                 one: Onboarding, other: Onboarding)
    requires Acts(a, row, step, status, v, now, one) && Acts(a, row, step, status, v, now, other)
    ensures one == other
  {
    assert forall s :: s in one.completed <==> s in other.completed;
    assert forall s :: s in one.skipped <==> s in other.skipped;
    OrderedAreEqual(one.completed, other.completed);
    OrderedAreEqual(one.skipped, other.skipped);
  }

  lemma NextIsSuccessor(step: Step)
    ensures NextStep(step).None? <==> step == Verify
    ensures NextStep(step).Some? ==> Successor(step, NextStep(step).value)
  {
  }

  lemma CompletingMembers(completed: seq<Step>, skipped: seq<Step>, step: Step)
    ensures forall s :: s in AppendStep(completed, step) <==> s in completed || s == step
    ensures forall s :: s in RemoveStep(skipped, step) <==> s in skipped && s != step
  {
    AppendedSteps(completed, step);
    FilteredSteps(skipped, (s: Step) => s != step);
  }

  lemma IndependentMembers(steps: seq<Step>)
    ensures forall s :: s in Independent(steps) <==> s in steps && s != Repository && s != Runtime && s != Verify
    ensures InOrder(steps) ==> Independent(Independent(steps)) == Independent(steps)
  {
    FilteredSteps(steps, (step: Step) => step !in DEPENDENT);
    FilteredSteps(Independent(steps), (step: Step) => step !in DEPENDENT);
    if InOrder(steps) {
      OrderedAreEqual(Independent(Independent(steps)), Independent(steps));
    }
  }

  lemma StepActs(a: Action, row: Onboarding, step: Step, status: Status, v: View, now: int)
    requires Valid(row) && !a.SelectRepository? && Atomically(row, a, step, status, v, now).Some?
    ensures Acts(a, row, step, status, v, now, Atomically(row, a, step, status, v, now).value)
  {
    AtomicallyKeepsValid(row, a, step, status, v, now);
    NextIsSuccessor(step);
    CompletingMembers(row.completed, row.skipped, step);
    CompletingMembers(row.skipped, row.completed, step);
  }

  /** The columns that a selection writes. */
  function SelectionColumns(row: Onboarding, id: string, v: View): Payload {
    if row.repository.None? && v.primary == Some(id) then
      Lists(row.completed, row.skipped).(repository := Some(Some(id)), status := Some(row.status))
    else
      Lists(Independent(row.completed), Independent(row.skipped))
      .(repository := Some(Some(id)), status := Some(InProgress))
  }

  lemma SelectionNormalizes(row: Onboarding, shown: Onboarding, id: string, effective: Option<string>, v: View)
    requires Valid(row) && shown == row.(current := shown.current, status := shown.status)
    requires RepositorySelectionPatch(shown, id, effective).Some?
    requires Normalize(row, v, RepositorySelectionPatch(shown, id, effective).value).Ok?
    ensures Normalize(row, v, RepositorySelectionPatch(shown, id, effective).value)
         == Ok(SelectionColumns(row, id, v))
  {
    IndependentMembers(row.completed);
    IndependentMembers(row.skipped);
  }

  lemma SelectionWrites(row: Onboarding, id: string, v: View, now: int)
    requires Valid(row)
    ensures ChoosesRepository(row, id, v, now, Written(row, UpdateOf(SelectionColumns(row, id, v), now)))
  {
    IndependentMembers(row.completed);
    IndependentMembers(row.skipped);
  }

  lemma SelectionActs(row: Onboarding, id: string, effective: Option<string>, step: Step, status: Status, v: View,
                      now: int)
    requires Valid(row)
    requires Atomically(row, SelectRepository(id, effective), step, status, v, now).Some?
    ensures var a := SelectRepository(id, effective);
      Acts(a, row, step, status, v, now, Atomically(row, a, step, status, v, now).value)
  {
    AtomicallyKeepsValid(row, SelectRepository(id, effective), step, status, v, now);
    SelectionNormalizes(row, row.(current := step, status := status), id, effective, v);
    SelectionWrites(row, id, v, now);
  }

  /** An action that the record admits. */
  ghost predicate Admitted(a: Action, row: Onboarding, step: Step, status: Status, v: View) {
    match a
    case Continue => true
    case StepComplete => step != Verify && status != Completed
    case SelectRepository(id, effective) =>
      v.known && !v.archived && !(effective == Some(id) && row.repository == Some(id))
    case Advance => step != Verify
    case Skip => step == Linear || step == Runtime
    case Navigate(target) => status != Completed && target != step
    case Exit => status != Completed
    case Complete => true
  }

  lemma AdmittedIff(a: Action, row: Onboarding, step: Step, status: Status, v: View, now: int)
    ensures Atomically(row, a, step, status, v, now).Some? <==> Admitted(a, row, step, status, v)
  {
    NextIsSuccessor(step);
  }

  /** The indivisible step of an action does what the action means, and exactly the actions that mean something do. */
  lemma AtomicallyActs(a: Action, row: Onboarding, step: Step, status: Status, v: View, now: int, after: Onboarding)
    requires Valid(row)
    ensures Atomically(row, a, step, status, v, now) == Some(after) <==> Acts(a, row, step, status, v, now, after)
    ensures Admitted(a, row, step, status, v) <==> exists x :: Acts(a, row, step, status, v, now, x)
  {
    AdmittedIff(a, row, step, status, v, now);
    var outcome := Atomically(row, a, step, status, v, now);
    if outcome.Some? {
      if a.SelectRepository? {
        assert a == SelectRepository(a.id, a.effective);
        SelectionActs(row, a.id, a.effective, step, status, v, now);
      } else {
        StepActs(a, row, step, status, v, now);
      }
      if Acts(a, row, step, status, v, now, after) {
        ActsOnce(a, row, step, status, v, now, outcome.value, after);
      }
    } else if x :| Acts(a, row, step, status, v, now, x) {
      ActsOnlyAdmitted(a, row, step, status, v, now, x);
    }
  }

  lemma ActsOnlyAdmitted(a: Action, row: Onboarding, step: Step, status: Status, v: View, now: int, after: Onboarding)
    requires Acts(a, row, step, status, v, now, after)
    ensures Admitted(a, row, step, status, v)
  {
  }

  /** The row as it is created. */
  const FRESH := Onboarding([], [], GitHub, NotStarted, None, None, None, 0)

  ghost predicate Continued(rows: seq<Onboarding>, i: int, v: View, now: int)
    requires 0 <= i < |rows| - 1
  {
    Acts(Continue, rows[i], rows[i].current, rows[i].status, v, now, rows[i + 1])
  }

  lemma {:induction false} ContinuesWalk(rows: seq<Onboarding>, v: View, now: int, i: nat)
    requires |rows| == 8 && rows[0] == FRESH && forall k :: 0 <= k < 7 ==> Continued(rows, k, v, now)
    requires i < 7
    ensures rows[i].current == STEPS[i] && rows[i].skipped == []
    ensures forall s :: s in rows[i].completed <==> Index(s) < i
  {
    if i > 0 {
      ContinuesWalk(rows, v, now, i - 1);
      assert Continued(rows, i - 1, v, now);
      NoMembers(rows[i].skipped);
    }
  }

  lemma NoMembers(steps: seq<Step>)
    ensures (forall s :: s !in steps) <==> steps == []
  {
    if steps != [] {
      assert steps[0] in steps;
    }
  }

  /** From a fresh row, seven times "continue" goes through all the steps in order and completes the onboarding. */
  lemma SevenContinues(rows: seq<Onboarding>, v: View, now: int)
    requires |rows| == 8 && rows[0] == FRESH && forall k :: 0 <= k < 7 ==> Continued(rows, k, v, now)
    ensures rows[1].current == Repository && rows[2].current == Pipeline && rows[3].current == Linear
    ensures rows[4].current == Sandbox && rows[5].current == Runtime && rows[6].current == Verify
    ensures rows[7].status == Completed && rows[7].completedAt == Some(now) && rows[7].skipped == []
    ensures rows[7].completed == [GitHub, Repository, Pipeline, Linear, Sandbox, Runtime, Verify]
  {
    ContinuesWalk(rows, v, now, 1);
    ContinuesWalk(rows, v, now, 2);
    ContinuesWalk(rows, v, now, 3);
    ContinuesWalk(rows, v, now, 4);
    ContinuesWalk(rows, v, now, 5);
    ContinuesWalk(rows, v, now, 6);
    assert Continued(rows, 6, v, now);
    LastContinue(rows[6], v, now, rows[7]);
  }

  lemma LastContinue(row: Onboarding, v: View, now: int, after: Onboarding)
    requires row.current == Verify && row.skipped == [] && forall s :: s in row.completed <==> Index(s) < 6
    requires Acts(Continue, row, Verify, row.status, v, now, after)
    ensures Ends(after, now) && after.skipped == [] && after.completed == STEPS
  {
    NoMembers(after.skipped);
    AllSteps();
    OrderedAreEqual(after.completed, STEPS);
  }

  // ----- the client takes in a reply -----

  /** The step state of a row, as replies carry it. */
  datatype Reply = Accepted(row: Onboarding) | Conflict(row: Onboarding) | Failure

  /** reduceOnboardingMutationData, on the onboarding part. */
  function Reduce(copy: Onboarding, r: Reply): Onboarding {
    match r
    case Failure => copy
    case Accepted(row) => copy.(completed := row.completed, skipped := row.skipped, current := row.current,
                                status := row.status, repository := row.repository, dismissedAt := row.dismissedAt,
                                completedAt := row.completedAt, version := row.version)
    case Conflict(row) => copy.(completed := row.completed, skipped := row.skipped, current := row.current,
                                status := row.status, repository := row.repository, dismissedAt := row.dismissedAt,
                                completedAt := row.completedAt, version := row.version)
  }

  /** After an accept or a conflict nothing is left of the client's own idea of the steps. */
  lemma ReplyReplacesCopy(copy: Onboarding, r: Reply)
    requires !r.Failure?
    ensures Reduce(copy, r) == r.row
  {
  }

  /** Selecting a step in the client, before or without a request. */
  function SelectStep(copy: Onboarding, step: Step, canManage: bool): Onboarding {
    if copy.current == step then copy
    else copy.(current := step, status := if canManage && copy.status != Completed then InProgress else copy.status)
  }

  /** An action sent after a step was selected is about that step, unless it ends or chooses something. */
  lemma SelectedStepCounts(row: Onboarding, step: Step, canManage: bool, v: View, now: int, after: Onboarding)
    requires Valid(row)
    requires var shown := SelectStep(row, step, canManage);
      Atomically(row, Continue, shown.current, shown.status, v, now) == Some(after)
    ensures CompletesStep(row, step, after) && (step != Verify ==> Successor(step, after.current))
    ensures var shown := SelectStep(row, step, canManage);
      shown.version == row.version && KeepsLists(row, shown)
      && (shown.status == row.status || (canManage && row.status != Completed && shown.status == InProgress))
  {
    var shown := SelectStep(row, step, canManage);
    AtomicallyActs(Continue, row, shown.current, shown.status, v, now, after);
  }

  // ----- what single actions do to the record -----

  /** Skipping and then completing the same step leaves it completed and not skipped, and the other way round. */
  lemma LastVerdictWins(o: Onboarding, step: Step)
    requires Valid(o) && step in SKIPPABLE
    ensures var skipped := SkipPatch(o.(current := step)).value;
      && (forall s :: s in skipped.skipped.value <==> s in o.skipped || s == step)
      && (forall s :: s in skipped.completed.value <==> s in o.completed && s != step)
    ensures var completed := ContinuePatch(o.(current := step));
      && (forall s :: s in completed.completed.value <==> s in o.completed || s == step)
      && (forall s :: s in completed.skipped.value <==> s in o.skipped && s != step)
  {
    AppendedSteps(o.skipped, step);
    AppendedSteps(o.completed, step);
    FilteredSteps(o.completed, (s: Step) => s != step);
    FilteredSteps(o.skipped, (s: Step) => s != step);
  }
}
