/**
 The `checks` verdict of `collectPrVerification` (src/features/github/pr-verification-api.ts): the loop
 over required checks, and what it means to pass.
 */
module ChecksVerdict {
  import opened Common
  import opened PrEvidence

  const ALLOWED_EVENTS: set<string> := {
    "push", "pull_request", "pull_request_review", "pull_request_target", "deployment", "deployment_status"
  }

  const DAY_MS: int := 86_400_000

  /** `recent`: at most five seconds ahead, at most seven days old. */
  predicate Recent(at: Option<int>, now: int) {
    at.Some? && at.value <= now + 5000 && at.value >= now - 7 * DAY_MS
  }

  predicate MatchesCheck(required: Required, check: CheckRun) {
    check.name == required.context && (required.appId.None? || check.appId == required.appId.value)
  }

  /** The workflow run at position `i` is the first of the check suite. */
  ghost predicate FirstOfSuite(workflows: seq<Workflow>, suite: Option<int>, i: int) {
    && 0 <= i < |workflows| && suite.Some? && workflows[i].suite == suite
    && forall j :: 0 <= j < i ==> workflows[j].suite != suite
  }

  /** `workflows.find(...)`: an absent suite id on the check matches no run. */
  function WorkflowOf(workflows: seq<Workflow>, suite: Option<int>): (r: Option<Workflow>)
    ensures r.Some? ==> exists i :: FirstOfSuite(workflows, suite, i) && r.value == workflows[i]
    ensures r.None? ==> suite.None? || forall w :: w in workflows ==> w.suite != suite
  {
    if workflows == [] || suite.None? then None
    else if workflows[0].suite == suite then
      assert FirstOfSuite(workflows, suite, 0);
      Some(workflows[0])
    else
      var r := WorkflowOf(workflows[1..], suite);
      assert r.Some? ==> exists i :: FirstOfSuite(workflows, suite, i) && r.value == workflows[i] by {
        if i :| r.Some? && FirstOfSuite(workflows[1..], suite, i) && r.value == workflows[1..][i] {
          assert FirstOfSuite(workflows, suite, i + 1);
        }
      }
      r
  }

  function Found(outcome: Outcome, code: string, required: Required): Finding {
    Finding(outcome, Blocker(code, if required.context == "" then None else Some(required.context)))
  }

  // ----- What each piece of evidence says against a requirement -----

  function ResultFindings(required: Required, check: CheckRun, now: int): seq<Finding> {
    if check.status != Completed then [Found(Checking, "github_required_check_pending", required)]
    else if check.conclusion !in {Some("success"), Some("neutral"), Some("skipped")} then
      [Found(Blocked, "github_required_check_failed", required)]
    else if !Recent(check.completedAt, now) then [Found(Unknown, "github_required_check_stale", required)]
    else []
  }

  function ProvenanceFindings(required: Required, check: CheckRun, workflows: seq<Workflow>): seq<Finding> {
    if check.appSlug != "github-actions" then []
    else
      var workflow := WorkflowOf(workflows, check.suite);
      if workflow.None? then [Found(Unknown, "github_actions_provenance_unknown", required)]
      else if workflow.value.event !in ALLOWED_EVENTS then [Found(Blocked, "github_actions_event_ineligible", required)]
      else []
  }

  function SourceFindings(required: Required): seq<Finding> {
    if required.appId.Some? then [Found(Unknown, "github_required_status_source_unknown", required)] else []
  }

  function StateFindings(required: Required, status: CommitStatus, now: int): seq<Finding> {
    if status.state == "pending" then [Found(Checking, "github_required_status_pending", required)]
    else if status.state != "success" then [Found(Blocked, "github_required_status_failed", required)]
    else if !Recent(Some(status.updatedAt), now) then [Found(Unknown, "github_required_status_stale", required)]
    else []
  }

  function CheckFindings(required: Required, check: CheckRun, ev: Evidence, now: int): seq<Finding> {
    if MatchesCheck(required, check)
    then ResultFindings(required, check, now) + ProvenanceFindings(required, check, ev.workflows)
    else []
  }

  function StatusFindings(required: Required, status: CommitStatus, now: int): seq<Finding> {
    if status.context == required.context then SourceFindings(required) + StateFindings(required, status, now) else []
  }

  function MissingFindings(required: Required, ev: Evidence): seq<Finding> {
    if (forall c :: c in ev.checkRuns ==> !MatchesCheck(required, c))
       && (required.appId.Some? || forall s :: s in ev.statuses ==> s.context != required.context)
    then [Found(Checking, "github_required_check_missing", required)]
    else []
  }

  function AllCheckFindings(required: Required, checks: seq<CheckRun>, ev: Evidence, now: int): seq<Finding> {
    if checks == [] then []
    else
      AllCheckFindings(required, checks[..|checks| - 1], ev, now)
      + CheckFindings(required, checks[|checks| - 1], ev, now)
  }

  function AllStatusFindings(required: Required, statuses: seq<CommitStatus>, now: int): seq<Finding> {
    if statuses == [] then []
    else
      AllStatusFindings(required, statuses[..|statuses| - 1], now)
      + StatusFindings(required, statuses[|statuses| - 1], now)
  }

  function RequirementFindings(required: Required, ev: Evidence, now: int): seq<Finding> {
    MissingFindings(required, ev) + AllCheckFindings(required, ev.checkRuns, ev, now)
    + AllStatusFindings(required, ev.statuses, now)
  }

  function EmptyFindings(ev: Evidence): seq<Finding> {
    if ev.checkRuns == [] && ev.statuses == [] then [Finding(Unknown, Blocker("github_checks_empty", None))] else []
  }

  function Findings(required: seq<Required>, ev: Evidence, now: int): seq<Finding> {
    if required == [] then EmptyFindings(ev)
    else Findings(required[..|required| - 1], ev, now) + RequirementFindings(required[|required| - 1], ev, now)
  }

  /** The verdict, given whether branch protection could be verified. */
  function ChecksOutcome(required: seq<Required>, ev: Evidence, verified: bool, now: int): Outcome {
    Lower(Worst(Passed, Findings(required, ev, now)), if verified then Passed else Unknown)
  }

  // ----- The loop -----

  /** What `lower` and `add` have recorded so far is the worst and the list of the findings so far. */
  ghost predicate Records(checks: Outcome, blockers: seq<Blocker>, findings: seq<Finding>) {
    checks == Worst(Passed, findings) && blockers == BlockersOf(findings)
  }

  /** `lower(outcome); add(code, required.context)` for each finding of one piece of evidence. */
  method Record(checks0: Outcome, blockers0: seq<Blocker>, more: seq<Finding>, ghost findings: seq<Finding>)
    returns (checks: Outcome, blockers: seq<Blocker>)
    requires Records(checks0, blockers0, findings)
    ensures Records(checks, blockers, findings + more)
  {
    checks, blockers := checks0, blockers0;
    assert findings + more[..0] == findings;
    for i := 0 to |more|
      invariant Records(checks, blockers, findings + more[..i])
    {
      checks := Lower(checks, more[i].outcome);
      blockers := blockers + [more[i].blocker];
      ghost var longer := findings + more[..i + 1];
      assert longer[..|longer| - 1] == findings + more[..i];
    }
    assert more[..|more|] == more;
  }

  /** The `checks` verdict and its blockers, as requirements and evidence have it. */
  method EvaluateChecks(required: seq<Required>, ev: Evidence, verified: bool, now: int)
    returns (checks: Outcome, blockers: seq<Blocker>)
    ensures checks == ChecksOutcome(required, ev, verified, now)
    ensures blockers == BlockersOf(Findings(required, ev, now))
    ensures ChecksSay(required, ev, verified, now, checks)
    ensures forall b :: b in blockers <==> ChecksBlocker(required, ev, now, b)
  {
    checks, blockers := EvaluateAll(required, ev, verified, now);
    ChecksSayIff(required, ev, verified, now);
    forall b ensures b in blockers <==> ChecksBlocker(required, ev, now, b) {
      ChecksBlockersAre(required, ev, now, b);
    }
  }

  /** The loops themselves: the worst and the list of all findings. */
  method EvaluateAll(required: seq<Required>, ev: Evidence, verified: bool, now: int)
    returns (checks: Outcome, blockers: seq<Blocker>)
    ensures checks == ChecksOutcome(required, ev, verified, now)
    ensures blockers == BlockersOf(Findings(required, ev, now))
  {
    checks, blockers := Record(Passed, [], EmptyFindings(ev), []);
    assert [] + EmptyFindings(ev) == EmptyFindings(ev);
    for i := 0 to |required|
      invariant Records(checks, blockers, Findings(required[..i], ev, now))
    {
      checks, blockers := EvaluateOne(required[i], ev, now, checks, blockers, Findings(required[..i], ev, now));
      ghost var longer := required[..i + 1];
      assert longer[..|longer| - 1] == required[..i] && longer[|longer| - 1] == required[i];
    }
    assert required[..|required|] == required;
    if !verified {
      checks := Lower(checks, Unknown);
    }
  }

  method EvaluateOne(required: Required, ev: Evidence, now: int, checks0: Outcome, blockers0: seq<Blocker>,
                     ghost findings: seq<Finding>)
    returns (checks: Outcome, blockers: seq<Blocker>)
    requires Records(checks0, blockers0, findings)
    ensures Records(checks, blockers, findings + RequirementFindings(required, ev, now))
  {
    ghost var base := findings + MissingFindings(required, ev);
    checks, blockers := Record(checks0, blockers0, MissingFindings(required, ev), findings);
    checks, blockers := EvaluateCheckRuns(required, ev, now, checks, blockers, base);
    ghost var base2 := base + AllCheckFindings(required, ev.checkRuns, ev, now);
    checks, blockers := EvaluateStatuses(required, ev.statuses, now, checks, blockers, base2);
    Regroup(findings, MissingFindings(required, ev), AllCheckFindings(required, ev.checkRuns, ev, now),
            AllStatusFindings(required, ev.statuses, now));
  }

  lemma Regroup<T>(a: seq<T>, b: seq<T>, c: seq<T>, d: seq<T>)
    ensures a + (b + c + d) == a + b + c + d
  {
  }

  method EvaluateCheckRuns(required: Required, ev: Evidence, now: int, checks0: Outcome, blockers0: seq<Blocker>,
                           ghost base: seq<Finding>)
    returns (checks: Outcome, blockers: seq<Blocker>)
    requires Records(checks0, blockers0, base)
    ensures Records(checks, blockers, base + AllCheckFindings(required, ev.checkRuns, ev, now))
  {
    checks, blockers := checks0, blockers0;
    ghost var soFar := base;
    assert base == base + AllCheckFindings(required, ev.checkRuns[..0], ev, now);
    for i := 0 to |ev.checkRuns|
      invariant soFar == base + AllCheckFindings(required, ev.checkRuns[..i], ev, now)
      invariant Records(checks, blockers, soFar)
    {
      checks, blockers := Record(checks, blockers, CheckFindings(required, ev.checkRuns[i], ev, now), soFar);
      soFar := soFar + CheckFindings(required, ev.checkRuns[i], ev, now);
      CheckFindingsStep(required, ev, now, i, base);
    }
    FullPrefix(ev.checkRuns);
  }

  lemma CheckFindingsStep(required: Required, ev: Evidence, now: int, i: nat, base: seq<Finding>)
    requires i < |ev.checkRuns|
    ensures base + AllCheckFindings(required, ev.checkRuns[..i + 1], ev, now)
         == base + AllCheckFindings(required, ev.checkRuns[..i], ev, now)
           + CheckFindings(required, ev.checkRuns[i], ev, now)
  {
    var longer := ev.checkRuns[..i + 1];
    assert longer[..|longer| - 1] == ev.checkRuns[..i] && longer[|longer| - 1] == ev.checkRuns[i];
  }

  method EvaluateStatuses(required: Required, statuses: seq<CommitStatus>, now: int, checks0: Outcome,
                          blockers0: seq<Blocker>, ghost base: seq<Finding>)
    returns (checks: Outcome, blockers: seq<Blocker>)
    requires Records(checks0, blockers0, base)
    ensures Records(checks, blockers, base + AllStatusFindings(required, statuses, now))
  {
    checks, blockers := checks0, blockers0;
    ghost var soFar := base;
    assert base == base + AllStatusFindings(required, statuses[..0], now);
    for i := 0 to |statuses|
      invariant soFar == base + AllStatusFindings(required, statuses[..i], now)
      invariant Records(checks, blockers, soFar)
    {
      checks, blockers := Record(checks, blockers, StatusFindings(required, statuses[i], now), soFar);
      soFar := soFar + StatusFindings(required, statuses[i], now);
      StatusFindingsStep(required, statuses, now, i, base);
    }
    FullPrefix(statuses);
  }

  lemma StatusFindingsStep(required: Required, statuses: seq<CommitStatus>, now: int, i: nat, base: seq<Finding>)
    requires i < |statuses|
    ensures base + AllStatusFindings(required, statuses[..i + 1], now)
         == base + AllStatusFindings(required, statuses[..i], now) + StatusFindings(required, statuses[i], now)
  {
    var longer := statuses[..i + 1];
    assert longer[..|longer| - 1] == statuses[..i] && longer[|longer| - 1] == statuses[i];
  }

  // ----- What the verdict means -----

  /** A check run satisfies the requirement: complete, successful, recent, and from an eligible workflow run. */
  ghost predicate GoodCheck(check: CheckRun, workflows: seq<Workflow>, now: int) {
    && check.status == Completed
    && check.conclusion in {Some("success"), Some("neutral"), Some("skipped")}
    && Recent(check.completedAt, now)
    && (check.appSlug == "github-actions" ==>
          var w := WorkflowOf(workflows, check.suite);
          w.Some? && w.value.event in ALLOWED_EVENTS)
  }

  /** A status satisfies a requirement that does not name an App: a status cannot prove which App wrote it. */
  ghost predicate GoodStatus(required: Required, status: CommitStatus, now: int) {
    required.appId.None? && status.state == "success" && Recent(Some(status.updatedAt), now)
  }

  /** A requirement is met: there is evidence from a source that counts, and all matching evidence is good. */
  ghost predicate Met(required: Required, ev: Evidence, now: int) {
    && ((exists c :: c in ev.checkRuns && MatchesCheck(required, c))
        || (required.appId.None? && exists s :: s in ev.statuses && s.context == required.context))
    && (forall c :: c in ev.checkRuns && MatchesCheck(required, c) ==> GoodCheck(c, ev.workflows, now))
    && (forall s :: s in ev.statuses && s.context == required.context ==> GoodStatus(required, s, now))
  }

  lemma {:induction false} CheckFindingsMembers(required: Required, checks: seq<CheckRun>, ev: Evidence, now: int,
                                                f: Finding)
    ensures f in AllCheckFindings(required, checks, ev, now)
       <==> exists c :: c in checks && f in CheckFindings(required, c, ev, now)
  {
    if checks != [] {
      CheckFindingsMembers(required, checks[..|checks| - 1], ev, now, f);
      assert checks == checks[..|checks| - 1] + [checks[|checks| - 1]];
    }
  }

  lemma {:induction false} StatusFindingsMembers(required: Required, statuses: seq<CommitStatus>, now: int, f: Finding)
    ensures f in AllStatusFindings(required, statuses, now)
       <==> exists s :: s in statuses && f in StatusFindings(required, s, now)
  {
    if statuses != [] {
      StatusFindingsMembers(required, statuses[..|statuses| - 1], now, f);
      assert statuses == statuses[..|statuses| - 1] + [statuses[|statuses| - 1]];
    }
  }

  /** `f` is one of the things that the evidence says against the requirement. */
  ghost predicate Against(required: Required, ev: Evidence, now: int, f: Finding) {
    || f in MissingFindings(required, ev)
    || (exists c :: c in ev.checkRuns && f in CheckFindings(required, c, ev, now))
    || (exists s :: s in ev.statuses && f in StatusFindings(required, s, now))
  }

  lemma RequirementMembers(required: Required, ev: Evidence, now: int, f: Finding)
    ensures f in RequirementFindings(required, ev, now) <==> Against(required, ev, now, f)
  {
    CheckFindingsMembers(required, ev.checkRuns, ev, now, f);
    StatusFindingsMembers(required, ev.statuses, now, f);
  }

  lemma {:induction false} FindingsMembers(required: seq<Required>, ev: Evidence, now: int, f: Finding)
    ensures f in Findings(required, ev, now)
       <==> f in EmptyFindings(ev) || exists r :: r in required && Against(r, ev, now, f)
  {
    if required != [] {
      var last := required[|required| - 1];
      FindingsMembers(required[..|required| - 1], ev, now, f);
      assert required == required[..|required| - 1] + [last];
      RequirementMembers(last, ev, now, f);
      assert f in Findings(required, ev, now)
        <==> f in Findings(required[..|required| - 1], ev, now) || f in RequirementFindings(last, ev, now);
    }
  }

  /** The evidence of a check run says nothing against the requirement exactly when it is good or does not match. */
  lemma GoodCheckIffSilent(required: Required, check: CheckRun, ev: Evidence, now: int)
    ensures CheckFindings(required, check, ev, now) == []
       <==> (MatchesCheck(required, check) ==> GoodCheck(check, ev.workflows, now))
  {
  }

  lemma GoodStatusIffSilent(required: Required, status: CommitStatus, now: int)
    ensures StatusFindings(required, status, now) == []
       <==> (status.context == required.context ==> GoodStatus(required, status, now))
  {
  }

  /** Findings that speak against the requirement, if there are any, show that something does. */
  lemma SomethingAgainst(required: Required, ev: Evidence, now: int, s: seq<Finding>)
    requires forall f :: f in s ==> Against(required, ev, now, f)
    ensures s == [] || exists f :: Against(required, ev, now, f)
  {
    if s != [] {
      assert s[0] in s;
    }
  }

  /** If nothing speaks against a requirement, it is met. */
  lemma NothingAgainstMeansMet(required: Required, ev: Evidence, now: int)
    ensures Met(required, ev, now) || exists f :: Against(required, ev, now, f)
  {
    forall c | c in ev.checkRuns && MatchesCheck(required, c)
      ensures GoodCheck(c, ev.workflows, now) || exists f :: Against(required, ev, now, f)
    {
      GoodCheckIffSilent(required, c, ev, now);
      SomethingAgainst(required, ev, now, CheckFindings(required, c, ev, now));
    }
    forall s | s in ev.statuses && s.context == required.context
      ensures GoodStatus(required, s, now) || exists f :: Against(required, ev, now, f)
    {
      GoodStatusIffSilent(required, s, now);
      SomethingAgainst(required, ev, now, StatusFindings(required, s, now));
    }
    SomethingAgainst(required, ev, now, MissingFindings(required, ev));
  }

  /** Nothing speaks against a requirement exactly when it is met. */
  lemma MetIffNothingAgainst(required: Required, ev: Evidence, now: int)
    ensures Met(required, ev, now) <==> forall f :: !Against(required, ev, now, f)
  {
    NothingAgainstMeansMet(required, ev, now);
    forall c | c in ev.checkRuns
      ensures (MatchesCheck(required, c) ==> GoodCheck(c, ev.workflows, now)) ==>
                CheckFindings(required, c, ev, now) == []
    {
      GoodCheckIffSilent(required, c, ev, now);
    }
    forall s | s in ev.statuses
      ensures (s.context == required.context ==> GoodStatus(required, s, now)) ==>
                StatusFindings(required, s, now) == []
    {
      GoodStatusIffSilent(required, s, now);
    }
  }

  /** No contribution is "passed": each one makes the verdict worse than that. */
  lemma AgainstIsBad(required: Required, ev: Evidence, now: int, f: Finding)
    requires Against(required, ev, now, f)
    ensures f.outcome != Passed
  {
    if c :| c in ev.checkRuns && f in CheckFindings(required, c, ev, now) {
      CheckFindingIsBad(required, c, ev, now, f);
    } else if s :| s in ev.statuses && f in StatusFindings(required, s, now) {
      StatusFindingIsBad(required, s, now, f);
    }
  }

  lemma CheckFindingIsBad(required: Required, check: CheckRun, ev: Evidence, now: int, f: Finding)
    requires f in CheckFindings(required, check, ev, now)
    ensures f.outcome != Passed
  {
  }

  lemma StatusFindingIsBad(required: Required, status: CommitStatus, now: int, f: Finding)
    requires f in StatusFindings(required, status, now)
    ensures f.outcome != Passed
  {
  }

  /** There is evidence, and every requirement is met by it. */
  ghost predicate AllMet(required: seq<Required>, ev: Evidence, now: int) {
    (ev.checkRuns != [] || ev.statuses != []) && forall r :: r in required ==> Met(r, ev, now)
  }

  lemma RequirementSilentIffMet(required: Required, ev: Evidence, now: int)
    ensures RequirementFindings(required, ev, now) == [] <==> Met(required, ev, now)
  {
    MetIffNothingAgainst(required, ev, now);
    var all := RequirementFindings(required, ev, now);
    if all != [] {
      RequirementMembers(required, ev, now, all[0]);
    } else {
      forall f
        ensures !Against(required, ev, now, f)
      {
        RequirementMembers(required, ev, now, f);
      }
    }
  }

  lemma FindingsStep(rest: seq<Required>, last: Required, ev: Evidence, now: int)
    ensures Findings(rest + [last], ev, now) == Findings(rest, ev, now) + RequirementFindings(last, ev, now)
  {
    assert (rest + [last])[..|rest|] == rest;
  }

  lemma AllMetStep(rest: seq<Required>, last: Required, ev: Evidence, now: int)
    ensures AllMet(rest + [last], ev, now) <==> AllMet(rest, ev, now) && Met(last, ev, now)
  {
    assert last in rest + [last];
    assert forall r :: r in rest ==> r in rest + [last];
  }

  lemma NoFindingsStep(rest: seq<Required>, last: Required, ev: Evidence, now: int)
    requires Findings(rest, ev, now) == [] <==> AllMet(rest, ev, now)
    ensures Findings(rest + [last], ev, now) == [] <==> AllMet(rest + [last], ev, now)
  {
    RequirementSilentIffMet(last, ev, now);
    FindingsStep(rest, last, ev, now);
    AllMetStep(rest, last, ev, now);
  }

  /** The checks produce no blocker exactly when every requirement is met by the evidence there is. */
  lemma {:induction false} NoFindingsIffMet(required: seq<Required>, ev: Evidence, now: int)
    ensures Findings(required, ev, now) == [] <==> AllMet(required, ev, now)
  {
    if required != [] {
      var rest, last := required[..|required| - 1], required[|required| - 1];
      assert required == rest + [last];
      NoFindingsIffMet(rest, ev, now);
      NoFindingsStep(rest, last, ev, now);
    }
  }

  lemma FindingsAreBad(required: seq<Required>, ev: Evidence, now: int)
    ensures forall f :: f in Findings(required, ev, now) ==> f.outcome != Passed
  {
    forall f | f in Findings(required, ev, now)
      ensures f.outcome != Passed
    {
      FindingsMembers(required, ev, now, f);
      if f !in EmptyFindings(ev) {
        var r :| r in required && Against(r, ev, now, f);
        AgainstIsBad(r, ev, now, f);
      }
    }
  }

  /** `checks` is "passed" exactly if there is evidence, protection is verified and every requirement is met. */
  lemma PassedIffMet(required: seq<Required>, ev: Evidence, verified: bool, now: int)
    ensures ChecksOutcome(required, ev, verified, now) == Passed <==> verified && AllMet(required, ev, now)
  {
    NoFindingsIffMet(required, ev, now);
    FindingsAreBad(required, ev, now);
    var all := Findings(required, ev, now);
    WorstIsMaximum(Passed, all);
    if all != [] {
      assert all[0] in all;
    }
  }

  /** Some requirement has `f` against it. */
  ghost predicate SomeAgainst(required: seq<Required>, ev: Evidence, now: int, f: Finding) {
    exists r :: r in required && Against(r, ev, now, f)
  }

  /** `o` is a contribution to the verdict. */
  ghost predicate Contributes(required: seq<Required>, ev: Evidence, verified: bool, now: int, o: Outcome) {
    || (!verified && o == Unknown)
    || (ev.checkRuns == [] && ev.statuses == [] && o == Unknown)
    || (exists f :: SomeAgainst(required, ev, now, f) && f.outcome == o)
  }

  /** A finding of any requirement, and the lack of evidence, contribute at most the worst outcome. */
  lemma FindingBelowWorst(required: seq<Required>, ev: Evidence, now: int, f: Finding)
    requires f in EmptyFindings(ev) || SomeAgainst(required, ev, now, f)
    ensures Rank(f.outcome) <= Rank(Worst(Passed, Findings(required, ev, now)))
  {
    FindingsMembers(required, ev, now, f);
    WorstIsMaximum(Passed, Findings(required, ev, now));
  }

  lemma FindingContributes(required: seq<Required>, ev: Evidence, now: int, f: Finding)
    requires f in Findings(required, ev, now)
    ensures Contributes(required, ev, true, now, f.outcome)
  {
    FindingsMembers(required, ev, now, f);
    if f !in EmptyFindings(ev) {
      assert SomeAgainst(required, ev, now, f);
    }
  }

  lemma WorstContributes(required: seq<Required>, ev: Evidence, now: int)
    ensures var worst := Worst(Passed, Findings(required, ev, now));
            worst == Passed || Contributes(required, ev, true, now, worst)
  {
    var all := Findings(required, ev, now);
    WorstIsMaximum(Passed, all);
    if Worst(Passed, all) != Passed {
      var f :| f in all && f.outcome == Worst(Passed, all);
      FindingContributes(required, ev, now, f);
    }
  }

  lemma FindingBelowChecks(required: seq<Required>, ev: Evidence, verified: bool, now: int, f: Finding)
    requires f in EmptyFindings(ev) || SomeAgainst(required, ev, now, f)
    ensures Rank(f.outcome) <= Rank(ChecksOutcome(required, ev, verified, now))
  {
    FindingBelowWorst(required, ev, now, f);
    LowerBounds(Worst(Passed, Findings(required, ev, now)), if verified then Passed else Unknown);
  }

  lemma LowerBounds(a: Outcome, b: Outcome)
    ensures Rank(a) <= Rank(Lower(a, b)) && Rank(b) <= Rank(Lower(a, b))
  {
  }

  lemma ContributionBelow(required: seq<Required>, ev: Evidence, verified: bool, now: int, o: Outcome)
    requires Contributes(required, ev, verified, now, o)
    ensures Rank(o) <= Rank(ChecksOutcome(required, ev, verified, now))
  {
    if !verified && o == Unknown {
      LowerBounds(Worst(Passed, Findings(required, ev, now)), Unknown);
    } else if ev.checkRuns == [] && ev.statuses == [] && o == Unknown {
      FindingBelowChecks(required, ev, verified, now, EmptyFindings(ev)[0]);
    } else {
      var f :| SomeAgainst(required, ev, now, f) && f.outcome == o;
      FindingBelowChecks(required, ev, verified, now, f);
    }
  }

  /** `checks` is the maximum of all contributions under passed < checking < blocked < unknown. */
  lemma ChecksIsMaximum(required: seq<Required>, ev: Evidence, verified: bool, now: int)
    ensures var checks := ChecksOutcome(required, ev, verified, now);
            && (checks == Passed || Contributes(required, ev, verified, now, checks))
            && (forall o :: Contributes(required, ev, verified, now, o) ==> Rank(o) <= Rank(checks))
  {
    WorstContributes(required, ev, now);
    forall o | Contributes(required, ev, verified, now, o)
      ensures Rank(o) <= Rank(ChecksOutcome(required, ev, verified, now))
    {
      ContributionBelow(required, ev, verified, now, o);
    }
  }

  /** More requirements never improve the verdict, wherever they are inserted. */
  lemma MoreRequirementsNeverImprove(some: seq<Required>, more: seq<Required>, ev: Evidence, verified: bool, now: int)
    requires forall r :: r in some ==> r in more
    ensures Rank(ChecksOutcome(some, ev, verified, now)) <= Rank(ChecksOutcome(more, ev, verified, now))
  {
    ChecksIsMaximum(some, ev, verified, now);
    ChecksIsMaximum(more, ev, verified, now);
    var o := ChecksOutcome(some, ev, verified, now);
    if f :| SomeAgainst(some, ev, now, f) && f.outcome == o {
      var r :| r in some && Against(r, ev, now, f);
      assert SomeAgainst(more, ev, now, f);
      assert Contributes(more, ev, verified, now, o);
    } else if o != Passed {
      assert Contributes(more, ev, verified, now, o);
    }
  }

  // ----- Which outcome and which blocker each fact gives, in the fields of the evidence -----

  /** The check run is one that the requirement asks for. */
  ghost predicate AskedFor(r: Required, c: CheckRun) {
    c.name == r.context && (r.appId == None || r.appId == Some(c.appId))
  }

  ghost predicate Succeeded(c: CheckRun) {
    c.conclusion == Some("success") || c.conclusion == Some("neutral") || c.conclusion == Some("skipped")
  }

  /** No time, a time more than five seconds ahead, or more than a week ago. */
  ghost predicate OutOfDate(at: Option<int>, now: int) {
    at == None || at.value - now > 5_000 || now - at.value > 604_800_000
  }

  /** The workflow run of the check is not among those listed. */
  ghost predicate Unattributed(c: CheckRun, workflows: seq<Workflow>) {
    c.appSlug == "github-actions" && (c.suite == None || forall w :: w in workflows ==> w.suite != c.suite)
  }

  /** The first workflow run of its suite was started by an event that does not count. */
  ghost predicate WrongEvent(c: CheckRun, workflows: seq<Workflow>) {
    c.appSlug == "github-actions"
    && exists i :: FirstOfSuite(workflows, c.suite, i)
         && workflows[i].event != "push" && workflows[i].event != "pull_request"
         && workflows[i].event != "pull_request_review" && workflows[i].event != "pull_request_target"
         && workflows[i].event != "deployment" && workflows[i].event != "deployment_status"
  }

  /** No check run, and no status that could stand for one, is there for the requirement. */
  ghost predicate Missing(r: Required, ev: Evidence) {
    && (forall c :: c in ev.checkRuns ==> !AskedFor(r, c))
    && (r.appId == None ==> forall s :: s in ev.statuses ==> s.context != r.context)
  }

  /** What a check run that is asked for says, and under which code. */
  ghost predicate CheckSays(c: CheckRun, workflows: seq<Workflow>, now: int, o: Outcome, code: string) {
    || (c.status == Incomplete && o == Checking && code == "github_required_check_pending")
    || (c.status == Completed && !Succeeded(c) && o == Blocked && code == "github_required_check_failed")
    || (c.status == Completed && Succeeded(c) && OutOfDate(c.completedAt, now)
        && o == Unknown && code == "github_required_check_stale")
    || (Unattributed(c, workflows) && o == Unknown && code == "github_actions_provenance_unknown")
    || (WrongEvent(c, workflows) && o == Blocked && code == "github_actions_event_ineligible")
  }

  /** What a status of the required context says, and under which code. */
  ghost predicate StatusSays(r: Required, s: CommitStatus, now: int, o: Outcome, code: string) {
    || (r.appId != None && o == Unknown && code == "github_required_status_source_unknown")
    || (s.state == "pending" && o == Checking && code == "github_required_status_pending")
    || (s.state != "pending" && s.state != "success" && o == Blocked && code == "github_required_status_failed")
    || (s.state == "success" && OutOfDate(Some(s.updatedAt), now)
        && o == Unknown && code == "github_required_status_stale")
  }

  /** What the evidence says about one requirement. */
  ghost predicate EvidenceSays(r: Required, ev: Evidence, now: int, o: Outcome, code: string) {
    || (Missing(r, ev) && o == Checking && code == "github_required_check_missing")
    || (exists c :: c in ev.checkRuns && AskedFor(r, c) && CheckSays(c, ev.workflows, now, o, code))
    || (exists s :: s in ev.statuses && s.context == r.context && StatusSays(r, s, now, o, code))
  }

  ghost predicate NamedFor(f: Finding, r: Required) {
    f.blocker.requirement == if r.context == "" then None else Some(r.context)
  }

  lemma CheckSaysIff(r: Required, c: CheckRun, ev: Evidence, now: int, f: Finding)
    ensures f in CheckFindings(r, c, ev, now)
       <==> AskedFor(r, c) && NamedFor(f, r) && CheckSays(c, ev.workflows, now, f.outcome, f.blocker.code)
  {
    ResultSaysIff(r, c, now, f);
    ProvenanceSaysIff(r, c, ev.workflows, f);
  }

  lemma ResultSaysIff(r: Required, c: CheckRun, now: int, f: Finding)
    ensures f in ResultFindings(r, c, now)
       <==> NamedFor(f, r) && CheckSays(c.(appSlug := ""), [], now, f.outcome, f.blocker.code)
  {
    assert f == Finding(f.outcome, Blocker(f.blocker.code, f.blocker.requirement));
  }

  lemma ProvenanceSaysIff(r: Required, c: CheckRun, workflows: seq<Workflow>, f: Finding)
    ensures f in ProvenanceFindings(r, c, workflows)
       <==> (NamedFor(f, r)
             && ((Unattributed(c, workflows) && f.outcome == Unknown
                  && f.blocker.code == "github_actions_provenance_unknown")
                 || (WrongEvent(c, workflows) && f.outcome == Blocked
                     && f.blocker.code == "github_actions_event_ineligible")))
  {
    assert f == Finding(f.outcome, Blocker(f.blocker.code, f.blocker.requirement));
    forall i, j | FirstOfSuite(workflows, c.suite, i) && FirstOfSuite(workflows, c.suite, j) ensures i == j {
    }
    assert forall i :: FirstOfSuite(workflows, c.suite, i) ==> workflows[i] in workflows;
  }

  lemma StatusSaysIff(r: Required, s: CommitStatus, now: int, f: Finding)
    ensures f in StatusFindings(r, s, now)
       <==> s.context == r.context && NamedFor(f, r) && StatusSays(r, s, now, f.outcome, f.blocker.code)
  {
    assert f == Finding(f.outcome, Blocker(f.blocker.code, f.blocker.requirement));
  }

  lemma MissingSaysIff(r: Required, ev: Evidence, f: Finding)
    ensures f in MissingFindings(r, ev)
       <==> (NamedFor(f, r) && Missing(r, ev)
             && f.outcome == Checking && f.blocker.code == "github_required_check_missing")
  {
    assert f == Finding(f.outcome, Blocker(f.blocker.code, f.blocker.requirement));
  }

  /** Exactly what the evidence says is held against a requirement. */
  lemma AgainstIff(r: Required, ev: Evidence, now: int, f: Finding)
    ensures Against(r, ev, now, f) <==> NamedFor(f, r) && EvidenceSays(r, ev, now, f.outcome, f.blocker.code)
  {
    MissingSaysIff(r, ev, f);
    forall c
      ensures f in CheckFindings(r, c, ev, now)
         <==> AskedFor(r, c) && NamedFor(f, r) && CheckSays(c, ev.workflows, now, f.outcome, f.blocker.code)
    {
      CheckSaysIff(r, c, ev, now, f);
    }
    forall s
      ensures f in StatusFindings(r, s, now)
         <==> s.context == r.context && NamedFor(f, r) && StatusSays(r, s, now, f.outcome, f.blocker.code)
    {
      StatusSaysIff(r, s, now, f);
    }
  }

  /** The evidence leaves a requirement undecided. */
  ghost predicate Undecided(r: Required, ev: Evidence, now: int) {
    || (exists c :: c in ev.checkRuns && AskedFor(r, c)
          && ((c.status == Completed && Succeeded(c) && OutOfDate(c.completedAt, now))
              || Unattributed(c, ev.workflows)))
    || (exists s :: s in ev.statuses && s.context == r.context
          && (r.appId != None || (s.state == "success" && OutOfDate(Some(s.updatedAt), now))))
  }

  /** The evidence shows that a requirement is not met. */
  ghost predicate Failing(r: Required, ev: Evidence, now: int) {
    || (exists c :: c in ev.checkRuns && AskedFor(r, c)
          && ((c.status == Completed && !Succeeded(c)) || WrongEvent(c, ev.workflows)))
    || (exists s :: s in ev.statuses && s.context == r.context && s.state != "pending" && s.state != "success")
  }

  /** Evidence for a requirement is still to come. */
  ghost predicate Unfinished(r: Required, ev: Evidence, now: int) {
    || Missing(r, ev)
    || (exists c :: c in ev.checkRuns && AskedFor(r, c) && c.status == Incomplete)
    || (exists s :: s in ev.statuses && s.context == r.context && s.state == "pending")
  }

  ghost predicate NoEvidence(ev: Evidence) {
    |ev.checkRuns| == 0 && |ev.statuses| == 0
  }

  ghost predicate AnyUndecided(required: seq<Required>, ev: Evidence, verified: bool, now: int) {
    !verified || NoEvidence(ev) || exists r :: r in required && Undecided(r, ev, now)
  }

  ghost predicate AnyFailing(required: seq<Required>, ev: Evidence, now: int) {
    exists r :: r in required && Failing(r, ev, now)
  }

  ghost predicate AnyUnfinished(required: seq<Required>, ev: Evidence, now: int) {
    exists r :: r in required && Unfinished(r, ev, now)
  }

  /** The verdict: unknown before blocked before checking before passed. */
  ghost predicate ChecksSay(required: seq<Required>, ev: Evidence, verified: bool, now: int, checks: Outcome) {
    && (checks == Unknown <==> AnyUndecided(required, ev, verified, now))
    && (checks == Blocked <==> !AnyUndecided(required, ev, verified, now) && AnyFailing(required, ev, now))
    && (checks == Checking <==>
          !AnyUndecided(required, ev, verified, now) && !AnyFailing(required, ev, now)
          && AnyUnfinished(required, ev, now))
  }

  /** Some requirement, or the lack of any evidence, gives this blocker. */
  ghost predicate ChecksBlocker(required: seq<Required>, ev: Evidence, now: int, b: Blocker) {
    || (b == Blocker("github_checks_empty", None) && NoEvidence(ev))
    || (exists r, o :: r in required && b.requirement == (if r.context == "" then None else Some(r.context))
          && EvidenceSays(r, ev, now, o, b.code))
  }

  /** The outcomes that a requirement contributes, each under some code. */
  lemma SaidOutcomes(r: Required, ev: Evidence, now: int)
    ensures (exists code :: EvidenceSays(r, ev, now, Unknown, code)) <==> Undecided(r, ev, now)
    ensures (exists code :: EvidenceSays(r, ev, now, Blocked, code)) <==> Failing(r, ev, now)
    ensures (exists code :: EvidenceSays(r, ev, now, Checking, code)) <==> Unfinished(r, ev, now)
  {
    forall c | c in ev.checkRuns && AskedFor(r, c)
      ensures Unattributed(c, ev.workflows)
              || (c.status == Completed && Succeeded(c) && OutOfDate(c.completedAt, now)) ==>
                exists code :: EvidenceSays(r, ev, now, Unknown, code)
      ensures WrongEvent(c, ev.workflows) || (c.status == Completed && !Succeeded(c)) ==>
                exists code :: EvidenceSays(r, ev, now, Blocked, code)
      ensures c.status == Incomplete ==> exists code :: EvidenceSays(r, ev, now, Checking, code)
    {
      CheckIsHeard(r, c, ev, now);
    }
    forall s | s in ev.statuses && s.context == r.context
      ensures r.appId != None || (s.state == "success" && OutOfDate(Some(s.updatedAt), now)) ==>
                exists code :: EvidenceSays(r, ev, now, Unknown, code)
      ensures s.state != "pending" && s.state != "success" ==> exists code :: EvidenceSays(r, ev, now, Blocked, code)
      ensures s.state == "pending" ==> exists code :: EvidenceSays(r, ev, now, Checking, code)
    {
      StatusIsHeard(r, s, ev, now);
    }
    if Missing(r, ev) {
      assert EvidenceSays(r, ev, now, Checking, "github_required_check_missing");
    }
  }

  lemma CheckCarries(r: Required, c: CheckRun, ev: Evidence, now: int, o: Outcome, code: string)
    requires c in ev.checkRuns && AskedFor(r, c) && CheckSays(c, ev.workflows, now, o, code)
    ensures EvidenceSays(r, ev, now, o, code)
  {
  }

  lemma StatusCarries(r: Required, s: CommitStatus, ev: Evidence, now: int, o: Outcome, code: string)
    requires s in ev.statuses && s.context == r.context && StatusSays(r, s, now, o, code)
    ensures EvidenceSays(r, ev, now, o, code)
  {
  }

  lemma CheckIsHeard(r: Required, c: CheckRun, ev: Evidence, now: int)
    requires c in ev.checkRuns && AskedFor(r, c)
    ensures Unattributed(c, ev.workflows) ||
            (c.status == Completed && Succeeded(c) && OutOfDate(c.completedAt, now)) ==>
              exists code :: EvidenceSays(r, ev, now, Unknown, code)
    ensures WrongEvent(c, ev.workflows) || (c.status == Completed && !Succeeded(c)) ==>
              exists code :: EvidenceSays(r, ev, now, Blocked, code)
    ensures c.status == Incomplete ==> exists code :: EvidenceSays(r, ev, now, Checking, code)
  {
    CheckHasCode(c, ev.workflows, now);
    forall o, code | CheckSays(c, ev.workflows, now, o, code) ensures EvidenceSays(r, ev, now, o, code) {
      CheckCarries(r, c, ev, now, o, code);
    }
  }

  lemma CheckHasCode(c: CheckRun, workflows: seq<Workflow>, now: int)
    ensures Unattributed(c, workflows) || (c.status == Completed && Succeeded(c) && OutOfDate(c.completedAt, now)) ==>
              exists code :: CheckSays(c, workflows, now, Unknown, code)
    ensures WrongEvent(c, workflows) || (c.status == Completed && !Succeeded(c)) ==>
              exists code :: CheckSays(c, workflows, now, Blocked, code)
    ensures c.status == Incomplete ==> exists code :: CheckSays(c, workflows, now, Checking, code)
  {
    if Unattributed(c, workflows) {
      assert CheckSays(c, workflows, now, Unknown, "github_actions_provenance_unknown");
    } else if c.status == Completed && Succeeded(c) && OutOfDate(c.completedAt, now) {
      assert CheckSays(c, workflows, now, Unknown, "github_required_check_stale");
    }
    if WrongEvent(c, workflows) {
      assert CheckSays(c, workflows, now, Blocked, "github_actions_event_ineligible");
    } else if c.status == Completed && !Succeeded(c) {
      assert CheckSays(c, workflows, now, Blocked, "github_required_check_failed");
    }
    if c.status == Incomplete {
      assert CheckSays(c, workflows, now, Checking, "github_required_check_pending");
    }
  }

  lemma StatusHasCode(r: Required, s: CommitStatus, now: int)
    ensures r.appId != None || (s.state == "success" && OutOfDate(Some(s.updatedAt), now)) ==>
              exists code :: StatusSays(r, s, now, Unknown, code)
    ensures s.state != "pending" && s.state != "success" ==> exists code :: StatusSays(r, s, now, Blocked, code)
    ensures s.state == "pending" ==> exists code :: StatusSays(r, s, now, Checking, code)
  {
    if r.appId != None {
      assert StatusSays(r, s, now, Unknown, "github_required_status_source_unknown");
    } else if s.state == "success" && OutOfDate(Some(s.updatedAt), now) {
      assert StatusSays(r, s, now, Unknown, "github_required_status_stale");
    }
    if s.state != "pending" && s.state != "success" {
      assert StatusSays(r, s, now, Blocked, "github_required_status_failed");
    } else if s.state == "pending" {
      assert StatusSays(r, s, now, Checking, "github_required_status_pending");
    }
  }

  lemma StatusIsHeard(r: Required, s: CommitStatus, ev: Evidence, now: int)
    requires s in ev.statuses && s.context == r.context
    ensures r.appId != None || (s.state == "success" && OutOfDate(Some(s.updatedAt), now)) ==>
              exists code :: EvidenceSays(r, ev, now, Unknown, code)
    ensures s.state != "pending" && s.state != "success" ==> exists code :: EvidenceSays(r, ev, now, Blocked, code)
    ensures s.state == "pending" ==> exists code :: EvidenceSays(r, ev, now, Checking, code)
  {
    StatusHasCode(r, s, now);
    forall o, code | StatusSays(r, s, now, o, code) ensures EvidenceSays(r, ev, now, o, code) {
      StatusCarries(r, s, ev, now, o, code);
    }
  }

  /** What is held against a requirement with some outcome is what is said with it, under some code. */
  lemma AgainstWith(r: Required, ev: Evidence, now: int, o: Outcome)
    ensures (exists f :: Against(r, ev, now, f) && f.outcome == o)
       <==> exists code :: EvidenceSays(r, ev, now, o, code)
  {
    if f :| Against(r, ev, now, f) && f.outcome == o {
      AgainstIff(r, ev, now, f);
      assert EvidenceSays(r, ev, now, o, f.blocker.code);
    }
    if code :| EvidenceSays(r, ev, now, o, code) {
      var f := Finding(o, Blocker(code, if r.context == "" then None else Some(r.context)));
      AgainstIff(r, ev, now, f);
      assert Against(r, ev, now, f) && f.outcome == o;
    }
  }

  lemma AgainstOutcomes(r: Required, ev: Evidence, now: int)
    ensures (exists f :: Against(r, ev, now, f) && f.outcome == Unknown) <==> Undecided(r, ev, now)
    ensures (exists f :: Against(r, ev, now, f) && f.outcome == Blocked) <==> Failing(r, ev, now)
    ensures (exists f :: Against(r, ev, now, f) && f.outcome == Checking) <==> Unfinished(r, ev, now)
  {
    SaidOutcomes(r, ev, now);
    AgainstWith(r, ev, now, Unknown);
    AgainstWith(r, ev, now, Blocked);
    AgainstWith(r, ev, now, Checking);
  }

  /** Some requirement contributes an outcome. */
  ghost predicate SomeContributes(required: seq<Required>, ev: Evidence, now: int, o: Outcome) {
    exists f :: SomeAgainst(required, ev, now, f) && f.outcome == o
  }

  lemma SomeContributesIff(required: seq<Required>, ev: Evidence, now: int, o: Outcome)
    ensures SomeContributes(required, ev, now, o)
       <==> exists r :: r in required && exists f :: Against(r, ev, now, f) && f.outcome == o
  {
    if f :| SomeAgainst(required, ev, now, f) && f.outcome == o {
      var r :| r in required && Against(r, ev, now, f);
      assert Against(r, ev, now, f) && f.outcome == o;
    }
    if r :| r in required && exists f :: Against(r, ev, now, f) && f.outcome == o {
      var f :| Against(r, ev, now, f) && f.outcome == o;
      assert SomeAgainst(required, ev, now, f);
    }
  }

  lemma ContributionsAre(required: seq<Required>, ev: Evidence, now: int)
    ensures SomeContributes(required, ev, now, Unknown) <==> exists r :: r in required && Undecided(r, ev, now)
    ensures SomeContributes(required, ev, now, Blocked) <==> AnyFailing(required, ev, now)
    ensures SomeContributes(required, ev, now, Checking) <==> AnyUnfinished(required, ev, now)
  {
    SomeContributesIff(required, ev, now, Unknown);
    SomeContributesIff(required, ev, now, Blocked);
    SomeContributesIff(required, ev, now, Checking);
    forall r | r in required
      ensures (exists f :: Against(r, ev, now, f) && f.outcome == Unknown) <==> Undecided(r, ev, now)
      ensures (exists f :: Against(r, ev, now, f) && f.outcome == Blocked) <==> Failing(r, ev, now)
      ensures (exists f :: Against(r, ev, now, f) && f.outcome == Checking) <==> Unfinished(r, ev, now)
    {
      AgainstOutcomes(r, ev, now);
    }
  }

  lemma ContributesIff(required: seq<Required>, ev: Evidence, verified: bool, now: int)
    ensures Contributes(required, ev, verified, now, Unknown) <==> AnyUndecided(required, ev, verified, now)
    ensures Contributes(required, ev, verified, now, Blocked) <==> AnyFailing(required, ev, now)
    ensures Contributes(required, ev, verified, now, Checking) <==> AnyUnfinished(required, ev, now)
  {
    ContributionsAre(required, ev, now);
    forall o
      ensures Contributes(required, ev, verified, now, o)
         <==> SomeContributes(required, ev, now, o) || (o == Unknown && (!verified || NoEvidence(ev)))
    {
    }
  }

  /** The verdict in terms of requirements, check runs, workflow runs and statuses. */
  lemma ChecksSayIff(required: seq<Required>, ev: Evidence, verified: bool, now: int)
    ensures ChecksSay(required, ev, verified, now, ChecksOutcome(required, ev, verified, now))
  {
    var checks := ChecksOutcome(required, ev, verified, now);
    ChecksIsMaximum(required, ev, verified, now);
    ContributesIff(required, ev, verified, now);
    assert Contributes(required, ev, verified, now, Unknown) ==> Rank(Unknown) <= Rank(checks);
    assert Contributes(required, ev, verified, now, Blocked) ==> Rank(Blocked) <= Rank(checks);
    assert Contributes(required, ev, verified, now, Checking) ==> Rank(Checking) <= Rank(checks);
  }

  lemma BlockerOfFinding(findings: seq<Finding>, b: Blocker)
    ensures b in BlockersOf(findings) <==> exists f :: f in findings && f.blocker == b
  {
    if f :| f in findings && f.blocker == b {
      var i :| 0 <= i < |findings| && findings[i] == f;
      assert BlockersOf(findings)[i] == b;
    }
  }

  /** Each blocker of the checks names a fact of the evidence, and each such fact has its blocker. */
  lemma ChecksBlockersAre(required: seq<Required>, ev: Evidence, now: int, b: Blocker)
    ensures b in BlockersOf(Findings(required, ev, now)) <==> ChecksBlocker(required, ev, now, b)
  {
    BlockerOfFinding(Findings(required, ev, now), b);
    if f :| f in Findings(required, ev, now) && f.blocker == b {
      FindingsMembers(required, ev, now, f);
      if r :| r in required && Against(r, ev, now, f) {
        AgainstIff(r, ev, now, f);
      }
    }
    if NoEvidence(ev) && b == Blocker("github_checks_empty", None) {
      FindingsMembers(required, ev, now, EmptyFindings(ev)[0]);
    } else if r, o :| r in required && b.requirement == (if r.context == "" then None else Some(r.context))
                      && EvidenceSays(r, ev, now, o, b.code) {
      var f := Finding(o, b);
      AgainstIff(r, ev, now, f);
      FindingsMembers(required, ev, now, f);
    }
  }

  /** Two lists hold the same rows. */
  ghost predicate SameRows<T(!new)>(a: seq<T>, b: seq<T>) {
    forall x :: x in a <==> x in b
  }

  /** The workflow runs of one check suite are all eligible or all ineligible. */
  ghost predicate SuitesAgree(workflows: seq<Workflow>) {
    forall v, w :: v in workflows && w in workflows && v.suite == w.suite && v.suite.Some?
      ==> (v.event in ALLOWED_EVENTS <==> w.event in ALLOWED_EVENTS)
  }

  /** For a fixed time the verdict depends only on which requirements and which evidence there are, not on any order. */
  lemma VerdictIgnoresOrder(required: seq<Required>, ev: Evidence, required': seq<Required>, ev': Evidence,
                            verified: bool, now: int)
    requires SameRows(required, required') && SameRows(ev.checkRuns, ev'.checkRuns)
    requires SameRows(ev.statuses, ev'.statuses) && SameRows(ev.workflows, ev'.workflows)
    requires SuitesAgree(ev.workflows)
    ensures ChecksOutcome(required, ev, verified, now) == ChecksOutcome(required', ev', verified, now)
  {
    ChecksIsMaximum(required, ev, verified, now);
    ChecksIsMaximum(required', ev', verified, now);
    forall r, f
      ensures Against(r, ev, now, f) <==> Against(r, ev', now, f)
    {
      SameAgainst(r, ev, ev', now, f);
    }
    assert (ev.checkRuns == [] && ev.statuses == []) <==> (ev'.checkRuns == [] && ev'.statuses == []) by {
      EmptyIsSetwise(ev.checkRuns, ev'.checkRuns);
      EmptyIsSetwise(ev.statuses, ev'.statuses);
    }
    forall o
      ensures Contributes(required, ev, verified, now, o) <==> Contributes(required', ev', verified, now, o)
    {
    }
  }

  lemma EmptyIsSetwise<T(!new)>(a: seq<T>, b: seq<T>)
    requires SameRows(a, b)
    ensures a == [] <==> b == []
  {
    assert a != [] ==> a[0] in b;
    assert b != [] ==> b[0] in a;
  }

  lemma SameAgainst(r: Required, ev: Evidence, ev': Evidence, now: int, f: Finding)
    requires SameRows(ev.checkRuns, ev'.checkRuns) && SameRows(ev.statuses, ev'.statuses)
    requires SameRows(ev.workflows, ev'.workflows) && SuitesAgree(ev.workflows)
    ensures Against(r, ev, now, f) <==> Against(r, ev', now, f)
  {
    forall c: CheckRun
      ensures ProvenanceFindings(r, c, ev.workflows) == ProvenanceFindings(r, c, ev'.workflows)
    {
      var w, w' := WorkflowOf(ev.workflows, c.suite), WorkflowOf(ev'.workflows, c.suite);
      assert w.None? <==> w'.None?;
    }
  }

  /** A check run of suite `suite` that fails in nothing but, possibly, the provenance of its workflow run. */
  function Probe(suite: Option<int>): CheckRun {
    CheckRun(1, "build", "", Completed, Some("success"), Some(0), 7, "github-actions", suite)
  }

  /** When the suite's first workflow run heads the list, its event alone decides about the probe. */
  lemma FirstRunDecides(workflows: seq<Workflow>)
    requires workflows != [] && workflows[0].suite.Some?
    ensures ChecksOutcome([Required("build", None, "policy")], Evidence([Probe(workflows[0].suite)], [], workflows),
                          true, 0)
         == if workflows[0].event in ALLOWED_EVENTS then Passed else Blocked
  {
    var r, c := Required("build", None, "policy"), Probe(workflows[0].suite);
    var ev := Evidence([c], [], workflows);
    assert c in ev.checkRuns && MatchesCheck(r, c);
    assert WorkflowOf(workflows, c.suite) == Some(workflows[0]);
    PassedIffMet([r], ev, true, 0);
    ChecksIsMaximum([r], ev, true, 0);
    if workflows[0].event in ALLOWED_EVENTS {
      assert Met(r, ev, 0);
    } else {
      var f := ProvenanceFindings(r, c, ev.workflows)[0];
      assert Against(r, ev, 0, f) && SomeAgainst([r], ev, 0, f);
      assert Contributes([r], ev, true, 0, Blocked);
      assert !Contributes([r], ev, true, 0, Unknown);
    }
  }

  /** If the runs of one suite disagree, some order of the runs changes the verdict. */
  lemma DisagreementShows(workflows: seq<Workflow>)
    returns (required: seq<Required>, checkRuns: seq<CheckRun>, other: seq<Workflow>)
    requires !SuitesAgree(workflows)
    ensures Reordering(workflows, other)
    ensures ChecksOutcome(required, Evidence(checkRuns, [], workflows), true, 0)
         != ChecksOutcome(required, Evidence(checkRuns, [], other), true, 0)
  {
    var v, w :| v in workflows && w in workflows && v.suite == w.suite && v.suite.Some?
                && (v.event in ALLOWED_EVENTS) != (w.event in ALLOWED_EVENTS);
    var first := BringToFront(workflows, v);
    var second := BringToFront(workflows, w);
    FirstRunDecides(first);
    FirstRunDecides(second);
    required, checkRuns := [Required("build", None, "policy")], [Probe(v.suite)];
    other := if ChecksOutcome(required, Evidence(checkRuns, [], workflows), true, 0)
                == ChecksOutcome(required, Evidence(checkRuns, [], first), true, 0) then second else first;
  }

  /** The order of the workflow runs never matters exactly when the runs of each suite agree. */
  lemma WorkflowOrderFree(workflows: seq<Workflow>)
    ensures (forall required, checkRuns, statuses, verified, now, other: seq<Workflow> ::
               Reordering(workflows, other) ==>
               ChecksOutcome(required, Evidence(checkRuns, statuses, workflows), verified, now)
               == ChecksOutcome(required, Evidence(checkRuns, statuses, other), verified, now))
       <==> SuitesAgree(workflows)
  {
    if SuitesAgree(workflows) {
      forall required, checkRuns, statuses, verified, now, other: seq<Workflow> | Reordering(workflows, other)
        ensures ChecksOutcome(required, Evidence(checkRuns, statuses, workflows), verified, now)
             == ChecksOutcome(required, Evidence(checkRuns, statuses, other), verified, now)
      {
        ReorderingMembers(workflows, other);
        VerdictIgnoresOrder(required, Evidence(checkRuns, statuses, workflows), required,
                            Evidence(checkRuns, statuses, other), verified, now);
      }
    } else {
      var required, checkRuns, other := DisagreementShows(workflows);
    }
  }
}
