/**
 The whole of `collectPrVerification` (src/features/github/pr-verification-api.ts) after its requests:
 every verdict, the deduplicated blocker list, and the refusals, as one function of what was read.
 */
module PrAssessment {
  import opened Common
  import opened Pagination
  import opened PrEvidence
  import opened ChecksVerdict
  import opened BranchPolicy

  datatype ReviewState = ReviewApproved | ReviewChangesRequested | ReviewOther

  /** `author` is the lower-cased login; `commit` is the reviewed head. */
  datatype Review = Review(id: string, state: ReviewState, author: Option<string>, canPush: bool,
                           commit: Option<string>)

  datatype Thread = Thread(id: string, isResolved: bool)

  datatype Requirements = Requirements(requiredChecks: seq<string>, minimumApprovals: nat, requireCodeOwnerReview: bool,
                                       requireResolvedThreads: bool)

  datatype PullRequest = PullRequest(headSha: string, baseSha: string, updatedAt: string, state: string,
                                     mergedAt: Option<string>,
                                     draft: bool, mergeable: Option<bool>, mergeableState: string)

  /** The listed check runs, statuses and workflow runs of one commit. */
  datatype Listed = Listed(checkRuns: seq<CheckRun>, statuses: seq<CommitStatus>, workflows: seq<Workflow>)

  /** The potential merge commit: its parents, whether there are more, and what is listed for it. */
  datatype MergeCommit = MergeCommit(oid: string, parents: seq<string>, moreParents: bool, listed: Listed)

  // ----- Reviews -----

  /** The logins of writers who approved the current head, each once. */
  ghost function Approvers(reviews: seq<Review>, headSha: string): set<string> {
    set r | r in reviews && r.state == ReviewApproved && r.canPush && r.author.Some? && r.commit == Some(headSha)
      :: r.author.value
  }

  /** The filtered reviews' logins in a `Set`. */
  method CountApprovers(reviews: seq<Review>, headSha: string) returns (approvals: nat)
    ensures approvals == |Approvers(reviews, headSha)|
  {
    var logins: set<string> := {};
    for i := 0 to |reviews|
      invariant logins == Approvers(reviews[..i], headSha)
    {
      var review := reviews[i];
      PrefixStep(reviews, i);
      if review.state == ReviewApproved && review.canPush && review.author.Some? && review.commit == Some(headSha) {
        logins := logins + {review.author.value};
      }
    }
    FullPrefix(reviews);
    approvals := |logins|;
  }

  ghost predicate ChangesWanted(reviews: seq<Review>, decision: Option<Decision>) {
    decision == Some(ChangesRequested) || exists r :: r in reviews && r.canPush && r.state == ReviewChangesRequested
  }

  /** Nothing about the reviews stands in the way. */
  ghost predicate ReviewsClean(reviews: seq<Review>, decision: Option<Decision>, headSha: string, minimum: nat,
                               codeOwners: bool, policyWantsOwners: bool)
  {
    && !ChangesWanted(reviews, decision)
    && |Approvers(reviews, headSha)| >= minimum && decision != Some(ReviewRequired)
    && (minimum > 0 ==> decision.Some?)
    && (policyWantsOwners ==> codeOwners)
    && (codeOwners ==> decision == Some(Approved))
  }

  /** The blockers that the reviews give rise to, each with its own reason. */
  ghost predicate ReviewBlocker(b: Blocker, reviews: seq<Review>, decision: Option<Decision>, headSha: string,
                                minimum: nat, codeOwners: bool, policyWantsOwners: bool)
  {
    || (b == Blocker("github_changes_requested", None) && ChangesWanted(reviews, decision))
    || (b == Blocker("github_approvals_required", None)
        && (|Approvers(reviews, headSha)| < minimum || decision == Some(ReviewRequired)))
    || (b == Blocker("github_review_decision_unknown", None) && (minimum > 0 || codeOwners) && decision.None?)
    || (b == Blocker("github_code_owner_policy_unverified", None) && policyWantsOwners && !codeOwners)
    || (b == Blocker("github_code_owner_review_required", None) && codeOwners && decision != Some(Approved))
  }

  /** What each test on the reviews says by itself. */
  ghost predicate ReviewContribution(o: Outcome, reviews: seq<Review>, decision: Option<Decision>, headSha: string,
                                     minimum: nat, codeOwners: bool, policyWantsOwners: bool)
  {
    || (o == Blocked
        && (ChangesWanted(reviews, decision)
            || |Approvers(reviews, headSha)| < minimum || decision == Some(ReviewRequired)
            || (codeOwners && decision != Some(Approved))))
    || (o == Unknown && (((minimum > 0 || codeOwners) && decision.None?) || (policyWantsOwners && !codeOwners)))
  }

  /** The review verdict, as the sequence of tests leaves it. */
  ghost predicate ReviewVerdict(outcome: Outcome, reviews: seq<Review>, decision: Option<Decision>, headSha: string,
                                minimum: nat, codeOwners: bool, policyWantsOwners: bool)
  {
    && (outcome == Passed <==> ReviewsClean(reviews, decision, headSha, minimum, codeOwners, policyWantsOwners))
    && (outcome == Unknown <==> (!codeOwners && (policyWantsOwners || (minimum > 0 && decision.None?))))
    && outcome != Checking
  }

  /**
   Unlike `checks`, the review verdict need not be the maximum of its contributions, because a later test overwrites an
   earlier one. It is, exactly if it is not the case that code owners have to review and there is no decision; and it
   always is one of the contributions, if there are any.
   */
  lemma ReviewMaximumIff(outcome: Outcome, reviews: seq<Review>, decision: Option<Decision>, headSha: string,
                         minimum: nat, codeOwners: bool, policyWantsOwners: bool)
    requires ReviewVerdict(outcome, reviews, decision, headSha, minimum, codeOwners, policyWantsOwners)
    ensures (forall o :: ReviewContribution(o, reviews, decision, headSha, minimum, codeOwners, policyWantsOwners) ==>
               Rank(o) <= Rank(outcome))
       <==> !(codeOwners && decision.None?)
    ensures outcome == Passed
            || ReviewContribution(outcome, reviews, decision, headSha, minimum, codeOwners, policyWantsOwners)
  {
    if codeOwners && decision.None? {
      assert ReviewContribution(Unknown, reviews, decision, headSha, minimum, codeOwners, policyWantsOwners);
    }
  }

  /** Code owners have to review and there is no decision: that is unknown, and yet the verdict says blocked. */
  lemma ReviewVerdictBelowMaximum(outcome: Outcome, headSha: string)
    requires ReviewVerdict(outcome, [], None, headSha, 0, true, false)
    ensures ReviewContribution(Unknown, [], None, headSha, 0, true, false)
    ensures outcome == Blocked
  {
    assert !ReviewsClean([], None, headSha, 0, true, false);
  }

  /** The review verdict and its blockers. */
  method JudgeReviews(reviews: seq<Review>, decision: Option<Decision>, headSha: string, minimum: nat, codeOwners: bool,
                      policyWantsOwners: bool) returns (outcome: Outcome, blockers: seq<Blocker>)
    ensures ReviewVerdict(outcome, reviews, decision, headSha, minimum, codeOwners, policyWantsOwners)
    ensures blockers == [] <==> outcome == Passed
    ensures forall b ::
              b in blockers <==> ReviewBlocker(b, reviews, decision, headSha, minimum, codeOwners, policyWantsOwners)
  {
    outcome, blockers := Passed, [];
    var approvals := CountApprovers(reviews, headSha);
    if || decision == Some(ChangesRequested)
       || exists r :: r in reviews && r.canPush && r.state == ReviewChangesRequested
    {
      outcome := Blocked;
      blockers := blockers + [Blocker("github_changes_requested", None)];
    }
    if approvals < minimum || decision == Some(ReviewRequired) {
      outcome := Blocked;
      blockers := blockers + [Blocker("github_approvals_required", None)];
    }
    if (minimum > 0 || codeOwners) && decision.None? {
      outcome := Unknown;
      blockers := blockers + [Blocker("github_review_decision_unknown", None)];
    }
    if policyWantsOwners && !codeOwners {
      outcome := Unknown;
      blockers := blockers + [Blocker("github_code_owner_policy_unverified", None)];
    } else if codeOwners && decision != Some(Approved) {
      outcome := Blocked;
      blockers := blockers + [Blocker("github_code_owner_review_required", None)];
    }
  }

  // ----- Threads -----

  method JudgeThreads(threads: seq<Thread>, requireResolved: bool) returns (outcome: Outcome, blockers: seq<Blocker>)
    ensures outcome == if requireResolved && (exists t :: t in threads && !t.isResolved) then Blocked else Passed
    ensures blockers == if outcome == Passed then [] else [Blocker("github_review_threads_unresolved", None)]
  {
    outcome, blockers := Passed, [];
    if requireResolved && exists t :: t in threads && !t.isResolved {
      outcome := Blocked;
      blockers := [Blocker("github_review_threads_unresolved", None)];
    }
  }

  // ----- Mergeability -----

  const KNOWN_MERGE_STATES: set<string> := {"CLEAN", "HAS_HOOKS", "BEHIND", "UNSTABLE", "BLOCKED", "DRAFT"}

  /** Both APIs call the pull request mergeable, in a state that lets it be merged under the branch rules. */
  ghost predicate CanMerge(mergeable: Option<bool>, view: View, strict: bool) {
    && mergeable == Some(true) && view.mergeable == Mergeable
    && (view.mergeStateStatus in {"CLEAN", "UNSTABLE", "DRAFT"} || (view.mergeStateStatus == "BEHIND" && !strict))
  }

  /** The two APIs, or the state of the pull request, leave the question open. */
  ghost predicate MergeOpen(mergeable: Option<bool>, view: View) {
    || mergeable.None? || view.mergeable == MergeUnknown || view.mergeStateStatus in {"UNKNOWN", "unknown"}
    || (mergeable == Some(true) && view.mergeable == Mergeable && !KnownMergeState(view.mergeStateStatus))
  }

  ghost predicate KnownMergeState(state: string) {
    || state == "CLEAN" || state == "HAS_HOOKS" || state == "BEHIND" || state == "UNSTABLE" || state == "BLOCKED"
    || state == "DRAFT"
  }

  /** The one reason why the pull request cannot be merged. */
  ghost predicate MergeBlocker(b: Blocker, mergeable: Option<bool>, view: View, strict: bool) {
    var conflict := mergeable == Some(false) || view.mergeable == Conflicting;
    var silent := mergeable.None? || view.mergeable == MergeUnknown || view.mergeStateStatus in {"UNKNOWN", "unknown"};
    var behind := strict && view.mergeStateStatus == "BEHIND";
    && b.requirement.None?
    && match b.code
       case "github_mergeability_unknown" => silent
       case "github_merge_conflict" => conflict && !silent
       case "github_base_update_required" => behind && !conflict && !silent
       case "github_merge_state_unsupported" => MergeOpen(mergeable, view) && !silent && !conflict
       case "github_merge_blocked" => view.mergeStateStatus in {"HAS_HOOKS", "BLOCKED"} && !conflict && !silent
       case _ => false
  }

  method JudgeMerge(mergeable: Option<bool>, view: View, strict: bool)
    returns (outcome: Outcome, blockers: seq<Blocker>)
    ensures outcome == Passed <==> CanMerge(mergeable, view, strict)
    ensures outcome == Unknown <==> MergeOpen(mergeable, view)
    ensures outcome != Checking
    ensures blockers == [] <==> outcome == Passed
    ensures forall b :: b in blockers <==> MergeBlocker(b, mergeable, view, strict)
  {
    outcome, blockers := Passed, [];
    if mergeable.None? || view.mergeable == MergeUnknown || view.mergeStateStatus in {"UNKNOWN", "unknown"} {
      outcome := Unknown;
      blockers := [Blocker("github_mergeability_unknown", None)];
    } else if !mergeable.value || view.mergeable == Conflicting {
      outcome := Blocked;
      blockers := [Blocker("github_merge_conflict", None)];
    } else if strict && view.mergeStateStatus == "BEHIND" {
      outcome := Blocked;
      blockers := [Blocker("github_base_update_required", None)];
    } else if view.mergeStateStatus !in KNOWN_MERGE_STATES {
      outcome := Unknown;
      blockers := [Blocker("github_merge_state_unsupported", None)];
    } else if view.mergeStateStatus in {"HAS_HOOKS", "BLOCKED"} {
      outcome := Blocked;
      blockers := [Blocker("github_merge_blocked", None)];
    }
  }

  // ----- Evidence of a commit -----

  function CheckKey(c: CheckRun): (int, string) {
    (c.appId, c.name)
  }

  function CheckId(c: CheckRun): int {
    c.id
  }

  function StatusKey(s: CommitStatus): string {
    s.context
  }

  function StatusId(s: CommitStatus): int {
    s.id
  }

  /** Row ids are positive, as the response schemas demand. */
  ghost predicate PositiveIds(listed: Listed) {
    (forall c :: c in listed.checkRuns ==> c.id > 0) && (forall s :: s in listed.statuses ==> s.id > 0)
  }

  predicate SomeActions(checkRuns: seq<CheckRun>) {
    exists c :: c in checkRuns && c.appSlug == "github-actions"
  }

  /** Something listed belongs to another commit. */
  ghost predicate Misattributed(listed: Listed, sha: string, canReadActions: bool) {
    || (exists c :: c in listed.checkRuns && c.headSha != sha)
    || (canReadActions && (exists c :: c in listed.checkRuns && c.appSlug == "github-actions")
        && exists w :: w in listed.workflows && w.headSha != sha)
  }

  /** The latest check run of its App and name: no greater id, and none listed before it with the same one. */
  ghost predicate LatestCheckRun(rows: seq<CheckRun>, c: CheckRun) {
    exists i :: 0 <= i < |rows| && rows[i] == c
      && forall j :: 0 <= j < |rows| && rows[j].appId == c.appId && rows[j].name == c.name ==>
           rows[j].id < c.id || (rows[j].id == c.id && i <= j)
  }

  /** The latest status of its context. */
  ghost predicate LatestStatus(rows: seq<CommitStatus>, s: CommitStatus) {
    exists i :: 0 <= i < |rows| && rows[i] == s
      && forall j :: 0 <= j < |rows| && rows[j].context == s.context ==>
           rows[j].id < s.id || (rows[j].id == s.id && i <= j)
  }

  lemma LatestCheckRunIff(rows: seq<CheckRun>, c: CheckRun)
    ensures LatestCheckRun(rows, c) <==> IsLatest(rows, CheckKey, CheckId, c)
  {
    if i :| 0 <= i < |rows| && rows[i] == c
            && forall j :: 0 <= j < |rows| && rows[j].appId == c.appId && rows[j].name == c.name ==>
                 rows[j].id < c.id || (rows[j].id == c.id && i <= j) {
      assert LatestAt(rows, |rows|, CheckKey, CheckId, i);
    }
    if i: nat :| LatestAt(rows, |rows|, CheckKey, CheckId, i) && rows[i] == c {
      forall j | 0 <= j < |rows| && rows[j].appId == c.appId && rows[j].name == c.name
        ensures rows[j].id < c.id || (rows[j].id == c.id && i <= j)
      {
        assert CheckKey(rows[j]) == CheckKey(rows[i]);
        assert CheckId(rows[j]) < CheckId(rows[i]) || (CheckId(rows[j]) == CheckId(rows[i]) && i <= j);
      }
    }
  }

  lemma LatestStatusIff(rows: seq<CommitStatus>, s: CommitStatus)
    ensures LatestStatus(rows, s) <==> IsLatest(rows, StatusKey, StatusId, s)
  {
    if i :| 0 <= i < |rows| && rows[i] == s
            && forall j :: 0 <= j < |rows| && rows[j].context == s.context ==>
                 rows[j].id < s.id || (rows[j].id == s.id && i <= j) {
      assert LatestAt(rows, |rows|, StatusKey, StatusId, i);
    }
    if i: nat :| LatestAt(rows, |rows|, StatusKey, StatusId, i) && rows[i] == s {
      forall j | 0 <= j < |rows| && rows[j].context == s.context
        ensures rows[j].id < s.id || (rows[j].id == s.id && i <= j)
      {
        assert StatusKey(rows[j]) == StatusKey(rows[i]);
        assert StatusId(rows[j]) < StatusId(rows[i]) || (StatusId(rows[j]) == StatusId(rows[i]) && i <= j);
      }
    }
  }

  /** The evidence keeps exactly the latest row of each source, and the workflow runs that may be read. */
  ghost predicate Selects(listed: Listed, canReadActions: bool, ev: Evidence) {
    && (forall c :: c in ev.checkRuns <==> LatestCheckRun(listed.checkRuns, c))
    && (forall s :: s in ev.statuses <==> LatestStatus(listed.statuses, s))
    && ev.workflows == (if canReadActions && exists c :: c in listed.checkRuns && c.appSlug == "github-actions"
                        then listed.workflows else [])
  }

  /** `collectChecks`. */
  method CollectChecks(listed: Listed, sha: string, canReadActions: bool) returns (r: Result<Evidence, Failure>)
    requires PositiveIds(listed)
    ensures r.Err? <==> Misattributed(listed, sha, canReadActions)
    ensures r.Err? ==> r.error == IdentityMismatch
    ensures r.Ok? ==> Selects(listed, canReadActions, r.value)
  {
    if exists c :: c in listed.checkRuns && c.headSha != sha {
      return Err(IdentityMismatch);
    }
    var workflows := if canReadActions && SomeActions(listed.checkRuns) then listed.workflows else [];
    if exists w :: w in workflows && w.headSha != sha {
      return Err(IdentityMismatch);
    }
    var checkRuns := LatestPerKey(listed.checkRuns, CheckKey, CheckId);
    var statuses := LatestPerKey(listed.statuses, StatusKey, StatusId);
    forall c ensures c in checkRuns <==> LatestCheckRun(listed.checkRuns, c) {
      LatestCheckRunIff(listed.checkRuns, c);
    }
    forall s ensures s in statuses <==> LatestStatus(listed.statuses, s) {
      LatestStatusIff(listed.statuses, s);
    }
    return Ok(Evidence(checkRuns, statuses, workflows));
  }

  // ----- The whole assessment -----

  datatype Input = Input(initial: PullRequest, final: PullRequest, requirements: Requirements,
                         graph: Collected<Review, Thread>,
                         rules: seq<Rule>, protection: ProtectionReply, head: Listed, merge: Option<MergeCommit>,
                         canReadActions: bool, now: int)

  datatype Snapshot = Snapshot(checks: Outcome, reviews: Outcome, threads: Outcome, mergeability: Outcome,
                               verified: bool, draft: bool, blockers: seq<Blocker>, policy: Policy, evidence: Evidence)

  /** Everything passed, protection is verified, and the pull request is not a draft. */
  predicate AllClear(s: Snapshot) {
    && s.checks == Passed && s.reviews == Passed && s.threads == Passed && s.mergeability == Passed
    && s.verified && !s.draft
  }

  function BasePolicy(r: Requirements): Policy {
    Policy(seq(|r.requiredChecks|,
               i requires 0 <= i < |r.requiredChecks| => Required(r.requiredChecks[i], None, "policy")),
           r.minimumApprovals, false, r.requireResolvedThreads, false, [])
  }

  /** The merge commit was built from other parents than the current base and head. */
  ghost predicate StaleMerge(merge: MergeCommit, pr: PullRequest) {
    merge.moreParents || merge.parents != [pr.baseSha, pr.headSha]
  }

  /** The evidence comes from the merge commit if it has any, and from the head otherwise. */
  ghost predicate SelectedEvidence(input: Input, ev: Evidence) {
    exists head :: Selects(input.head, input.canReadActions, head) &&
      if input.merge.Some? && input.initial.state == "open" && input.initial.mergedAt.None? then
        exists merged :: Selects(input.merge.value.listed, input.canReadActions, merged)
          && ev == (if merged.checkRuns != [] || merged.statuses != [] then merged else head)
      else ev == head
  }

  /** Something listed belongs to another commit, or the merge commit to other parents. */
  ghost predicate EvidenceRefused(input: Input) {
    || Misattributed(input.head, input.initial.headSha, input.canReadActions)
    || (input.merge.Some? && input.initial.state == "open" && input.initial.mergedAt.None?
        && (StaleMerge(input.merge.value, input.initial)
            || Misattributed(input.merge.value.listed, input.merge.value.oid, input.canReadActions)))
  }

  ghost function EvidenceRefusal(input: Input): Failure {
    if !Misattributed(input.head, input.initial.headSha, input.canReadActions)
       && input.merge.Some? && StaleMerge(input.merge.value, input.initial) then ChangedDuringRefresh
    else IdentityMismatch
  }

  method SelectEvidence(input: Input) returns (r: Result<Evidence, Failure>)
    requires PositiveIds(input.head) && (input.merge.Some? ==> PositiveIds(input.merge.value.listed))
    ensures r.Ok? ==> SelectedEvidence(input, r.value)
    ensures r.Err? <==> EvidenceRefused(input)
    ensures r.Err? ==> r.error == EvidenceRefusal(input)
  {
    var head := CollectChecks(input.head, input.initial.headSha, input.canReadActions);
    if head.Err? {
      return head;
    }
    var selected := head.value;
    if input.merge.Some? && input.initial.state == "open" && input.initial.mergedAt.None? {
      var merge := input.merge.value;
      if merge.moreParents || |merge.parents| != 2
         || merge.parents[0] != input.initial.baseSha || merge.parents[1] != input.initial.headSha {
        return Err(ChangedDuringRefresh);
      }
      var merged := CollectChecks(merge.listed, merge.oid, input.canReadActions);
      if merged.Err? {
        return merged;
      }
      if merged.value.checkRuns != [] || merged.value.statuses != [] {
        selected := merged.value;
      }
    }
    return Ok(selected);
  }

  ghost predicate UniqueIds(graph: Collected<Review, Thread>) {
    && (forall i, j :: 0 <= i < j < |graph.reviews| ==> graph.reviews[i].id != graph.reviews[j].id)
    && (forall i, j :: 0 <= i < j < |graph.threads| ==> graph.threads[i].id != graph.threads[j].id)
  }

  /** `new Set(ids).size !== ids.length`. */
  method HasDuplicates(ids: seq<string>) returns (r: bool)
    ensures r <==> !Distinct(ids)
  {
    for i := 0 to |ids|
      invariant Distinct(ids[..i])
    {
      if ids[i] in ids[..i] {
        return true;
      }
    }
    FullPrefix(ids);
    return false;
  }

  function ReviewIds(reviews: seq<Review>): seq<string> {
    seq(|reviews|, i requires 0 <= i < |reviews| => reviews[i].id)
  }

  function ThreadIds(threads: seq<Thread>): seq<string> {
    seq(|threads|, i requires 0 <= i < |threads| => threads[i].id)
  }

  lemma IdsApart(graph: Collected<Review, Thread>, reviewIds: seq<string>, threadIds: seq<string>)
    requires reviewIds == ReviewIds(graph.reviews) && threadIds == ThreadIds(graph.threads)
    ensures Distinct(reviewIds) && Distinct(threadIds) <==> UniqueIds(graph)
  {
    if Distinct(reviewIds) && Distinct(threadIds) {
      forall i, j | 0 <= i < j < |graph.reviews|
        ensures graph.reviews[i].id != graph.reviews[j].id
      {
        assert reviewIds[i] != reviewIds[j];
      }
      forall i, j | 0 <= i < j < |graph.threads|
        ensures graph.threads[i].id != graph.threads[j].id
      {
        assert threadIds[i] != threadIds[j];
      }
    }
  }

  /** No review and no thread was listed twice: the list did not move while it was paged. */
  method ReadOnce(graph: Collected<Review, Thread>) returns (r: bool)
    ensures r <==> UniqueIds(graph)
  {
    var reviewsTwice := HasDuplicates(ReviewIds(graph.reviews));
    var threadsTwice := HasDuplicates(ThreadIds(graph.threads));
    IdsApart(graph, ReviewIds(graph.reviews), ThreadIds(graph.threads));
    return !reviewsTwice && !threadsTwice;
  }

  /** The reader refuses to say anything: what it read is contradictory, malformed or out of date. */
  ghost predicate Refused(input: Input) {
    || !UniqueIds(input.graph)
    || (exists rule :: rule in input.rules && Malformed(rule))
    || (input.protection.Protection? && !input.protection.classic.urlMatches)
    || EvidenceRefused(input)
    || input.final != input.initial
  }

  /** The error that a refusal names: that of the first part that is refused. */
  ghost function RefusalOf(input: Input): Failure {
    if !UniqueIds(input.graph) then ChangedDuringRefresh
    else if exists rule :: rule in input.rules && Malformed(rule) then InvalidResponse
    else if input.protection.Protection? && !input.protection.classic.urlMatches then IdentityMismatch
    else if EvidenceRefused(input) then EvidenceRefusal(input)
    else ChangedDuringRefresh
  }

  /** The policy of the workspace's own requirements. */
  ghost predicate OwnPolicy(requirements: Requirements, base: Policy) {
    && (forall r: Required :: r in base.requiredChecks
          <==> r.context in requirements.requiredChecks && r == Required(r.context, None, "policy"))
    && base.minimumApprovals == requirements.minimumApprovals && !base.codeOwnersRequired && !base.strictChecks
    && base.requireResolvedThreads == requirements.requireResolvedThreads && base.unsupportedRules == []
  }

  lemma BasePolicyIsOwn(requirements: Requirements)
    ensures OwnPolicy(requirements, BasePolicy(requirements))
  {
    var base := BasePolicy(requirements);
    forall r: Required | r.context in requirements.requiredChecks && r == Required(r.context, None, "policy")
      ensures r in base.requiredChecks
    {
      var i :| 0 <= i < |requirements.requiredChecks| && requirements.requiredChecks[i] == r.context;
      assert base.requiredChecks[i] == r;
    }
  }

  /** The policy and the protection verdict of a snapshot are what the rules and the protection reply say. */
  ghost predicate PolicyFaithful(input: Input, policy: Policy, verified: bool) {
    && (exists base ::
          OwnPolicy(input.requirements, base) && PolicyDemands(base, input.rules, input.protection, policy))
    && (verified <==> Verified(input.protection, input.graph.baseRef, policy.unsupportedRules))
  }

  /** The verdicts of a snapshot are what its policy and evidence, and what was read besides, say. */
  ghost predicate VerdictsFaithful(input: Input, s: Snapshot) {
    && ChecksSay(s.policy.requiredChecks, s.evidence, s.verified, input.now, s.checks)
    && ReviewVerdict(s.reviews, input.graph.reviews, input.graph.view.decision, input.initial.headSha,
         s.policy.minimumApprovals, s.policy.codeOwnersRequired, input.requirements.requireCodeOwnerReview)
    && s.threads == (if s.policy.requireResolvedThreads && exists t :: t in input.graph.threads && !t.isResolved
                     then Blocked else Passed)
    && (s.mergeability == Passed <==> CanMerge(input.initial.mergeable, input.graph.view, s.policy.strictChecks))
    && (s.mergeability == Unknown <==> MergeOpen(input.initial.mergeable, input.graph.view))
    && s.mergeability != Checking
    && s.draft == input.initial.draft
  }

  /** Every reason that a snapshot names, from all the parts of the assessment. */
  ghost predicate IsBlocker(input: Input, s: Snapshot, b: Blocker) {
    || ProtectionBlocker(input.protection, input.graph.baseRef, s.policy.unsupportedRules, b)
    || ChecksBlocker(s.policy.requiredChecks, s.evidence, input.now, b)
    || ReviewBlocker(b, input.graph.reviews, input.graph.view.decision, input.initial.headSha,
                     s.policy.minimumApprovals, s.policy.codeOwnersRequired, input.requirements.requireCodeOwnerReview)
    || (b == Blocker("github_review_threads_unresolved", None) && s.threads == Blocked)
    || MergeBlocker(b, input.initial.mergeable, input.graph.view, s.policy.strictChecks)
    || (b == Blocker("github_pr_draft", None) && s.draft)
  }

  /** The folds over rulesets and classic protection. */
  method FoldPolicy(input: Input) returns (r: Result<(Policy, bool, seq<Blocker>), Failure>)
    ensures r.Err? <==>
              || (exists rule :: rule in input.rules && Malformed(rule))
              || (input.protection.Protection? && !input.protection.classic.urlMatches)
    ensures r.Err? ==> r.error == if exists rule :: rule in input.rules && Malformed(rule) then InvalidResponse
                                  else IdentityMismatch
    ensures r.Ok? ==> PolicyFaithful(input, r.value.0, r.value.1) && (r.value.1 <==> r.value.2 == [])
    ensures r.Ok? ==> r.value.2 == ProtectionBlockers(input.protection, input.graph.baseRef, r.value.0.unsupportedRules)
  {
    var folded := FoldRules(BasePolicy(input.requirements), input.rules);
    if folded.Err? {
      return Err(folded.error);
    }
    BasePolicyIsOwn(input.requirements);
    FoldsDemand(BasePolicy(input.requirements), input.rules, input.protection, folded.value);
    r := FoldProtection(folded.value, input.protection, input.graph.baseRef);
  }

  /** All blockers, deduplicated. */
  method AllBlockers(protection: seq<Blocker>, checks: seq<Blocker>, reviews: seq<Blocker>, threads: seq<Blocker>,
                     mergeability: seq<Blocker>, draft: bool) returns (blockers: seq<Blocker>)
    ensures Distinct(blockers)
    ensures blockers == []
       <==> protection == [] && checks == [] && reviews == [] && threads == [] && mergeability == [] && !draft
    ensures forall b :: b in blockers <==>
              || b in protection || b in checks || b in reviews || b in threads || b in mergeability
              || (b == Blocker("github_pr_draft", None) && draft)
  {
    var all := protection + checks + reviews + threads + mergeability;
    if draft {
      all := all + [Blocker("github_pr_draft", None)];
    }
    DedupeKeepsEachOnce(all);
    blockers := Dedupe(all);
  }

  /** The verdicts on the folded policy and the selected evidence, and all blockers. */
  method Verdicts(input: Input, policy: Policy, verified: bool, protectionBlockers: seq<Blocker>, evidence: Evidence)
    returns (s: Snapshot)
    requires verified <==> protectionBlockers == []
    requires protectionBlockers == ProtectionBlockers(input.protection, input.graph.baseRef, policy.unsupportedRules)
    ensures s.policy == policy && s.verified == verified && s.evidence == evidence
    ensures VerdictsFaithful(input, s)
    ensures Distinct(s.blockers)
    ensures s.blockers == [] <==> AllClear(s)
    ensures forall b :: b in s.blockers <==> IsBlocker(input, s, b)
  {
    var checks, checkBlockers := EvaluateChecks(policy.requiredChecks, evidence, verified, input.now);
    var reviews, reviewBlockers := JudgeReviews(input.graph.reviews, input.graph.view.decision, input.initial.headSha,
      policy.minimumApprovals, policy.codeOwnersRequired, input.requirements.requireCodeOwnerReview);
    var threads, threadBlockers := JudgeThreads(input.graph.threads, policy.requireResolvedThreads);
    var mergeability, mergeBlockers := JudgeMerge(input.initial.mergeable, input.graph.view, policy.strictChecks);
    var blockers := AllBlockers(protectionBlockers, checkBlockers, reviewBlockers, threadBlockers, mergeBlockers,
                                input.initial.draft);
    PassedIffMet(policy.requiredChecks, evidence, verified, input.now);
    NoFindingsIffMet(policy.requiredChecks, evidence, input.now);
    forall b
      ensures b in protectionBlockers
         <==> ProtectionBlocker(input.protection, input.graph.baseRef, policy.unsupportedRules, b)
    {
      ProtectionBlockersAre(input.protection, input.graph.baseRef, policy.unsupportedRules, b);
    }
    s := Snapshot(checks, reviews, threads, mergeability, verified, input.initial.draft, blockers, policy, evidence);
  }

  /**
   The snapshot is right for what was read: its policy, evidence and verdicts are faithful, no blocker occurs twice,
   there is none exactly when there is nothing to block, and each is there for its own reason.
   */
  ghost predicate Assessed(input: Input, s: Snapshot) {
    && PolicyFaithful(input, s.policy, s.verified) && SelectedEvidence(input, s.evidence) && VerdictsFaithful(input, s)
    && (s.blockers == [] <==> AllClear(s)) && Distinct(s.blockers)
    && forall b :: b in s.blockers <==> IsBlocker(input, s, b)
  }

  /** From the fetched data to the snapshot. */
  method Assess(input: Input) returns (r: Result<Snapshot, Failure>)
    requires PositiveIds(input.head) && (input.merge.Some? ==> PositiveIds(input.merge.value.listed))
    ensures r.Err? <==> Refused(input)
    ensures r.Ok? ==> Assessed(input, r.value)
    ensures r.Err? ==> r.error == RefusalOf(input)
  {
    var once := ReadOnce(input.graph);
    if !once {
      return Err(ChangedDuringRefresh);
    }
    var policy := FoldPolicy(input);
    if policy.Err? {
      return Err(policy.error);
    }
    var evidence := SelectEvidence(input);
    if evidence.Err? {
      return Err(evidence.error);
    }
    if input.final != input.initial {
      return Err(ChangedDuringRefresh);
    }
    var s := Verdicts(input, policy.value.0, policy.value.1, policy.value.2, evidence.value);
    return Ok(s);
  }

  /** Reordering the listings changes no verdict, as long as no two rows tie for latest and suites agree. */
  lemma ListingOrderIgnored(a: Listed, b: Listed, canReadActions: bool, ev: Evidence, ev': Evidence,
                            required: seq<Required>, verified: bool, now: int)
    requires Reordering(a.checkRuns, b.checkRuns) && Reordering(a.statuses, b.statuses)
             && Reordering(a.workflows, b.workflows)
    requires (forall x, y :: !Tie(a.checkRuns, CheckKey, CheckId, x, y))
             && (forall x, y :: !Tie(a.statuses, StatusKey, StatusId, x, y))
    requires SuitesAgree(a.workflows)
    requires Selects(a, canReadActions, ev) && Selects(b, canReadActions, ev')
    ensures ChecksOutcome(required, ev, verified, now) == ChecksOutcome(required, ev', verified, now)
  {
    SelectionIsOrderFree(a.checkRuns, CheckKey, CheckId);
    SelectionIsOrderFree(a.statuses, StatusKey, StatusId);
    ReorderingMembers(a.checkRuns, b.checkRuns);
    ReorderingMembers(a.workflows, b.workflows);
    forall c
      ensures c in ev.checkRuns <==> c in ev'.checkRuns
    {
      assert IsLatest(b.checkRuns, CheckKey, CheckId, c) <==> IsLatest(a.checkRuns, CheckKey, CheckId, c);
      LatestCheckRunIff(a.checkRuns, c);
      LatestCheckRunIff(b.checkRuns, c);
    }
    forall s
      ensures s in ev.statuses <==> s in ev'.statuses
    {
      assert IsLatest(b.statuses, StatusKey, StatusId, s) <==> IsLatest(a.statuses, StatusKey, StatusId, s);
      LatestStatusIff(a.statuses, s);
      LatestStatusIff(b.statuses, s);
    }
    VerdictIgnoresOrder(required, ev, required, ev', verified, now);
  }
}
