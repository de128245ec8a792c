/**
 The branch-policy fold of `collectPrVerification` (src/features/github/pr-verification-api.ts): rulesets,
 classic branch protection, and whether the protection of the base branch could be verified at all.
 */
module BranchPolicy {
  import opened Common
  import opened Pagination
  import opened PrEvidence

  // ----- Rulesets -----

  datatype StatusParams = StatusParams(checks: seq<(string, Option<int>)>, strict: bool)

  datatype ReviewParams = ReviewParams(approvals: nat, codeOwners: bool, threadResolution: bool)

  /** A rule of the branch; parameters that do not parse are `None`. */
  datatype Rule =
    | StatusRule(status: Option<StatusParams>)
    | ReviewRule(review: Option<ReviewParams>)
    | OtherRule(kind: string)

  const IGNORED_RULES: set<string> := {"deletion", "non_fast_forward", "creation"}

  datatype Policy = Policy(requiredChecks: seq<Required>, minimumApprovals: nat, codeOwnersRequired: bool,
                           requireResolvedThreads: bool, strictChecks: bool, unsupportedRules: seq<string>)

  predicate Malformed(rule: Rule) {
    (rule.StatusRule? && rule.status.None?) || (rule.ReviewRule? && rule.review.None?)
  }

  function RulesetChecks(params: StatusParams): seq<Required> {
    seq(|params.checks|, i requires 0 <= i < |params.checks| =>
      Required(params.checks[i].0, params.checks[i].1, "ruleset"))
  }

  function ChecksOfRules(rules: seq<Rule>): seq<Required> {
    if rules == [] then []
    else
      var last := rules[|rules| - 1];
      ChecksOfRules(rules[..|rules| - 1])
      + (if last.StatusRule? && last.status.Some? then RulesetChecks(last.status.value) else [])
  }

  function UnsupportedOfRules(rules: seq<Rule>): seq<string> {
    if rules == [] then []
    else
      var last := rules[|rules| - 1];
      UnsupportedOfRules(rules[..|rules| - 1])
      + (if last.OtherRule? && last.kind !in IGNORED_RULES then [last.kind] else [])
  }

  predicate DemandsReviews(rule: Rule) {
    rule.ReviewRule? && rule.review.Some?
  }

  /** `p` is `base` tightened by exactly the given rules: nothing the policy demanded is ever weakened. */
  ghost predicate TightenedBy(base: Policy, rules: seq<Rule>, p: Policy) {
    ListsGrow(base, rules, p) && ApprovalsGrow(base, rules, p) && DemandsGrow(base, rules, p)
  }

  ghost predicate ListsGrow(base: Policy, rules: seq<Rule>, p: Policy) {
    && p.requiredChecks == base.requiredChecks + ChecksOfRules(rules)
    && p.unsupportedRules == base.unsupportedRules + UnsupportedOfRules(rules)
  }

  /** The number of approvals is the greatest that is demanded. */
  ghost predicate ApprovalsGrow(base: Policy, rules: seq<Rule>, p: Policy) {
    && p.minimumApprovals >= base.minimumApprovals
    && (forall r :: r in rules && DemandsReviews(r) ==> p.minimumApprovals >= r.review.value.approvals)
    && (p.minimumApprovals == base.minimumApprovals
        || exists r :: r in rules && DemandsReviews(r) && p.minimumApprovals == r.review.value.approvals)
  }

  ghost predicate DemandsGrow(base: Policy, rules: seq<Rule>, p: Policy) {
    && (p.codeOwnersRequired
        <==> base.codeOwnersRequired || exists r :: r in rules && DemandsReviews(r) && r.review.value.codeOwners)
    && (p.requireResolvedThreads <==>
          base.requireResolvedThreads || exists r :: r in rules && DemandsReviews(r) && r.review.value.threadResolution)
    && (p.strictChecks
        <==> base.strictChecks || exists r :: r in rules && r.StatusRule? && r.status.Some? && r.status.value.strict)
  }

  function Max(a: nat, b: nat): nat {
    if a < b then b else a
  }

  /** One turn of the loop over rules. */
  function Tighten(p: Policy, rule: Rule): Policy
    requires !Malformed(rule)
  {
    match rule
    case StatusRule(s) =>
      p.(strictChecks := p.strictChecks || s.value.strict, requiredChecks := p.requiredChecks + RulesetChecks(s.value))
    case ReviewRule(v) =>
      p.(minimumApprovals := Max(p.minimumApprovals, v.value.approvals),
         codeOwnersRequired := p.codeOwnersRequired || v.value.codeOwners,
         requireResolvedThreads := p.requireResolvedThreads || v.value.threadResolution)
    case OtherRule(kind) =>
      if kind in IGNORED_RULES then p else p.(unsupportedRules := p.unsupportedRules + [kind])
  }

  lemma ListsStep(base: Policy, rules: seq<Rule>, p: Policy, rule: Rule)
    requires ListsGrow(base, rules, p) && !Malformed(rule)
    ensures ListsGrow(base, rules + [rule], Tighten(p, rule))
  {
    var all := rules + [rule];
    assert all[..|all| - 1] == rules && all[|all| - 1] == rule;
  }

  lemma ApprovalsStep(base: Policy, rules: seq<Rule>, p: Policy, rule: Rule)
    requires ApprovalsGrow(base, rules, p) && !Malformed(rule)
    ensures ApprovalsGrow(base, rules + [rule], Tighten(p, rule))
  {
    assert rule in rules + [rule] && forall r :: r in rules + [rule] <==> r in rules || r == rule;
  }

  lemma DemandsStep(base: Policy, rules: seq<Rule>, p: Policy, rule: Rule)
    requires DemandsGrow(base, rules, p) && !Malformed(rule)
    ensures DemandsGrow(base, rules + [rule], Tighten(p, rule))
  {
    assert rule in rules + [rule] && forall r :: r in rules + [rule] <==> r in rules || r == rule;
  }

  lemma TightenStep(base: Policy, rules: seq<Rule>, p: Policy, rule: Rule)
    requires TightenedBy(base, rules, p) && !Malformed(rule)
    ensures TightenedBy(base, rules + [rule], Tighten(p, rule))
  {
    ListsStep(base, rules, p, rule);
    ApprovalsStep(base, rules, p, rule);
    DemandsStep(base, rules, p, rule);
  }

  /** The loop over rules: it refuses malformed rules and otherwise tightens the policy by all of them. */
  method FoldRules(base: Policy, rules: seq<Rule>) returns (r: Result<Policy, Failure>)
    ensures r.Err? <==> exists rule :: rule in rules && Malformed(rule)
    ensures r.Err? ==> r.error == InvalidResponse
    ensures r.Ok? ==> TightenedBy(base, rules, r.value)
  {
    var p := base;
    for i := 0 to |rules|
      invariant forall rule :: rule in rules[..i] ==> !Malformed(rule)
      invariant TightenedBy(base, rules[..i], p)
    {
      var rule := rules[i];
      if Malformed(rule) {
        return Err(InvalidResponse);
      }
      PrefixStep(rules, i);
      TightenStep(base, rules[..i], p, rule);
      p := Tighten(p, rule);
    }
    FullPrefix(rules);
    return Ok(p);
  }

  // ----- Classic branch protection -----

  /** `checks` pairs contexts with App ids; `-1` means any App, and null, 0 or less than -1 identify nothing. */
  datatype ClassicChecks = ClassicChecks(strict: bool, contexts: seq<string>, checks: seq<(string, Option<int>)>)

  datatype Classic = Classic(urlMatches: bool, statusChecks: Option<ClassicChecks>, reviews: Option<(nat, bool)>,
                             conversationResolution: bool, signatures: bool, linearHistory: bool)

  datatype ProtectionReply = NoAdministration | NotFound | Protection(classic: Classic)

  predicate UnknownSource(appId: Option<int>) {
    appId.None? || appId.value < -1 || appId.value == 0
  }

  /** Some check identifies the source of the context, and none leaves it open. */
  predicate SourceKnown(context: string, checks: seq<(string, Option<int>)>) {
    && (exists c :: c in checks && c.0 == context)
    && (forall c :: c in checks && c.0 == context ==> !UnknownSource(c.1))
  }

  function Unidentified(context: string): Blocker {
    Blocker("github_required_check_source_unknown", if context == "" then None else Some(context))
  }

  function ContextBlockers(contexts: seq<string>, checks: seq<(string, Option<int>)>): seq<Blocker> {
    if contexts == [] then []
    else
      var last := contexts[|contexts| - 1];
      ContextBlockers(contexts[..|contexts| - 1], checks)
      + (if SourceKnown(last, checks) then [] else [Unidentified(last)])
  }

  function SourceBlockers(checks: seq<(string, Option<int>)>): seq<Blocker> {
    if checks == [] then []
    else
      var last := checks[|checks| - 1];
      SourceBlockers(checks[..|checks| - 1]) + (if UnknownSource(last.1) then [Unidentified(last.0)] else [])
  }

  function ClassicRequired(checks: seq<(string, Option<int>)>): seq<Required> {
    if checks == [] then []
    else
      var last := checks[|checks| - 1];
      ClassicRequired(checks[..|checks| - 1])
      + (if UnknownSource(last.1) then []
         else [Required(last.0, if last.1 == Some(-1) then None else last.1, "branch_protection")])
  }

  /** The loop over contexts. */
  method CheckContexts(contexts: seq<string>, checks: seq<(string, Option<int>)>) returns (blockers: seq<Blocker>)
    ensures blockers == ContextBlockers(contexts, checks)
  {
    blockers := [];
    for i := 0 to |contexts|
      invariant blockers == ContextBlockers(contexts[..i], checks)
    {
      ghost var longer := contexts[..i + 1];
      assert longer[..|longer| - 1] == contexts[..i];
      if !SourceKnown(contexts[i], checks) {
        blockers := blockers + [Unidentified(contexts[i])];
      }
    }
    FullPrefix(contexts);
  }

  /** The loop over checks. */
  method CheckSources(checks: seq<(string, Option<int>)>) returns (required: seq<Required>, blockers: seq<Blocker>)
    ensures required == ClassicRequired(checks) && blockers == SourceBlockers(checks)
  {
    required, blockers := [], [];
    for i := 0 to |checks|
      invariant required == ClassicRequired(checks[..i]) && blockers == SourceBlockers(checks[..i])
    {
      ghost var longer := checks[..i + 1];
      assert longer[..|longer| - 1] == checks[..i];
      var check := checks[i];
      if UnknownSource(check.1) {
        blockers := blockers + [Unidentified(check.0)];
      } else {
        required := required + [Required(check.0, if check.1 == Some(-1) then None else check.1, "branch_protection")];
      }
    }
    FullPrefix(checks);
  }

  lemma {:induction false} ContextBlockersEmpty(contexts: seq<string>, checks: seq<(string, Option<int>)>)
    ensures ContextBlockers(contexts, checks) == [] <==> forall c :: c in contexts ==> SourceKnown(c, checks)
  {
    if contexts != [] {
      ContextBlockersEmpty(contexts[..|contexts| - 1], checks);
      assert contexts == contexts[..|contexts| - 1] + [contexts[|contexts| - 1]];
    }
  }

  lemma {:induction false} SourceBlockersEmpty(checks: seq<(string, Option<int>)>)
    ensures SourceBlockers(checks) == [] <==> forall c :: c in checks ==> !UnknownSource(c.1)
  {
    if checks != [] {
      SourceBlockersEmpty(checks[..|checks| - 1]);
      assert checks == checks[..|checks| - 1] + [checks[|checks| - 1]];
    }
  }

  /** The policy after classic protection: tightened by what it demands, never loosened. */
  function WithClassic(p: Policy, reply: ProtectionReply): Policy {
    if !reply.Protection? then p
    else
      var c := reply.classic;
      Policy(p.requiredChecks + (if c.statusChecks.Some? then ClassicRequired(c.statusChecks.value.checks) else []),
             if c.reviews.Some? then Max(p.minimumApprovals, c.reviews.value.0) else p.minimumApprovals,
             p.codeOwnersRequired || (c.reviews.Some? && c.reviews.value.1),
             p.requireResolvedThreads || c.conversationResolution,
             p.strictChecks || (c.statusChecks.Some? && c.statusChecks.value.strict),
             p.unsupportedRules + (if c.signatures then ["required_signatures"] else [])
                                + (if c.linearHistory then ["required_linear_history"] else []))
  }

  /** The protection of the base branch is verified: it could be read, GraphQL agrees, and nothing in it is open. */
  ghost predicate Verified(reply: ProtectionReply, baseRef: Option<BaseRef>, unsupported: seq<string>) {
    && unsupported == []
    && match reply
       case NoAdministration => false
       case NotFound => baseRef.Some? && !baseRef.value.hasRule
       case Protection(c) =>
         && baseRef.Some? && baseRef.value.hasRule
         && SourcesKnown(c)
  }

  /** `[...new Set(rules)]`. */
  function Dedupe<T(==)>(s: seq<T>): seq<T> {
    if s == [] then []
    else
      var rest := Dedupe(s[..|s| - 1]);
      if s[|s| - 1] in s[..|s| - 1] then rest else rest + [s[|s| - 1]]
  }

  /** Deduplication keeps every element exactly once. */
  lemma {:induction false} DedupeKeepsEachOnce<T>(s: seq<T>)
    ensures forall x :: x in Dedupe(s) <==> x in s
    ensures Distinct(Dedupe(s))
    ensures Dedupe(s) == [] <==> s == []
  {
    if s != [] {
      DedupeKeepsEachOnce(s[..|s| - 1]);
      assert s == s[..|s| - 1] + [s[|s| - 1]];
    }
  }

  function UnsupportedBlockers(rules: seq<string>): seq<Blocker> {
    var kinds := Dedupe(rules);
    seq(|kinds|, i requires 0 <= i < |kinds| =>
      Blocker("github_rule_unsupported", if kinds[i] == "" then None else Some(kinds[i])))
  }

  /** The source identities that classic required checks leave open. */
  function OpenSources(c: Classic): seq<Blocker> {
    if c.statusChecks.None? then []
    else
      ContextBlockers(c.statusChecks.value.contexts, c.statusChecks.value.checks)
      + SourceBlockers(c.statusChecks.value.checks)
  }

  /** The App id says which App, or by -1 that any App will do. */
  ghost predicate Identifies(appId: Option<int>) {
    appId.Some? && (appId.value == -1 || appId.value > 0)
  }

  /** Every required context has a check, and every check identifies its source. */
  ghost predicate SourcesKnown(c: Classic) {
    c.statusChecks.Some? ==>
      var checks := c.statusChecks.value.checks;
      && (forall x :: x in c.statusChecks.value.contexts ==> exists check :: check in checks && check.0 == x)
      && (forall check :: check in checks ==> Identifies(check.1))
  }

  lemma OpenSourcesEmpty(c: Classic)
    ensures OpenSources(c) == [] <==> SourcesKnown(c)
  {
    if c.statusChecks.Some? {
      var contexts, checks := c.statusChecks.value.contexts, c.statusChecks.value.checks;
      ContextBlockersEmpty(contexts, checks);
      SourceBlockersEmpty(checks);
      assert forall check :: check in checks ==> (UnknownSource(check.1) <==> !Identifies(check.1));
    }
  }

  /** The protection reply that GraphQL contradicts. */
  function Contradiction(reply: ProtectionReply, baseRef: Option<BaseRef>): seq<Blocker> {
    match reply
    case NoAdministration => [Blocker("github_administration_permission_missing", None)]
    case NotFound =>
      // A 404 alone is ambiguous: GraphQL has to show that no classic rule applies.
      if baseRef.None? || baseRef.value.hasRule then [Blocker("github_branch_protection_unavailable", None)] else []
    case Protection(_) =>
      if baseRef.None? || !baseRef.value.hasRule then [Blocker("github_branch_protection_changed", None)] else []
  }

  /** Every blocker of the protection of the base branch. */
  function ProtectionBlockers(reply: ProtectionReply, baseRef: Option<BaseRef>,
                              unsupported: seq<string>): seq<Blocker>
  {
    Contradiction(reply, baseRef) + (if reply.Protection? then OpenSources(reply.classic) else [])
    + UnsupportedBlockers(unsupported)
  }

  /** The required status checks of the classic protection rule. */
  method FoldStatusChecks(base: Policy, checks: ClassicChecks) returns (p: Policy, open: seq<Blocker>)
    ensures p == base.(strictChecks := base.strictChecks || checks.strict,
                       requiredChecks := base.requiredChecks + ClassicRequired(checks.checks))
    ensures open == ContextBlockers(checks.contexts, checks.checks) + SourceBlockers(checks.checks)
  {
    open := CheckContexts(checks.contexts, checks.checks);
    var required, unidentified := CheckSources(checks.checks);
    open := open + unidentified;
    p := base.(strictChecks := base.strictChecks || checks.strict, requiredChecks := base.requiredChecks + required);
  }

  /** The classic protection rule: what it adds to the policy, and the sources it leaves open. */
  method FoldClassic(base: Policy, classic: Classic) returns (p: Policy, open: seq<Blocker>)
    ensures p == WithClassic(base, Protection(classic))
    ensures open == OpenSources(classic)
  {
    p, open := base, [];
    if classic.statusChecks.Some? {
      p, open := FoldStatusChecks(base, classic.statusChecks.value);
    }
    if classic.reviews.Some? {
      p := p.(minimumApprovals := Max(p.minimumApprovals, classic.reviews.value.0),
              codeOwnersRequired := p.codeOwnersRequired || classic.reviews.value.1);
    }
    p := p.(requireResolvedThreads := p.requireResolvedThreads || classic.conversationResolution);
    if classic.signatures {
      p := p.(unsupportedRules := p.unsupportedRules + ["required_signatures"]);
    }
    if classic.linearHistory {
      p := p.(unsupportedRules := p.unsupportedRules + ["required_linear_history"]);
    }
  }

  /** Classic protection and unsupported rules: the final policy, whether protection is verified, and the blockers. */
  method FoldProtection(base: Policy, reply: ProtectionReply, baseRef: Option<BaseRef>)
    returns (r: Result<(Policy, bool, seq<Blocker>), Failure>)
    ensures r.Err? <==> reply.Protection? && !reply.classic.urlMatches
    ensures r.Err? ==> r.error == IdentityMismatch
    ensures r.Ok? ==>
              && r.value.0 == WithClassic(base, reply)
              && (r.value.1 <==> Verified(reply, baseRef, r.value.0.unsupportedRules))
              && (r.value.1 <==> r.value.2 == [])
              && r.value.2 == ProtectionBlockers(reply, baseRef, r.value.0.unsupportedRules)
  {
    if reply.Protection? && !reply.classic.urlMatches {
      return Err(IdentityMismatch);
    }
    var blockers := Contradiction(reply, baseRef);
    var verified := blockers == [];
    var p := base;
    if reply.Protection? {
      var open;
      p, open := FoldClassic(base, reply.classic);
      OpenSourcesEmpty(reply.classic);
      blockers := blockers + open;
      verified := verified && open == [];
    }
    if p.unsupportedRules != [] {
      verified := false;
      DedupeKeepsEachOnce(p.unsupportedRules);
      blockers := blockers + UnsupportedBlockers(p.unsupportedRules);
    }
    return Ok((p, verified, blockers));
  }

  // ----- The policy and the blockers in the fields of rules and protection -----

  /** A ruleset asks for the check. */
  ghost predicate RulesetAsks(rules: seq<Rule>, r: Required) {
    exists rule, check :: rule in rules && rule.StatusRule? && rule.status.Some? && check in rule.status.value.checks
      && r == Required(check.0, check.1, "ruleset")
  }

  lemma {:induction false} ChecksOfRulesAre(rules: seq<Rule>, r: Required)
    ensures r in ChecksOfRules(rules) <==> RulesetAsks(rules, r)
  {
    if rules != [] {
      var init, last := rules[..|rules| - 1], rules[|rules| - 1];
      ChecksOfRulesAre(init, r);
      assert rules == init + [last];
      if last.StatusRule? && last.status.Some? {
        RulesetChecksAre(last.status.value, r);
      }
    }
  }

  lemma RulesetChecksAre(params: StatusParams, r: Required)
    ensures r in RulesetChecks(params)
       <==> exists check :: check in params.checks && r == Required(check.0, check.1, "ruleset")
  {
    if check :| check in params.checks && r == Required(check.0, check.1, "ruleset") {
      var i :| 0 <= i < |params.checks| && params.checks[i] == check;
      assert RulesetChecks(params)[i] == r;
    }
  }

  /** Classic protection asks for the check: of one App, or of any. */
  ghost predicate ClassicAsks(checks: seq<(string, Option<int>)>, r: Required) {
    exists check :: check in checks && Identifies(check.1)
      && r == Required(check.0, if check.1.value == -1 then None else Some(check.1.value), "branch_protection")
  }

  lemma {:induction false} ClassicRequiredAre(checks: seq<(string, Option<int>)>, r: Required)
    ensures r in ClassicRequired(checks) <==> ClassicAsks(checks, r)
  {
    if checks != [] {
      ClassicRequiredAre(checks[..|checks| - 1], r);
      assert checks == checks[..|checks| - 1] + [checks[|checks| - 1]];
    }
  }

  lemma {:induction false} UnsupportedOfRulesAre(rules: seq<Rule>, kind: string)
    ensures kind in UnsupportedOfRules(rules)
       <==> OtherRule(kind) in rules && kind != "deletion" && kind != "non_fast_forward" && kind != "creation"
  {
    if rules != [] {
      UnsupportedOfRulesAre(rules[..|rules| - 1], kind);
      assert rules == rules[..|rules| - 1] + [rules[|rules| - 1]];
    }
  }

  /** Classic protection demands this number of approvals. */
  ghost predicate ClassicApprovals(reply: ProtectionReply, n: nat) {
    reply.Protection? && reply.classic.reviews.Some? && reply.classic.reviews.value.0 == n
  }

  /** Some rule demands this number of approvals. */
  ghost predicate RuleApprovals(rules: seq<Rule>, n: nat) {
    exists rule :: rule in rules && rule.ReviewRule? && rule.review.Some? && rule.review.value.approvals == n
  }

  ghost predicate ApprovalsDemanded(minimum: nat, rules: seq<Rule>, reply: ProtectionReply, n: nat) {
    n == minimum || RuleApprovals(rules, n) || ClassicApprovals(reply, n)
  }

  /** The policy demands exactly what the requirements, the rules and classic protection demand together. */
  ghost predicate PolicyDemands(base: Policy, rules: seq<Rule>, reply: ProtectionReply, p: Policy) {
    && (forall r :: r in p.requiredChecks <==>
          || r in base.requiredChecks || RulesetAsks(rules, r)
          || (reply.Protection? && reply.classic.statusChecks.Some?
              && ClassicAsks(reply.classic.statusChecks.value.checks, r)))
    && ApprovalsDemanded(base.minimumApprovals, rules, reply, p.minimumApprovals)
    && (forall n: nat :: ApprovalsDemanded(base.minimumApprovals, rules, reply, n) ==> n <= p.minimumApprovals)
    && FlagsDemanded(base, rules, reply, p)
    && (forall kind :: kind in p.unsupportedRules <==>
          || kind in base.unsupportedRules
          || (OtherRule(kind) in rules && kind != "deletion" && kind != "non_fast_forward" && kind != "creation")
          || (kind == "required_signatures" && reply.Protection? && reply.classic.signatures)
          || (kind == "required_linear_history" && reply.Protection? && reply.classic.linearHistory))
  }

  ghost predicate FlagsDemanded(base: Policy, rules: seq<Rule>, reply: ProtectionReply, p: Policy) {
    && (p.codeOwnersRequired <==>
          || base.codeOwnersRequired
          || (exists rule :: rule in rules && rule.ReviewRule? && rule.review.Some? && rule.review.value.codeOwners)
          || (reply.Protection? && reply.classic.reviews.Some? && reply.classic.reviews.value.1))
    && (p.requireResolvedThreads <==>
          || base.requireResolvedThreads
          || (exists rule :: rule in rules && rule.ReviewRule? && rule.review.Some?
                && rule.review.value.threadResolution)
          || (reply.Protection? && reply.classic.conversationResolution))
    && (p.strictChecks <==>
          || base.strictChecks
          || (exists rule :: rule in rules && rule.StatusRule? && rule.status.Some? && rule.status.value.strict)
          || (reply.Protection? && reply.classic.statusChecks.Some? && reply.classic.statusChecks.value.strict))
  }

  lemma RequiredDemanded(base: Policy, rules: seq<Rule>, reply: ProtectionReply, mid: Policy, r: Required)
    requires ListsGrow(base, rules, mid)
    ensures r in WithClassic(mid, reply).requiredChecks <==>
              || r in base.requiredChecks || RulesetAsks(rules, r)
              || (reply.Protection? && reply.classic.statusChecks.Some?
                  && ClassicAsks(reply.classic.statusChecks.value.checks, r))
  {
    ChecksOfRulesAre(rules, r);
    if reply.Protection? && reply.classic.statusChecks.Some? {
      ClassicRequiredAre(reply.classic.statusChecks.value.checks, r);
    }
  }

  lemma UnsupportedDemanded(base: Policy, rules: seq<Rule>, reply: ProtectionReply, mid: Policy, kind: string)
    requires ListsGrow(base, rules, mid)
    ensures kind in WithClassic(mid, reply).unsupportedRules <==>
              || kind in base.unsupportedRules
              || (OtherRule(kind) in rules && kind != "deletion" && kind != "non_fast_forward" && kind != "creation")
              || (kind == "required_signatures" && reply.Protection? && reply.classic.signatures)
              || (kind == "required_linear_history" && reply.Protection? && reply.classic.linearHistory)
  {
    UnsupportedOfRulesAre(rules, kind);
  }

  lemma ApprovalsAreDemanded(base: Policy, rules: seq<Rule>, reply: ProtectionReply, mid: Policy)
    requires ApprovalsGrow(base, rules, mid)
    ensures var n := WithClassic(mid, reply).minimumApprovals;
      && ApprovalsDemanded(base.minimumApprovals, rules, reply, n)
      && forall k: nat :: ApprovalsDemanded(base.minimumApprovals, rules, reply, k) ==> k <= n
  {
  }

  /** Rules first, then classic protection: together they give the policy that is demanded. */
  lemma FoldsDemand(base: Policy, rules: seq<Rule>, reply: ProtectionReply, mid: Policy)
    requires TightenedBy(base, rules, mid)
    ensures PolicyDemands(base, rules, reply, WithClassic(mid, reply))
  {
    forall r
      ensures r in WithClassic(mid, reply).requiredChecks <==>
                || r in base.requiredChecks || RulesetAsks(rules, r)
                || (reply.Protection? && reply.classic.statusChecks.Some?
                    && ClassicAsks(reply.classic.statusChecks.value.checks, r))
    {
      RequiredDemanded(base, rules, reply, mid, r);
    }
    forall kind
      ensures kind in WithClassic(mid, reply).unsupportedRules <==>
                || kind in base.unsupportedRules
                || (OtherRule(kind) in rules && kind != "deletion" && kind != "non_fast_forward" && kind != "creation")
                || (kind == "required_signatures" && reply.Protection? && reply.classic.signatures)
                || (kind == "required_linear_history" && reply.Protection? && reply.classic.linearHistory)
    {
      UnsupportedDemanded(base, rules, reply, mid, kind);
    }
    ApprovalsAreDemanded(base, rules, reply, mid);
    FlagsAreDemanded(base, rules, reply, mid);
  }

  lemma FlagsAreDemanded(base: Policy, rules: seq<Rule>, reply: ProtectionReply, mid: Policy)
    requires DemandsGrow(base, rules, mid)
    ensures FlagsDemanded(base, rules, reply, WithClassic(mid, reply))
  {
  }

  ghost function Named(text: string): Option<string> {
    if text == "" then None else Some(text)
  }

  /** A required context without a check, or with one that does not identify its source; or such a check. */
  ghost predicate SourceOpen(c: ClassicChecks, context: string) {
    || (context in c.contexts && forall check :: check in c.checks ==> check.0 != context)
    || (exists check :: check in c.checks && check.0 == context && !Identifies(check.1))
  }

  /** What each blocker of the branch protection says. */
  ghost predicate ProtectionBlocker(reply: ProtectionReply, baseRef: Option<BaseRef>, unsupported: seq<string>,
                                    b: Blocker)
  {
    || (b == Blocker("github_administration_permission_missing", None) && reply.NoAdministration?)
    || (b == Blocker("github_branch_protection_unavailable", None)
        && reply.NotFound? && !(baseRef.Some? && !baseRef.value.hasRule))
    || (b == Blocker("github_branch_protection_changed", None)
        && reply.Protection? && !(baseRef.Some? && baseRef.value.hasRule))
    || (b.code == "github_required_check_source_unknown" && reply.Protection? && reply.classic.statusChecks.Some?
        && exists context :: b.requirement == Named(context) && SourceOpen(reply.classic.statusChecks.value, context))
    || (b.code == "github_rule_unsupported" && exists kind :: kind in unsupported && b.requirement == Named(kind))
  }

  lemma {:induction false} ContextBlockersAre(contexts: seq<string>, checks: seq<(string, Option<int>)>, b: Blocker)
    ensures b in ContextBlockers(contexts, checks)
       <==> exists context :: context in contexts && !SourceKnown(context, checks) && b == Unidentified(context)
  {
    if contexts != [] {
      ContextBlockersAre(contexts[..|contexts| - 1], checks, b);
      assert contexts == contexts[..|contexts| - 1] + [contexts[|contexts| - 1]];
    }
  }

  lemma {:induction false} SourceBlockersAre(checks: seq<(string, Option<int>)>, b: Blocker)
    ensures b in SourceBlockers(checks)
       <==> exists check :: check in checks && UnknownSource(check.1) && b == Unidentified(check.0)
  {
    if checks != [] {
      SourceBlockersAre(checks[..|checks| - 1], b);
      assert checks == checks[..|checks| - 1] + [checks[|checks| - 1]];
    }
  }

  lemma OpenSourcesAre(c: Classic, b: Blocker)
    ensures b in OpenSources(c)
       <==> (b.code == "github_required_check_source_unknown" && c.statusChecks.Some?
             && exists context :: b.requirement == Named(context) && SourceOpen(c.statusChecks.value, context))
  {
    if c.statusChecks.Some? {
      var contexts, checks := c.statusChecks.value.contexts, c.statusChecks.value.checks;
      ContextBlockersAre(contexts, checks, b);
      SourceBlockersAre(checks, b);
      assert forall context :: Unidentified(context) == b <==>
               b.code == "github_required_check_source_unknown" && b.requirement == Named(context);
    }
  }

  lemma UnsupportedBlockersAre(unsupported: seq<string>, b: Blocker)
    ensures b in UnsupportedBlockers(unsupported)
       <==> b.code == "github_rule_unsupported" && exists kind :: kind in unsupported && b.requirement == Named(kind)
  {
    DedupeKeepsEachOnce(unsupported);
    var kinds := Dedupe(unsupported);
    if b in UnsupportedBlockers(unsupported) {
      var i :| 0 <= i < |kinds| && UnsupportedBlockers(unsupported)[i] == b;
      assert kinds[i] in unsupported && b.requirement == Named(kinds[i]);
    }
    if kind :| b.code == "github_rule_unsupported" && kind in unsupported && b.requirement == Named(kind) {
      var i :| 0 <= i < |kinds| && kinds[i] == kind;
      assert UnsupportedBlockers(unsupported)[i] == b;
    }
  }

  /** Each blocker of the branch protection is there for its own reason. */
  lemma ProtectionBlockersAre(reply: ProtectionReply, baseRef: Option<BaseRef>, unsupported: seq<string>, b: Blocker)
    ensures b in ProtectionBlockers(reply, baseRef, unsupported)
       <==> ProtectionBlocker(reply, baseRef, unsupported, b)
  {
    UnsupportedBlockersAre(unsupported, b);
    if reply.Protection? {
      OpenSourcesAre(reply.classic, b);
    }
  }
}
