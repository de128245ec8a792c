/**
 `collectPrVerification` from its requests on (src/features/github/pr-verification-api.ts): everything is read by the
 two paging loops of `Pagination`, and assessed by `PrAssessment`.
 */
module PrCollection {
  import opened Common
  import opened Pagination
  import opened PrEvidence
  import opened ChecksVerdict
  import opened BranchPolicy
  import opened PrAssessment

  datatype Config = Config(repositoryId: int, fullName: string, number: int, baseBranch: string,
                           requirements: Requirements, canReadActions: bool)

  /** How GitHub answers: the two reads of the pull request, and a provider for everything that is paged. */
  datatype Sources = Sources(
    initial: Result<PullRequest, Failure>,
    final: Result<PullRequest, Failure>,
    graph: GraphProvider<Review, Thread>,
    rules: Provider<Rule>,
    protection: Result<ProtectionReply, Failure>,
    checkRuns: string -> Provider<CheckRun>,
    statuses: string -> Provider<CommitStatus>,
    workflows: string -> Provider<Workflow>,
    parents: string -> (seq<string>, bool))        // of the potential merge commit, and whether there are more

  /** The ids of listed rows are positive, as the response schemas demand. */
  ghost predicate PositiveRows(src: Sources) {
    && (forall sha, k, c :: src.checkRuns(sha)(k).Ok? && c in src.checkRuns(sha)(k).value.rows ==> CheckId(c) > 0)
    && (forall sha, k, s :: src.statuses(sha)(k).Ok? && s in src.statuses(sha)(k).value.rows ==> StatusId(s) > 0)
  }

  function IdentityOf(config: Config, pr: PullRequest): Identity {
    Identity(config.repositoryId, config.fullName, config.number, pr.headSha, pr.baseSha,
             if pr.mergedAt.Some? then "merged" else pr.state, pr.draft)
  }

  predicate IsOpen(pr: PullRequest) {
    pr.state == "open" && pr.mergedAt.None?
  }

  // ----- what it means that nothing is missing -----

  /** The rows are a complete listing: every page up to the last one, in order. */
  ghost predicate Whole<T>(provider: Provider<T>, envelope: bool, rows: seq<T>) {
    exists n: nat :: CompleteAt(provider, envelope, n) && rows == RowsUpTo(provider, n)
  }

  lemma WholeIsListed<T>(provider: Provider<T>, envelope: bool, rows: seq<T>)
    ensures Whole(provider, envelope, rows) <==> ListFrom(provider, envelope, 1, [], None) == Ok(rows)
  {
    ListIsExact(provider, envelope);
  }

  /** Everything listed for one commit; workflow runs only if they may be read and a check comes from Actions. */
  ghost predicate ListedWhole(src: Sources, canReadActions: bool, sha: string, listed: Listed) {
    && Whole(src.checkRuns(sha), true, listed.checkRuns)
    && Whole(src.statuses(sha), false, listed.statuses)
    && if canReadActions && exists c :: c in listed.checkRuns && c.appSlug == "github-actions"
       then Whole(src.workflows(sha), true, listed.workflows) else listed.workflows == []
  }

  /** The pull request that every reply has to be about. */
  ghost function Target(config: Config, pr: PullRequest): (id: Identity)
    ensures id.repositoryId == config.repositoryId && id.fullName == config.fullName && id.number == config.number
    ensures id.headSha == pr.headSha && id.baseSha == pr.baseSha && id.draft == pr.draft
    ensures pr.mergedAt == None ==> id.state == pr.state
    ensures pr.mergedAt != None ==> id.state == "merged"
  {
    IdentityOf(config, pr)
  }

  /** The merge commit that GraphQL names, with all that is listed for it. */
  ghost predicate MergeWhole(src: Sources, config: Config, pr: PullRequest, view: View, merge: Option<MergeCommit>) {
    if view.mergeOid == None || pr.state != "open" || pr.mergedAt != None then merge.None?
    else
      && merge.Some? && merge.value.oid == view.mergeOid.value
      && (merge.value.parents, merge.value.moreParents) == src.parents(merge.value.oid)
      && ListedWhole(src, config.canReadActions, merge.value.oid, merge.value.listed)
  }

  /** All that the assessment needs, with nothing missing. */
  ghost predicate FullyRead(src: Sources, config: Config, now: int, i: Input) {
    && src.initial == Ok(i.initial) && src.final == Ok(i.final) && src.protection == Ok(i.protection)
    && i.requirements == config.requirements && i.canReadActions == config.canReadActions && i.now == now
    && ReadToTheEnd(src.graph, Target(config, i.initial), config.baseBranch, i.graph)
    && Whole(src.rules, false, i.rules)
    && ListedWhole(src, config.canReadActions, i.initial.headSha, i.head)
    && MergeWhole(src, config, i.initial, i.graph.view, i.merge)
  }

  // ----- listing one commit -----

  /** The complete listing of a commit, or the first failure; there is no other complete listing. */
  method ListCommit(src: Sources, canReadActions: bool, sha: string) returns (r: Result<Listed, Failure>)
    ensures forall l :: ListedWhole(src, canReadActions, sha, l) <==> r == Ok(l)
  {
    var checkRuns := List(src.checkRuns(sha), true);
    var statuses := List(src.statuses(sha), false);
    forall rows ensures Whole(src.checkRuns(sha), true, rows) <==> checkRuns == Ok(rows) {
      WholeIsListed(src.checkRuns(sha), true, rows);
    }
    forall rows ensures Whole(src.statuses(sha), false, rows) <==> statuses == Ok(rows) {
      WholeIsListed(src.statuses(sha), false, rows);
    }
    if checkRuns.Err? {
      return Err(checkRuns.error);
    }
    if statuses.Err? {
      return Err(statuses.error);
    }
    var workflows: Result<seq<Workflow>, Failure> := Ok([]);
    if canReadActions && SomeActions(checkRuns.value) {
      workflows := List(src.workflows(sha), true);
      forall rows ensures Whole(src.workflows(sha), true, rows) <==> workflows == Ok(rows) {
        WholeIsListed(src.workflows(sha), true, rows);
      }
    }
    if workflows.Err? {
      return Err(workflows.error);
    }
    r := Ok(Listed(checkRuns.value, statuses.value, workflows.value));
  }

  lemma {:induction false} RowsComeFromPages<T>(provider: Provider<T>, n: nat, x: T)
    requires x in RowsUpTo(provider, n)
    ensures exists k: nat :: provider(k).Ok? && x in provider(k).value.rows
  {
    if n > 0 && x in RowsUpTo(provider, n - 1) {
      RowsComeFromPages(provider, n - 1, x);
    }
  }

  lemma ListedIdsArePositive(src: Sources, canReadActions: bool, sha: string, listed: Listed)
    requires PositiveRows(src) && ListedWhole(src, canReadActions, sha, listed)
    ensures PositiveIds(listed)
  {
    forall c | c in listed.checkRuns ensures c.id > 0 {
      var n: nat :| CompleteAt(src.checkRuns(sha), true, n) && listed.checkRuns == RowsUpTo(src.checkRuns(sha), n);
      RowsComeFromPages(src.checkRuns(sha), n, c);
      assert CheckId(c) > 0;
    }
    forall s | s in listed.statuses ensures s.id > 0 {
      var n: nat :| CompleteAt(src.statuses(sha), false, n) && listed.statuses == RowsUpTo(src.statuses(sha), n);
      RowsComeFromPages(src.statuses(sha), n, s);
      assert StatusId(s) > 0;
    }
  }

  // ----- everything -----

  /** The merge commit that has to be looked at, if any. */
  method ReadMerge(src: Sources, config: Config, pr: PullRequest, view: View)
    returns (r: Result<Option<MergeCommit>, Failure>)
    ensures forall m :: MergeWhole(src, config, pr, view, m) <==> r == Ok(m)
  {
    if view.mergeOid.None? || !IsOpen(pr) {
      return Ok(None);
    }
    var oid := view.mergeOid.value;
    var listed := ListCommit(src, config.canReadActions, oid);
    if listed.Err? {
      return Err(listed.error);
    }
    var (parents, more) := src.parents(oid);
    r := Ok(Some(MergeCommit(oid, parents, more, listed.value)));
  }

  /** All reads; what they give is the only complete input there is. */
  method ReadAll(src: Sources, config: Config, now: int) returns (r: Result<Input, Failure>)
    ensures forall i :: FullyRead(src, config, now, i) <==> r == Ok(i)
  {
    if src.initial.Err? {
      return Err(src.initial.error);
    }
    var initial := src.initial.value;
    var graph := Collect(src.graph, IdentityOf(config, initial), config.baseBranch);
    forall c ensures ReadToTheEnd(src.graph, Target(config, initial), config.baseBranch, c) <==> graph == Ok(c) {
      CollectIsExact(src.graph, IdentityOf(config, initial), config.baseBranch, c);
    }
    if graph.Err? {
      return Err(graph.error);
    }
    var rules := List(src.rules, false);
    forall rows ensures Whole(src.rules, false, rows) <==> rules == Ok(rows) {
      WholeIsListed(src.rules, false, rows);
    }
    if rules.Err? {
      return Err(rules.error);
    }
    if src.protection.Err? {
      return Err(src.protection.error);
    }
    var head := ListCommit(src, config.canReadActions, initial.headSha);
    if head.Err? {
      return Err(head.error);
    }
    var merge := ReadMerge(src, config, initial, graph.value.view);
    if merge.Err? {
      return Err(merge.error);
    }
    if src.final.Err? {
      return Err(src.final.error);
    }
    r := Ok(Input(initial, src.final.value, config.requirements, graph.value, rules.value, src.protection.value,
                  head.value, merge.value, config.canReadActions, now));
  }

  /**
   The whole reader. It gives a snapshot exactly if everything could be read with nothing missing and nothing in it is
   refused; and the snapshot is then right for all of it.
   */
  method CollectPrVerification(src: Sources, config: Config, now: int) returns (r: Result<Snapshot, Failure>)
    requires PositiveRows(src)
    ensures r.Ok? <==> exists i :: FullyRead(src, config, now, i) && !Refused(i)
    ensures r.Ok? ==> forall i :: FullyRead(src, config, now, i) ==> Assessed(i, r.value)
  {
    var input := ReadAll(src, config, now);
    if input.Err? {
      return Err(input.error);
    }
    var i := input.value;
    assert FullyRead(src, config, now, i);
    ListedIdsArePositive(src, config.canReadActions, i.initial.headSha, i.head);
    if i.merge.Some? {
      ListedIdsArePositive(src, config.canReadActions, i.merge.value.oid, i.merge.value.listed);
    }
    r := Assess(i);
  }

  // ----- sources that do not change while they are read -----

  /** A collection that does not change, listed page by page. */
  ghost predicate Lists<T(!new)>(provider: Provider<T>, rows: seq<T>) {
    forall k :: provider(k) == Ok(StablePage(rows, k))
  }

  /** What is listed for one commit does not change, and every list is short enough. */
  ghost predicate ListsCommit(src: Sources, canReadActions: bool, sha: string, listed: Listed) {
    && Lists(src.checkRuns(sha), listed.checkRuns) && |listed.checkRuns| < MAX_PAGES * PAGE_SIZE
    && Lists(src.statuses(sha), listed.statuses) && |listed.statuses| < MAX_PAGES * PAGE_SIZE
    && if canReadActions && exists c :: c in listed.checkRuns && c.appSlug == "github-actions"
       then Lists(src.workflows(sha), listed.workflows) && |listed.workflows| < MAX_PAGES * PAGE_SIZE
       else listed.workflows == []
  }

  lemma StableIsWhole<T>(provider: Provider<T>, envelope: bool, rows: seq<T>)
    requires forall k :: provider(k) == Ok(StablePage(rows, k))
    ensures Whole(provider, envelope, rows) <==> |rows| < MAX_PAGES * PAGE_SIZE
  {
    WholeIsListed(provider, envelope, rows);
    StableListIsWhole(provider := provider, rows := rows, envelope := envelope);
  }

  lemma StableCommitIsWhole(src: Sources, canReadActions: bool, sha: string, listed: Listed)
    requires ListsCommit(src, canReadActions, sha, listed)
    ensures ListedWhole(src, canReadActions, sha, listed)
  {
    StableIsWhole(src.checkRuns(sha), true, listed.checkRuns);
    StableIsWhole(src.statuses(sha), false, listed.statuses);
    if canReadActions && SomeActions(listed.checkRuns) {
      StableIsWhole(src.workflows(sha), true, listed.workflows);
    }
  }

  /** Every source answers for the same fixed data, and every list fits in the pages that are read. */
  ghost predicate Stands(src: Sources, config: Config, now: int, i: Input, rs: Stable<Review>, ts: Stable<Thread>) {
    && src.initial == Ok(i.initial) && src.final == Ok(i.final) && src.protection == Ok(i.protection)
    && i.requirements == config.requirements && i.canReadActions == config.canReadActions && i.now == now
    && Honest(src.graph, IdentityOf(config, i.initial), config.baseBranch, i.graph.baseRef, i.graph.view, rs, ts)
    && |rs.pages| <= MAX_PAGES && |ts.pages| <= MAX_PAGES
    && i.graph.reviews == Flatten(rs.pages) && i.graph.threads == Flatten(ts.pages)
    && Lists(src.rules, i.rules) && |i.rules| < MAX_PAGES * PAGE_SIZE
    && ListsCommit(src, config.canReadActions, i.initial.headSha, i.head)
    && if i.graph.view.mergeOid == None || i.initial.state != "open" || i.initial.mergedAt != None then i.merge.None?
       else
         && i.merge.Some? && i.merge.value.oid == i.graph.view.mergeOid.value
         && (i.merge.value.parents, i.merge.value.moreParents) == src.parents(i.merge.value.oid)
         && ListsCommit(src, config.canReadActions, i.merge.value.oid, i.merge.value.listed)
  }

  /**
   From sources that do not change, everything is read and nothing is truncated: the reader judges all reviews, all
   threads, all rules and all that is listed for the commits.
   */
  lemma StandingSourcesAreFullyRead(src: Sources, config: Config, now: int, i: Input, rs: Stable<Review>,
                                    ts: Stable<Thread>)
    requires Stands(src, config, now, i, rs, ts)
    ensures FullyRead(src, config, now, i)
  {
    CollectIsWhole(src.graph, IdentityOf(config, i.initial), config.baseBranch, i.graph.baseRef, i.graph.view, rs, ts);
    CollectIsExact(src.graph, IdentityOf(config, i.initial), config.baseBranch, i.graph);
    StableIsWhole(src.rules, false, i.rules);
    StableCommitIsWhole(src, config.canReadActions, i.initial.headSha, i.head);
    if i.merge.Some? {
      StableCommitIsWhole(src, config.canReadActions, i.merge.value.oid, i.merge.value.listed);
    }
  }
}
