# Verification models

Dafny models of the parts of the repository that carry its hardest promises, with proofs of those promises for
every input, every run or every interleaving. `dafny verify dfyconfig.toml` checks everything.

| modules | what they model |
|---|---|
| `Pagination`, `BranchPolicy`, `PrEvidence`, `ChecksVerdict`, `PrAssessment`, `PrCollection` | the pull-request verdict reader: paging, branch rules, evidence selection, the four verdicts and the blockers, and the whole reader from requests to snapshot |
| `ModuleGraph`, `PrivilegedImports` | the privileged-import lint: breadth-first search over the module graph and the exception ledger |
| `WorkerObjects`, `WorkerProtocol`, `WorkerProgress` | the worker's scheduler, lifecycle and shutdown objects, the process as a transition system over them, and when its shutdown can be completed |
| `RateLimit` | the sliding-window limiter against a log that is never pruned |
| `Bytes`, `Der`, `Base64`, `PrivateKeyPem` | PKCS#1 to PKCS#8: DER, base64 and PEM, with an independent reader |
| `Utf16`, `SourcePositions`, `HtmlTree` | the markdown source-position pass: on values, and in place on a heap tree |
| `AttemptRecovery`, `PagedLoads`, `StallSweep` | retiring job attempts against concurrent changes, and the stall sweep |
| `OnboardingFlow`, `OnboardingProtocol` | onboarding patches, and several clients committing them by compare-and-swap |
| `PatchBudget`, `TimeFormat`, `Slug` | bounded patches, time labels, workspace slugs |

Code that updates state step by step is modelled by classes, arrays and loops, each proved against a function of
its inputs or its old state; the theorems are about those functions. For concurrent code each stretch between two
`await`s is one step, and the theorems are about every list of steps.

## Assumptions

- The clock never goes back between two calls of one limiter.
- The claim procedure never hands out the same (job, attempt) pair twice.
- Database procedures are atomic steps. `fail_stalled_session_job_attempt` is modelled from its definition in
  `supabase/migrations` (20261105063617, 20261105155835, 20261106220000).
- The rows of a job attempt change only by the events of `AttemptRecovery.Event` and the failing procedure. In particular
  a run ends only together with its attempt (`AttemptRecovery.Consistent`), which holds at the start of every recovery.
- Every write of the onboarding row gives it a new `updated_at`; it is modelled as a counter.
- Job ids are unique among the claimed jobs; they are the primary key of their table.
- Ids of check runs and statuses are positive, as the response schemas demand.
- A table does not change while it is paged, and a page holds as many rows as were asked for if there are as many.
- Lower-casing is only assumed to keep lower-case letters, digits and hyphens.

## Where the code does something else than one might expect

- The review verdict is not the maximum of its contributions, as `checks` is: a later test overwrites an earlier
  one, so "unknown" can be replaced by "blocked". `PrAssessment.ReviewMaximumIff` proves that it is the maximum exactly
  unless code owners are required and there is no decision, and `PrAssessment.ReviewVerdictBelowMaximum` shows such a case.
- The choice of the latest check run or status depends on the order of the listing when two rows of one source have
  the same greatest id. `PrEvidence.SelectionIsOrderFree` proves that it is independent of the order exactly when no
  two different rows tie, and `PrEvidence.FrontWinsTie` shows the failure.
- A check run is judged by the first workflow run of its suite. `ChecksVerdict.WorkflowOrderFree` proves that the
  order of the workflow runs never matters exactly when the runs of each suite agree on eligibility, and
  `ChecksVerdict.DisagreementShows` gives an order that changes the verdict otherwise.
- `derLength` shifts with `>>>`, which works modulo 2^32: its octets read back exactly for lengths below 2^32
  (`Der.LengthReadsBack`), and a key survives the conversion exactly when 24 more octets stay below 2^32
  (`PrivateKeyPem.ConversionKeepsKey`).
- The footer of a PKCS#1 file is looked for from the start of the text, so the base64 text "END RSA PRIVATE KEY", spaces
  included, makes a footer out of the header's hyphens and gives an empty key. `PrivateKeyPem.NormalizationKeepsKey`
  proves that no other text does.
- `retireAttempt` may return normally with the attempt still claimed: exactly if a publication of the run that it looked
  up was under way when the failing call came (`AttemptRecovery.RetireCalls`); `AttemptRecovery.HeldAfterRetirement`
  shows such a row, also that the publication may be over by the time the caller goes on.
- The failing procedure answers "stale" also when it hands a not yet started attempt back to the queue.
- Exceptions of the lint are matched by their first declaration; a duplicate is reported as a configuration error
  and as unused.

## Model

| member | source | states |
|---|---|---|
| `RateLimit.Limits` | src/lib/rate-limit.ts:33-44 | every scope has a positive window and cap |
| `RateLimit.FullKeyInjective` | src/lib/rate-limit.ts:65 | two (scope, key) pairs share a bucket key only if they are the same pair |
| `RateLimit.AcceptedStep` | src/lib/rate-limit.ts:61-91 | what one more call adds to the full log of a bucket: its time, exactly if it is admitted |
| `RateLimit.WindowNeverExceedsCap` | src/lib/rate-limit.ts:69-83 | over any run, no window of the configured length holds more than `max` accepted calls |
| `RateLimit.AcceptKeepsCap` | src/lib/rate-limit.ts:69-83 | an admitted call overfills no window, past or future |
| `RateLimit.FullUntilReset` | src/lib/rate-limit.ts:71-72 | a sorted log admits a call exactly from its reset time on |
| `RateLimit.RetryExactlyAtReset` | src/lib/rate-limit.ts:69-80 | after a rejection every call before `resetMs` is rejected and the first one from then on is accepted, whatever other buckets do |
| `RateLimit.LiveAgrees` | src/lib/rate-limit.ts:64-72 | the pruned bucket counts exactly the full log's window, and its head gives the full log's reset time |
| `RateLimit.RecordFollowsRun` | src/lib/rate-limit.ts:61-91 | recording calls one by one gives the accepted logs of the whole run |
| `RateLimit.StoreKeepsConsistent` | src/lib/rate-limit.ts:70-83 | storing one bucket keeps all buckets consistent with the full logs and changes no other bucket |
| `RateLimit.Judge` | src/lib/rate-limit.ts:66-90 | the reply is right for the never-pruned log, with the least whole-second wait, and the stored bucket fits the new log |
| `RateLimit.Limiter.constructor` | src/lib/rate-limit.ts:59 | the first call finds no earlier one |
| `RateLimit.Limiter.Check` | src/lib/rate-limit.ts:61-91 | after any calls, the reply answers for the never-pruned log of everything accepted so far in its bucket, and no other bucket changes |
| `RateLimit.Serve` | src/lib/rate-limit.ts:61-91 | a limiter serves any list of calls, each reply right for all that was accepted before it |
| `RateLimit.RepliesAreTheLog` | src/lib/rate-limit.ts:61-91 | what a limiter let through in a run is exactly what the never-pruned log accepts |
| `RateLimit.ServedWithinCap` | src/lib/rate-limit.ts:69-83 | in a run of a limiter no window holds more than `max` calls that it let through |
| `RateLimit.ServedRetries` | src/lib/rate-limit.ts:69-80 | in a run of a limiter, a call after a rejected one, with only earlier ones of its bucket in between, is let through exactly from the `resetMs` of that rejection on |
| `ModuleGraph.WalkBound` | scripts/verify-privileged-imports.ts:481-511 | every walk from the root ends in a finished module at most as far away, or is as long as the queue's head |
| `ModuleGraph.WalkFinished` | scripts/verify-privileged-imports.ts:481-511 | once the queue is empty, every module the root reaches has been expanded |
| `ModuleGraph.Shortest` | scripts/verify-privileged-imports.ts:482-484 | the path at the head of the queue is a shortest chain to its end |
| `ModuleGraph.ReportsAreForbidden` | scripts/verify-privileged-imports.ts:481-511 | an exhausted search has reported exactly the forbidden edges |
| `ModuleGraph.Scan` | scripts/verify-privileged-imports.ts:486-510 | scanning one module's imports keeps the search ordered, sound and complete for what was scanned |
| `ModuleGraph.SearchFrom` | scripts/verify-privileged-imports.ts:476-512 | on any finite graph, cycles included, the search ends; it reports each (from, to) once, exactly if it is forbidden, with a shortest real import chain ending in the first import of the edge |
| `ModuleGraph.PrintedPathIsChain` | scripts/verify-privileged-imports.ts:374-380 | the printed path starts at the root, ends at the privileged module, and each arrow is a run-time import |
| `PrivilegedImports.PrivilegedAt` | scripts/verify-privileged-imports.ts:415-417 | the lookup finds exactly the last declaration of the path |
| `PrivilegedImports.OwnerRuleMatches` | scripts/verify-privileged-imports.ts:255-263 | the early returns accept exactly the modules that meet every criterion the rule gives, if it gives any |
| `PrivilegedImports.MatchingOwnerIds` | scripts/verify-privileged-imports.ts:446-450 | exactly the ids of the rules that own the module |
| `PrivilegedImports.TestEdge` | scripts/verify-privileged-imports.ts:451-457 | an edge is unapproved exactly if it imports at run time a privileged module none of whose owners owns the importer |
| `PrivilegedImports.RuleProblems` | scripts/verify-privileged-imports.ts:288-314 | exactly the problems of the owner rules, and exactly their ids |
| `PrivilegedImports.PrivilegedProblems` | scripts/verify-privileged-imports.ts:316-339 | exactly the problems of the privileged declarations |
| `PrivilegedImports.EntryPointProblems` | scripts/verify-privileged-imports.ts:341-348 | exactly the missing entry points |
| `PrivilegedImports.ExceptionProblems` | scripts/verify-privileged-imports.ts:350-370 | exactly the blank and the repeated exceptions |
| `PrivilegedImports.InvalidConfig` | scripts/verify-privileged-imports.ts:283-372 | a diagnostic is given exactly for each problem the configuration has; none exactly if it is valid |
| `PrivilegedImports.MissingBoundaries` | scripts/verify-privileged-imports.ts:429-443 | exactly the privileged modules that lack their server-only import |
| `PrivilegedImports.FindException` | scripts/verify-privileged-imports.ts:420-427 | the first exception for the edge, or none exactly if there is none |
| `PrivilegedImports.CheckModule` | scripts/verify-privileged-imports.ts:446-468 | exactly the unapproved, unexcepted imports of a module in source order, and exactly the exceptions its unapproved imports consume |
| `PrivilegedImports.CheckModules` | scripts/verify-privileged-imports.ts:445-469 | the same for all modules in order |
| `PrivilegedImports.BrowserRoots` | scripts/verify-privileged-imports.ts:471-477 | each existing entry point and client module, once |
| `PrivilegedImports.ExceptRoot` | scripts/verify-privileged-imports.ts:490-504 | keeps exactly the reports without an exception and consumes exactly the exceptions of the others |
| `PrivilegedImports.CheckRoots` | scripts/verify-privileged-imports.ts:476-512 | for every browser root, each unexcepted forbidden edge is reported exactly once with a shortest chain, and exactly the matching exceptions are consumed |
| `PrivilegedImports.UnusedExceptions` | scripts/verify-privileged-imports.ts:514-522 | exactly the exceptions that were not consumed, in order |
| `PrivilegedImports.ConsumedByBoth` | scripts/verify-privileged-imports.ts:418-427 | both checks together consume exactly the exceptions that some needed edge matches first |
| `PrivilegedImports.PassIffClean` | scripts/verify-privileged-imports.ts:413-524 | exact diagnostics are empty exactly for a valid configuration with every boundary present and the exceptions equal to the needed edges |
| `PrivilegedImports.Verify` | scripts/verify-privileged-imports.ts:413-525 | the diagnostics are exact in every stage, and there are none exactly if the graph is clean |
| `Bytes.ConcatBytes` | src/features/github/config.ts:58-66 | the filled buffer is the concatenation of the parts |
| `Bytes.ReadBody` | src/features/github/pr-verification-api.ts:165-202 | a body is refused exactly if its declared or its actual length is over the limit, and is otherwise the concatenation of its chunks |
| `Pagination.List` | src/features/github/pr-verification-api.ts:324-353 | the page loop computes `ListFrom` |
| `Pagination.ListIsExact` | src/features/github/pr-verification-api.ts:324-353 | whatever the provider answers, a listing is returned exactly if some first pages are complete, with an envelope count equal to the rows, and then it is those rows in order |
| `Pagination.ListRefusal` | src/features/github/pr-verification-api.ts:324-353 | a refused listing throws the error of the first page at which something is wrong |
| `Pagination.StableListIsWhole` | src/features/github/pr-verification-api.ts:346-352 | a stable collection comes back whole and in order below 500 rows and is refused from 500 on |
| `Pagination.Collect` | src/features/github/pr-verification-api.ts:386-459 | the dual-cursor loop computes `CollectFrom` |
| `Pagination.AdvanceReads` | src/features/github/pr-verification-api.ts:434-455 | one served page extends a reading by exactly that page and stops exactly at the last |
| `Pagination.CollectIsWhole` | src/features/github/pr-verification-api.ts:386-458 | against stable connections every page is read once; all reviews and threads come back if both have at most five pages, and the reader refuses otherwise |
| `Pagination.CollectIsExact` | src/features/github/pr-verification-api.ts:386-459 | whatever the provider answers, a collection succeeds exactly if within five requests both connections are read from first to last page by the cursors they give, with every reply about the same pull request in the same state; then it is those pages in order |
| `Pagination.CollectRefusal` | src/features/github/pr-verification-api.ts:394-455 | a refused collection throws the error of the first thing that is wrong with the first such reply: provider errors, another target or state, a missing connection, a cursor that does not move, or no request left |
| `Pagination.EmptyIsServed` | src/features/github/pr-verification-api.ts:434-445 | an empty connection without any cursor is one that a provider may serve, so the theorem covers a pull request without reviews or threads |
| `BranchPolicy.FoldRules` | src/features/github/pr-verification-api.ts:496-521 | refuses exactly malformed rules, and otherwise tightens the policy by exactly what the rules demand |
| `BranchPolicy.TightenStep` | src/features/github/pr-verification-api.ts:496-521 | one rule tightens the policy by its own demands and loosens nothing |
| `BranchPolicy.ContextBlockersEmpty` | src/features/github/pr-verification-api.ts:577-590 | no blocker exactly if every required context has identified sources only |
| `BranchPolicy.SourceBlockersEmpty` | src/features/github/pr-verification-api.ts:591-601 | no blocker exactly if every classic check names its source |
| `BranchPolicy.DedupeKeepsEachOnce` | src/features/github/pr-verification-api.ts:618 | deduplication keeps every element exactly once |
| `BranchPolicy.FoldStatusChecks` | src/features/github/pr-verification-api.ts:575-602 | the classic checks add exactly their identified contexts, and leave open exactly the unidentified ones |
| `BranchPolicy.FoldClassic` | src/features/github/pr-verification-api.ts:575-613 | classic protection adds exactly its demands and leaves open exactly its unidentified sources |
| `BranchPolicy.FoldProtection` | src/features/github/pr-verification-api.ts:522-619 | refuses exactly a foreign protection url; protection is verified exactly if it was readable, GraphQL agrees and every source is identified, and exactly then there is no blocker |
| `BranchPolicy.FoldsDemand` | src/features/github/pr-verification-api.ts:466-613 | the folded policy asks for exactly the checks, the greatest number of approvals and the flags that requirements, rules and classic protection ask for, and names exactly their unsupported rules |
| `BranchPolicy.ClassicRequiredAre` | src/features/github/pr-verification-api.ts:591-602 | classic protection asks for exactly its identified checks, of any App for -1 and of the named App otherwise |
| `BranchPolicy.ProtectionBlockersAre` | src/features/github/pr-verification-api.ts:522-619 | each protection blocker is there exactly for its own reason, read off the reply, GraphQL and the unsupported rules |
| `PrEvidence.WorstIsMaximum` | src/features/github/pr-verification-api.ts:667-672 | the running verdict bounds all contributions under passed < checking < blocked < unknown and is one of them |
| `PrEvidence.WorstDependsOnSet` | src/features/github/pr-verification-api.ts:667-672 | only the set of contributions matters |
| `PrEvidence.LatestPerKey` | src/features/github/pr-verification-api.ts:636-644 | exactly the latest row of each source, each source once |
| `PrEvidence.SelectionIsOrderFree` | src/features/github/pr-verification-api.ts:636-644 | the selection is the same in every order exactly if no two different rows tie for latest |
| `PrEvidence.FrontWinsTie` | src/features/github/pr-verification-api.ts:636-644 | of two tied rows the one listed first is selected |
| `ChecksVerdict.WorkflowOf` | src/features/github/pr-verification-api.ts:714-716 | finds the first listed run of the check's suite, if there is one |
| `ChecksVerdict.EvaluateChecks` | src/features/github/pr-verification-api.ts:667-747 | the nested loops give the verdict that requirements, check runs, workflow runs and statuses call for, and exactly the blockers that name their facts |
| `ChecksVerdict.ChecksIsMaximum` | src/features/github/pr-verification-api.ts:667-747 | `checks` is the maximum of all contributions under passed < checking < blocked < unknown, and one of them |
| `ChecksVerdict.ChecksSayIff` | src/features/github/pr-verification-api.ts:667-747 | unknown exactly without verified protection or any evidence, or if a requirement has a stale success, an unlisted workflow run or a status of an unknown App; otherwise blocked exactly if a matching run or status failed or came from a wrong event; otherwise checking exactly if something is missing, incomplete or pending |
| `ChecksVerdict.ChecksBlockersAre` | src/features/github/pr-verification-api.ts:673-746 | each blocker code names the one fact it stands for, for a requirement of its name, and each such fact has its blocker |
| `ChecksVerdict.AgainstIff` | src/features/github/pr-verification-api.ts:689-746 | what is held against one requirement is exactly what the fields of its evidence say, with that outcome and code |
| `ChecksVerdict.MetIffNothingAgainst` | src/features/github/pr-verification-api.ts:689-746 | nothing speaks against a requirement exactly if all matching evidence is complete, successful, recent and eligible, and there is some |
| `ChecksVerdict.NoFindingsIffMet` | src/features/github/pr-verification-api.ts:673-746 | the checks give no blocker exactly if there is evidence and every requirement is met |
| `ChecksVerdict.PassedIffMet` | src/features/github/pr-verification-api.ts:667-747 | `checks` is "passed" exactly if the evidence is not empty, protection is verified and every requirement is met |
| `ChecksVerdict.MoreRequirementsNeverImprove` | src/features/github/pr-verification-api.ts:689-747 | adding requirements, anywhere, never improves the verdict |
| `ChecksVerdict.VerdictIgnoresOrder` | src/features/github/pr-verification-api.ts:689-747 | for a fixed time the verdict depends only on which requirements and rows there are, if the runs of each suite agree |
| `ChecksVerdict.DisagreementShows` | src/features/github/pr-verification-api.ts:714-723 | if they disagree, some order of the runs changes the verdict |
| `ChecksVerdict.WorkflowOrderFree` | src/features/github/pr-verification-api.ts:714-723 | the order of workflow runs never matters exactly if the runs of each suite agree |
| `PrAssessment.JudgeReviews` | src/features/github/pr-verification-api.ts:748-783 | reviews pass exactly if nothing stands in the way and are unknown exactly in the stated cases; each blocker is there exactly for its own reason |
| `PrAssessment.ReviewMaximumIff` | src/features/github/pr-verification-api.ts:759-783 | the review verdict bounds everything that the tests contribute exactly unless code owners are required and there is no decision; it is always one of the contributions, or passed |
| `PrAssessment.ReviewVerdictBelowMaximum` | src/features/github/pr-verification-api.ts:773-783 | required code owners without a decision give "blocked" although one test says "unknown" |
| `PrAssessment.JudgeMerge` | src/features/github/pr-verification-api.ts:788-812 | passes exactly if both APIs allow the merge and is unknown exactly if they leave it open; the one blocker names the reason |
| `PrAssessment.CollectChecks` | src/features/github/pr-verification-api.ts:621-651 | refuses exactly rows of another commit, and otherwise keeps exactly the latest row of each source |
| `PrAssessment.SelectEvidence` | src/features/github/pr-verification-api.ts:652-666 | the merge commit's evidence if it has any, else the head's; refuses exactly a stale or misattributed listing, with the error of the first one |
| `PrAssessment.ReadOnce` | src/features/github/pr-verification-api.ts:460-464 | true exactly if no review and no thread occurs twice |
| `PrAssessment.FoldPolicy` | src/features/github/pr-verification-api.ts:466-619 | the folded policy and protection verdict are what the rules and the protection say; refuses exactly malformed rules and a foreign url |
| `PrAssessment.AllBlockers` | src/features/github/pr-verification-api.ts:813-836 | exactly the blockers of all parts and of a draft, each once |
| `PrAssessment.Verdicts` | src/features/github/pr-verification-api.ts:667-836 | the four verdicts say what policy, evidence and replies call for; each blocker is there exactly for its own reason, none twice, and there is none exactly if everything is clear |
| `PrAssessment.Assess` | src/features/github/pr-verification-api.ts:380-836 | refuses exactly contradictory or outdated input, with the error of the first refusal; otherwise the blocker list is empty exactly if all four verdicts passed, protection is verified and the pull request is no draft |
| `PrAssessment.ListingOrderIgnored` | src/features/github/pr-verification-api.ts:621-747 | reordering the listings changes no verdict if nothing ties and suites agree |
| `PrCollection.ListCommit` | src/features/github/pr-verification-api.ts:615-632 | gives exactly the complete listing of a commit, workflow runs only where they matter, or fails |
| `PrCollection.ReadAll` | src/features/github/pr-verification-api.ts:380-827 | everything that is assessed was read completely, the merge commit being the one that GraphQL names; it fails exactly if there is no complete reading |
| `PrCollection.CollectPrVerification` | src/features/github/pr-verification-api.ts:380-836 | a snapshot is given exactly if everything can be read with nothing missing and nothing is refused, and it is right for exactly what was read |
| `PrCollection.StandingSourcesAreFullyRead` | src/features/github/pr-verification-api.ts:324-458 | from sources that do not change and fit in the page limits, everything is read: no verdict rests on truncated data |
| `WorkerObjects.Scheduler.GetActiveJobIds` | src/worker/scheduler.ts:44-46 | exactly the jobs that have an attempt in flight |
| `WorkerObjects.Scheduler.EmitHeartbeat` | src/worker/scheduler.ts:48-54 | one new outstanding write, advertising exactly the current jobs |
| `WorkerObjects.Scheduler.OnClaimResult` | src/worker/scheduler.ts:84-98 | keeps the cap, conservation and the advertised set; exactly the claimed attempt joins, in a free slot, and the loop goes on only after a new heartbeat that protects it and every job held |
| `WorkerObjects.Scheduler.OnJobSettled` | src/worker/scheduler.ts:70-74 | keeps the cap, conservation and the advertised set; exactly the ended attempt is completed and frees one slot, and every other job stays advertised |
| `WorkerObjects.FinishKeepsNewerAttempt` | src/worker/scheduler.ts:56-76 | an old attempt's end never removes another attempt of the same job from the active jobs or the heartbeat |
| `WorkerObjects.FinishAdvertisesExactly` | src/worker/scheduler.ts:44-74 | a job stops being advertised exactly when its last attempt ends |
| `WorkerObjects.AttemptKeyInjective` | src/worker/scheduler.ts:60 | two claims share a key of the in-flight map only if they are the same job and attempt |
| `WorkerObjects.Lifecycle.RequestDrain` | src/worker/lifecycle.ts:26-41 | however often it is called, the intake has been closed exactly once; the phase and the stop promise keep saying what was asked for and what has settled |
| `WorkerObjects.OutcomeStep` | src/worker/lifecycle.ts:26-48 | each call takes the outcome of a set of calls to the outcome of that set with it |
| `WorkerObjects.Drive` | src/worker/lifecycle.ts:13-48 | after any possible calls in any order and number, the state depends only on which calls were made, and the intake was closed exactly once if anything was asked for |
| `WorkerObjects.TimerTaskTracker.Run` | src/worker/shutdown.ts:23-29 | adds exactly one task that was not active |
| `WorkerObjects.TimerTaskTracker.OnTaskSettled` | src/worker/shutdown.ts:24-27 | removes exactly that task |
| `WorkerProtocol.InitialInv` | src/worker/index.ts:41-68 | the invariant holds when the process starts |
| `WorkerProtocol.SchedKeepsBound` | src/worker/scheduler.ts:83-96 | each scheduler step keeps the cap, also while a claim is pending |
| `WorkerProtocol.SchedKeepsWaits` | src/worker/scheduler.ts:118-123 | no scheduler step escapes a snapshot that a wait has taken |
| `WorkerProtocol.LifeKeepsInv` | src/worker/lifecycle.ts:26-48 | drain, stop and the three waits keep the invariant |
| `WorkerProtocol.MainKeepsInv` | src/worker/index.ts:80-189 | startup, timers and the shutdown sequence keep the invariant |
| `WorkerProtocol.RunKeepsInv` | src/worker/index.ts:22-192 | the invariant holds after every interleaving |
| `WorkerProtocol.WorkIsBoundedAndConserved` | src/worker/scheduler.ts:40-116 | in every run: at most the cap in flight; each claimed attempt in flight or completed, never lost; at most one start after a drain; the last heartbeat advertises exactly the jobs held |
| `WorkerProtocol.LateStartIsLast` | src/worker/index.ts:62-66 | after the one late start nothing is claimed any more |
| `WorkerProtocol.LateStartHappens` | src/worker/index.ts:62-66 | the one late start does happen |
| `WorkerProtocol.DrainedIsQuiet` | src/worker/lifecycle.ts:32-40 | drained, or a resolved stop, means that all claimed work has completed and no heartbeat or maintenance task is outstanding |
| `WorkerProtocol.DeregistrationIsFinal` | src/worker/shutdown.ts:42-47 | when deregistration runs, no heartbeat write is outstanding, and in no continuation does any heartbeat, task or claim begin |
| `WorkerProtocol.LifeMovesForward` | src/worker/lifecycle.ts:13-48 | the phase only moves forward, the stop promise settles once, and no request, claim or completion is forgotten |
| `WorkerProgress.CanDeregisterIffNotBroken` | src/worker/index.ts:80-189 | in every reachable state the worker can still drain everything and deregister exactly if its loop has not thrown, no wait has failed and it has not crashed |
| `WorkerProgress.BrokenNeverDeregisters` | src/worker/lifecycle.ts:32-40 | after such a failure no continuation deregisters |
| `WorkerProgress.NextIsPossible` | src/worker/shutdown.ts:32-47 | a worker that has not failed always has a next step towards its deregistration, and taking it breaks nothing |
| `WorkerProgress.NextIsCloser` | src/worker/shutdown.ts:32-47 | each such step brings the deregistration closer, so finitely many suffice |
| `WorkerProgress.Drains` | src/worker/lifecycle.ts:26-41 | without a stop request some run reaches "drained" |
| `WorkerProgress.LateStartStillDrains` | src/worker/index.ts:59-67 | a worker that starts a job during its drain still reaches "drained" and its deregistration |
| `WorkerProgress.FillsEverySlot` | src/worker/scheduler.ts:78-115 | a loop that is not draining can always go on, while there are jobs, until every slot is taken, waiting for nothing but its own heartbeats |
| `WorkerProgress.NeverStopsByItself` | src/worker/scheduler.ts:78-115 | at any time in any run, a started worker that is not draining and has not failed can fill all its slots: its loop has not ended |
| `Der.DerLength` | src/features/github/config.ts:40-47 | the loop computes `LengthOctets` |
| `Der.DigitsValue` | src/features/github/config.ts:43-45 | below 2^32 the octets have the length's value and no leading zero |
| `Der.LeastDigits` | src/features/github/config.ts:43-46 | no fewer octets have that value, and no others without a leading zero |
| `Der.LengthReadsBack` | src/features/github/config.ts:40-47 | a strict reader of sections 8.1.3 and 10.1 of X.690 gets the length back, whatever follows, exactly if it is below 2^32 |
| `Der.OnlyLengthOctets` | src/features/github/config.ts:40-47 | the strict reader accepts no other octets for a length |
| `Der.DerElement` | src/features/github/config.ts:49-56 | the buffer is tag, length and contents |
| `Der.ElementReadsBack` | src/features/github/config.ts:49-56 | an element reads back with nothing of what follows exactly if its contents are below 2^32 long |
| `Base64.SextetsReadBack` | src/features/github/config.ts:68-83 | splitting octets into sextets loses nothing |
| `Base64.QuadHasValue` | src/features/github/config.ts:77-83 | four sextets are the same number as the three octets |
| `Base64.AtobOfBtoa` | src/features/github/config.ts:68-83 | decoding undoes encoding for every byte string |
| `Base64.EncodeBase64` | src/features/github/config.ts:77-83 | encoding in chunks of 0x8000 is encoding the whole |
| `Base64.DecodeBase64` | src/features/github/config.ts:68-75 | the filled buffer holds exactly the decoded bytes; an invalid string is refused |
| `PrivateKeyPem.UnescapeLeavesNone` | src/features/github/config.ts:121 | the replacement leaves no escape and creates none |
| `PrivateKeyPem.LinesChainBack` | src/features/github/config.ts:115 | the lines chain back to the base64 text, all full but the last, none empty |
| `PrivateKeyPem.JoinedLinesReadBack` | src/features/github/config.ts:115-117 | the joined lines without white space are the base64 text |
| `PrivateKeyPem.Pkcs1ToPkcs8` | src/features/github/config.ts:85-118 | the conversion, buffers and all, is that of `Converted`, errors included, and what that does to a key is in `NormalizationKeepsKey` |
| `PrivateKeyPem.IdentifierIsRsa` | src/features/github/config.ts:94-111 | the constant octets are the AlgorithmIdentifier with the object identifier 1.2.840.113549.1.1.1 and the parameter NULL |
| `PrivateKeyPem.InfoReadsBack` | src/features/github/config.ts:94-113 | a reader of section 5 of RFC 5208 recovers exactly the PKCS#1 bytes with nothing left over, exactly if 24 more octets stay below 2^32 |
| `PrivateKeyPem.ConversionKeepsKey` | src/features/github/config.ts:85-118 | what a PKCS#8 PEM reader finds in the output is what the conversion read, exactly if 24 more octets stay below 2^32 |
| `PrivateKeyPem.UnescapeReads` | src/features/github/config.ts:121 | a text without backslashes comes back, whichever of its line feeds were written as escapes |
| `PrivateKeyPem.FooterFound` | src/features/github/config.ts:86-91 | header and footer are found where they stand, but for one text between them |
| `PrivateKeyPem.NormalizationKeepsKey` | src/features/github/config.ts:85-126 | a PKCS#1 file with any white space in its base64 text and its line feeds escaped or not becomes a PKCS#8 file with the same key, exactly if the key has room for 24 more octets and the text is not "END RSA PRIVATE KEY" |
| `PrivateKeyPem.NormalizePrivateKey` | src/features/github/config.ts:120-126 | unescaping, passing through and converting; what that does to a key is in `NormalizationKeepsKey` |
| `PrivateKeyPem.NormalizingTwice` | src/features/github/config.ts:120-126 | normalising twice is normalising once |
| `Utf16.DecodeSplits` | src/components/shared/markdown-content.server.ts:122-125 | cutting at a boundary cuts between code points |
| `Utf16.DecodeSlice` | src/components/shared/markdown-content.server.ts:122-126 | the code points between two indexed positions are those of the slice |
| `Utf16.IndexIncreases` | src/components/shared/markdown-content.server.ts:119-126 | the index is strictly increasing, from 0 to the number of code points |
| `Utf16.BuildOffsets` | src/components/shared/markdown-content.server.ts:119-126 | the keys are exactly the code-point boundaries, each with the number of code points before it |
| `SourcePositions.VisitKeepsText` | src/components/shared/markdown-content.server.ts:127-172 | the pass keeps the text content of every tree |
| `SourcePositions.VisitIsUndone` | src/components/shared/markdown-content.server.ts:127-172 | taking the marked spans away gives the tree back |
| `SourcePositions.EachLeafMarkedOnce` | src/components/shared/markdown-content.server.ts:127-172 | every text leaf is found once and in document order with the mark computed for it |
| `SourcePositions.EachLeafMarkedRight` | src/components/shared/markdown-content.server.ts:127-172 | a text leaf is marked exactly if it stands for a non-empty place between code-point boundaries: its own position, or inside code its only occurrence or else all of the code; the mark is that place in code points, exact exactly if the place has the text |
| `SourcePositions.RangeIsPlace` | src/components/shared/markdown-content.server.ts:131-149 | the computed range is the place that the leaf stands for |
| `SourcePositions.MarkIsExact` | src/components/shared/markdown-content.server.ts:150-167 | a mark is given exactly for a non-empty range between boundaries, with its code-point positions, and is exact exactly if it selects the code points of the text |
| `SourcePositions.CodeNeedsUniqueMatch` | src/components/shared/markdown-content.server.ts:133-149 | text that occurs twice in its code never gets an exact mark |
| `SourcePositions.CodeFindsUniqueMatch` | src/components/shared/markdown-content.server.ts:133-149 | text that occurs once gets the range of that occurrence |
| `HtmlTree.HtmlNode.Span` | src/components/shared/markdown-content.server.ts:157-168 | a span is a valid tree around its child |
| `HtmlTree.WrapChild` | src/components/shared/markdown-content.server.ts:157-168 | replaces one child by a span around it and changes nothing else |
| `HtmlTree.VisitChild` | src/components/shared/markdown-content.server.ts:128-171 | one round of the loop changes only its child, as the value model says |
| `HtmlTree.Visit` | src/components/shared/markdown-content.server.ts:127-172 | the tree rewritten in place is the visited tree, and stays a tree |
| `HtmlTree.ReviewSourcePositions` | src/components/shared/markdown-content.server.ts:118-174 | the tree rewritten in place has every text leaf of the old one, in order, marked as its place in the source demands |
| `AttemptRecovery.EventsAreReliable` | supabase/migrations/20261106220000_execution_budgets_usage_accounting.sql:610-711 | whatever others do, an attempt that lost its job never gets it back and a bound run stays bound |
| `AttemptRecovery.FailsOnlyItsOwn` | supabase/migrations/20261105063617_durable_remote_checkpoint_publication.sql:554-581 | the procedure fails an attempt exactly if it owns its job, has no publication under way, and its active run was named, or there is none and it is not handed back; it ends that run alone, or without one the runs that carry no attempt number |
| `AttemptRecovery.ReplyIsExact` | supabase/migrations/20261106220000_execution_budgets_usage_accounting.sql:610-711 | handed back, failed or requeued, acknowledged or left alone: each reply and each new status exactly for its own state of the attempt |
| `AttemptRecovery.StaleRunlessMeansBound` | src/worker/loop.ts:133-135 | a stale runless failure leaves a held attempt only if a run is bound |
| `AttemptRecovery.LeavesOnlyPublishing` | src/worker/loop.ts:141-153 | asked about the right run, the procedure leaves an attempt held exactly if a publication is under way, and then changes nothing |
| `AttemptRecovery.RetireCalls` | src/worker/loop.ts:122-175 | under any interference and any lost call, a normal return leaves the attempt held exactly if its examined run was publishing at the last failing call; undisturbed, exactly if it was publishing at the start; error rows are added exactly for the run this recovery ended; nothing is begun after the deadline |
| `AttemptRecovery.RetireAttempt` | src/worker/loop.ts:122-175 | the same with anything happening before the caller goes on: a normal return never leaves a held attempt with an unexamined run |
| `AttemptRecovery.HeldAfterRetirement` | src/worker/loop.ts:141-153 | a normal return with the attempt still claimed does happen, also with the publication over by then |
| `AttemptRecovery.RecordHistory` | src/worker/loop.ts:160-172 | at most one row, for the ended run; exactly one on success |
| `AttemptRecovery.OneLookupIsNotEnough` | src/worker/loop.ts:133-136 | a start that commits after a single lookup would be missed |
| `PagedLoads.LoadPages` | src/worker/stall-detector.ts:232-247 | all matching rows in order, or nothing exactly if a page that is asked for fails |
| `PagedLoads.LoadClaimedJobs` | src/worker/stall-detector.ts:206-227 | all claimed jobs, or the empty list exactly if a page fails |
| `PagedLoads.LoadRuns` | src/worker/stall-detector.ts:229-250 | over batches and pages each matching row is loaded exactly once and the runs of one job keep their order; nothing is returned exactly if a page of some batch fails |
| `StallSweep.OwnedRun` | src/worker/stall-detector.ts:91 | the first run of exactly this attempt, if there is one |
| `StallSweep.FreshJobs` | src/worker/stall-detector.ts:266-279 | exactly the jobs that a heartbeat of the last minute lists |
| `StallSweep.RetiresExactlyTheStalled` | src/worker/stall-detector.ts:89-131 | an attempt is to be retired exactly if its own run, or else the job, has not been heard of for the time-out, and that run, if any, is under way and not publishing; it is acknowledged exactly if its run succeeded |
| `StallSweep.SweepOne` | src/worker/stall-detector.ts:89-171 | the loop body has exactly the effects of `SweepJob` |
| `StallSweep.SweepStalledRuns` | src/worker/stall-detector.ts:51-173 | over fixed tables: either a read fails and nothing is done, or each claimed job that no fresh heartbeat lists is swept with all the runs that the table binds to it, paging and batching leaving no trace |
| `StallSweep.AtMostOneCallPerJob` | src/worker/stall-detector.ts:89-149 | no job gets two mutating calls |
| `StallSweep.FailsExactlyTheStalled` | src/worker/stall-detector.ts:62-149 | a failure is asked for exactly the stalled attempts that no heartbeat of the last minute lists, naming the run of exactly that attempt or none |
| `StallSweep.AcknowledgesExactlyThePublished` | src/worker/stall-detector.ts:92-105 | exactly the unlisted attempts whose own run succeeded are acknowledged, with that run |
| `StallSweep.ListsAreExact` | src/worker/stall-detector.ts:151-155 | the retried and the stalled jobs are exactly those that the procedure requeued and those that it failed |
| `StallSweep.StalledRunsAreExact` | src/worker/stall-detector.ts:159-163 | the reported runs are exactly those that went down with a retired attempt |
| `StallSweep.StopsOnlyItsOwn` | src/worker/stall-detector.ts:151-200 | a sandbox is stopped exactly for a run that went down with a retired attempt, while its re-read row still is the failed owner of that sandbox |
| `OnboardingFlow.FilteredSteps` | src/features/onboarding/flow.ts:117-133 | filtering keeps exactly the chosen steps and their order |
| `OnboardingFlow.AppendedSteps` | src/features/onboarding/flow.ts:121-126 | appending adds exactly the step and restores the order of the flow |
| `OnboardingFlow.PatchesAreValid` | src/features/onboarding/flow.ts:165-295 | every patch names both lists or neither, ordered, without duplicates, disjoint, with only skippable steps skipped |
| `OnboardingFlow.LastVerdictWins` | src/features/onboarding/flow.ts:165-265 | skipping and completing a step move exactly that step between the lists |
| `OnboardingFlow.AtomicallyActs` | src/features/onboarding/flow.ts:165-295 | each action takes effect exactly where it is admitted, and then writes exactly what it means: the next step, the lists with the step moved or the repository's dependents dropped, the status and its stamps |
| `OnboardingFlow.SevenContinues` | src/features/onboarding/flow.ts:165-189 | from a fresh row seven times "continue" visits all steps in order and completes the onboarding with all of them |
| `OnboardingFlow.SelectedStepCounts` | src/features/onboarding/onboarding-page-client.tsx:659-675 | continuing after a local selection completes the selected step |
| `OnboardingFlow.NormalizingKeepsValid` | src/features/onboarding/data.ts:1235-1315 | what the server makes of a valid payload is valid |
| `OnboardingFlow.BuildUpdatePayload` | src/features/onboarding/data.ts:1431-1456 | the update has exactly the payload's columns and the time stamps its status calls for |
| `OnboardingFlow.AtomicallyKeepsValid` | src/features/onboarding/data.ts:1162-1181 | an indivisible action keeps the row valid |
| `OnboardingFlow.AtomicallyKeepsStamps` | src/features/onboarding/data.ts:1437-1447 | an indivisible action keeps the time stamps in step with the status |
| `OnboardingFlow.ReplyReplacesCopy` | src/features/onboarding/mutation-reducer.ts:13-50 | after an accept or a conflict the copy is the row of the reply |
| `OnboardingProtocol.AcceptedWriteIsFresh` | src/features/onboarding/data.ts:1151-1181 | an accepted write finds the row its patch was built from, and does to it what the action means |
| `OnboardingProtocol.StepKeepsInv` | src/features/onboarding/data.ts:1128-1212 | every step of every client and of the server keeps the invariant |
| `OnboardingProtocol.StepsStayConsistent` | src/features/onboarding/flow.ts:117-295 | in every run the lists of the row and of every client stay ordered, duplicate-free and disjoint, with only linear and runtime skipped |
| `OnboardingProtocol.RowChangesAtomically` | src/features/onboarding/data.ts:1175-1181 | one step changes the row by at most one indivisible action |
| `OnboardingProtocol.EveryRunIsSerial` | src/features/onboarding/data.ts:1128-1212 | every interleaving is a serial run of the actions' meanings on the row: no update is lost |
| `OnboardingProtocol.DeliveryShowsTheRow` | src/features/onboarding/mutation-reducer.ts:17-38 | taking in an accept or a conflict makes step state and version those of the reply's row, and of the row if it has not changed since |
| `OnboardingProtocol.UndisturbedRequestSucceeds` | src/features/onboarding/data.ts:1128-1212 | an up-to-date client that nobody interferes with gets its action done, and then shows the row |
| `OnboardingProtocol.StaleRequestIsRefused` | src/features/onboarding/data.ts:1151-1160 | a request that is out of date when it is read changes nothing, and brings its client up to date |
| `OnboardingProtocol.StampsFollowStatus` | src/features/onboarding/data.ts:1431-1456 | in every run the row has a dismissal time exactly while it is dismissed, and a completion time when it is completed |
| `PatchBudget.SplitSliceJoin` | src/features/github/pr-diff.ts:112-114 | splitting, keeping k lines and joining gives the longest prefix with fewer than k line feeds |
| `PatchBudget.ShownIsLongestPrefix` | src/features/github/pr-diff.ts:110-125 | what is shown is the longest prefix within 400 lines and the character limits; no flag exactly if a non-empty patch is shown whole |
| `PatchBudget.ShowFileShows` | src/features/github/pr-diff.ts:110-125 | the two flags of a file tell a missing text from a shortened one |
| `PatchBudget.ShowFiles` | src/features/github/pr-diff.ts:268-286 | one shown file for each file, within the total budget |
| `PatchBudget.BoundFiles` | src/features/github/pr-diff.ts:264-286 | every file is shown by the longest prefix that fits into 400 lines, 24000 characters and what is left of 160000; unavailable exactly without text, truncated exactly if text is not shown; the sums and the mark of the diff are exact |
| `TimeFormat.RelativeLabelHolds` | src/components/shared/time-format.ts:62-82 | the relative label is the same until now + delay and another one then, for past and future times |
| `TimeFormat.LabelChangesAtBoundary` | src/components/shared/time-format.ts:67-80 | the label of an age stays up to the boundary and changes there, also from unit to unit |
| `TimeFormat.RelativeLabelSays` | src/components/shared/time-format.ts:62-72 | the label counts the whole units that have passed, in the largest unit of which one has |
| `TimeFormat.ElapsedLabelHolds` | src/components/shared/time-format.ts:84-105 | the elapsed label stays for the whole delay, which is between 1 and 1000 and ends with a whole second |
| `TimeFormat.ElapsedLabelChanges` | src/components/shared/time-format.ts:84-105 | within the first hour the elapsed label changes when the delay is over |
| `TimeFormat.ElapsedLabelSays` | src/components/shared/time-format.ts:84-97 | the counts shown, below 60 but for hours, add up to the whole elapsed seconds, or from one hour on to the whole minutes among them |
| `TimeFormat.ElapsedTellsSeconds` | src/components/shared/time-format.ts:88-96 | below one hour the label tells the number of seconds |
| `Slug.SlugsArePlain` | src/lib/workspaces.ts:3 | the pattern is exactly: letters, digits and single hyphens, none at either end, not empty |
| `Slug.SecondReplacementIsIdle` | src/lib/workspaces.ts:48-49 | the second replacement never changes what the first one leaves |
| `Slug.SlugifyGivesSlug` | src/lib/workspaces.ts:44-53 | every string gives a slug that matches the pattern |
| `Slug.SlugsAreKept` | src/lib/workspaces.ts:44-53 | a valid slug is returned unchanged |
| `Slug.SlugifyTwice` | src/lib/workspaces.ts:44-53 | slugifying twice is slugifying once |
| `Slug.SlugifyKeepsAlnums` | src/lib/workspaces.ts:44-53 | the slug has exactly the name's letters and digits in order; a name without any becomes "workspace" |

## Left out

- HTTP, GraphQL, Supabase, sandbox and Git calls: their answers are parameters; time-outs, retries and aborts of single
  requests are not modelled, except the lost and aborted calls of `retireAttempt`.
- Identity and url checks of pull requests (`getPr`): a reply that fails them is one failed request.
- PrCollection.CollectPrVerification: does not say which error is thrown when several things go wrong, because it reads
  everything before it judges anything; the order of the refusals alone is in `PrAssessment.Assess`.
- The check of the input's shape and permissions before anything is requested.
- The size limit of the serialised payload, and its fields beyond those the verdicts and blockers use.
- Login names and repository names are modelled lower-cased; blockers are compared as values, not as JSON strings.
- The order of lint diagnostics between stages and their wording, except for the printed path: diagnostics are lists per stage.
- The TypeScript program behind the module graph: the model starts from the finished graph.
- `runClaimedJob`'s deadline arithmetic and its timers: one minimum and one maximum that would only add easy members.
- Liveness of the worker: that promises settle. What is proved is what holds once they have, and that a shutdown can
  always be completed if they do and nothing fails.
- The control server, signal handlers and log lines of the worker, and the bodies of its maintenance tasks.
- JavaScript's regular expressions, `atob`, `btoa` and `toLowerCase`: replaced by functions that say what they do.
- `styleNode`, `classNames` and the markdown parser and sanitiser: one-branch rewriting and third-party code.
- Retry accounting and execution budgets inside the failing procedure: whether it grants a retry is a parameter.
- Onboarding checks of repositories, blockers and health: what they answer is a parameter of each request.
- React's stale closures: a client builds a patch from the copy whose version it sends.
- Timestamps that do not parse in time labels: their label is constant.
- OAuth, install state, cookies, environment parsing, user interface and release scripts.
