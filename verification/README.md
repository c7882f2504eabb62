# Verified models of the monorepo's tools

Six programs of the repository, modelled in Dafny and proved correct against what their
sources and documentation promise.

- **dag-runner** (`Dag*.dfy`, `ProcessGroup.dfy`, `NodeRefinement.dfy`): the scheduler that runs a graph of tasks and
  services. Validation, cycle detection and ordering are modelled as the depth-first searches
  they are. The run itself is a transition system: each action is one stretch of a node's
  future between two awaits, atomic on the single-threaded runtime, together with the event
  that ended the await. Child exits, probes, timeouts and Ctrl-C are environment choices, and
  so is the order in which runnable futures are polled.
- **weave-slack-bot** (`Slack*.dfy`): the crash-recoverable delivery protocol. One durable log
  keyed by operation id, one bot incarnation at a time, requests that may land after the crash
  of their sender, and every interleaving of ingest, delivery, replay, crash and restart.
- **cve-scan** (`Nix*.dfy`, `Cve*.dfy`, `Version*.dfy`, `Cpe.dfy`, `Nvd*.dfy`): reachability over
  the store graph, findings and their merge, VEX statements, the verdict, the evidence report
  and its validator, the NVD configuration evaluator and the version order.
- **blast-radius** (`BlastRadius.dfy`, `RootCauses.dfy`): the frontier of changed derivations and
  its ranking.
- **code-tokenizer** (`Code*.dfy`): the streaming tokenizer against a
  stateless boundary rule, and the rule against identifiers put together from words.
- **claude-hooks** (`Shell*.dfy`): the quote-aware statement splitter and
  the expansion of `sh -c` scripts.

`Wrappers`, `Ordering`, `Keyed`, `Digraph` and `Text` hold what several of them share: options and
results, string order and sorting, lists of keyed records, paths and cycles, string helpers.

Oracles stand for what the programs only call: the RFC 3339 parser is a parameter (`Clock`), the
Unicode alphanumeric test of the shell guard is a parameter (`alnum`), and a character of the
tokenizer is a record of the classes and the width Unicode gives it. What processes, signals
and probes answer is passed in or chosen by the transition system.

Eight promises turn out not to hold as stated. Each has a failing input and its exact condition:

- "All tasks succeeded, so the run exits 0" fails when a service is still waiting as the last
  task settles. It can happen exactly if some service is no transitive dependency of a task
  (`DagCoverage.TasksSufficeIff`), and with prompt polling exactly if some dependency of a
  service is none (`DagPrompt.PromptlySufficeIff`).
- A report built from a scan can be refused by its own validator
  (`CveCollision.RefusedReport`): exactly if a root reaches two paths one of which spells out
  an identity of the other after a `#` (`CveBuild.BuildReport`).
- A restarted bot need not own every thread a crashed one owned
  (`SlackGuarantees.DisagreeingThreadsAreLost`): it does exactly if each of them is named by a
  recorded delivery (`SlackGuarantees.ThreadsSurviveIff`).
- A true verdict on an NVD tree with `negate` need not survive what is unknown about the
  machine (`NvdMeaning.NegationIsNotRobust`): it does exactly if interval evaluation says so
  (`NvdMeaning.RobustVerdict`).
- A changed check need not have a cause (`RootCauses.UnfoundedHasNoCause`): it has exactly if
  nothing below it is missing or on a cycle (`RootCauses.ExplainableIff`).
- A bot may post again for an event it already knows as sent (`SlackReposts.RepostHappens`):
  exactly if a delivery of it is past the test for sent keys or a task for it is not yet
  through (`SlackReposts.RepostIff`).
- Two events need not have different message ids (`SlackIds.NulSharesId`): an event shares its id
  with another one exactly if its channel or its timestamp has a NUL in it (`SlackIds.SharesIdIff`).
- Equal versions need not compare alike with a third (`Versions.EqualDoesNotSubstitute`): they
  do exactly if no zero of one meets text in the third (`Versions.SubstitutionFailsIff`).

## Model

| member | source | states |
|---|---|---|
| `DagSpec.ValidateNode` | packages/dag-runner/src/main.rs:548-593 | accepts a node exactly when it is well formed; every refusal names a defect the node really has |
| `DagSpec.Validate` | packages/dag-runner/src/main.rs:532-543 | accepts exactly the specifications whose nodes are well formed, whose dependencies exist and whose graph is acyclic; a refusal is justified |
| `DagSpec.CycleSearch.Visit` | packages/dag-runner/src/main.rs:646-668 | colours everything below the node black and restores the gray chain, or returns a chain that ends in a real dependency cycle |
| `DagSpec.DetectCycle` | packages/dag-runner/src/main.rs:634-668 | accepts a graph with known dependencies if and only if it is acyclic; the chain of a rejection ends in a cycle |
| `DagSpec.TopoWalk.Visit` | packages/dag-runner/src/main.rs:685-698 | appends the node and everything below it, dependencies first, without repetition |
| `DagSpec.TopologicalOrder` | packages/dag-runner/src/main.rs:670-698 | on an acyclic graph the order is a permutation of the nodes with dependencies first |
| `DagSpec.FilterOnly` | packages/dag-runner/src/main.rs:598-632 | succeeds exactly when every name exists and no kept node loses a dependency; the kept part is closed and stays valid |
| `DagProtocol.Launch` | packages/dag-runner/src/main.rs:712-742 | futures are created dependencies first, every receiver lookup succeeds, and the futures start from the initial state of the transition system |
| `DagProtocol.ExitCode` | packages/dag-runner/src/main.rs:1834-1840 | the largest exit contribution of any record, zero when there is none |
| `DagSafety.StepKeepsInv` | packages/dag-runner/src/main.rs:726-847 | every enabled step keeps the invariant tying phases, verdicts, counter, reason and records together, and changes nothing already published |
| `DagSafety.RunKeepsInv` | packages/dag-runner/src/main.rs:712-768 | the invariant holds in every state of every run |
| `DagSafety.PublishedOnceForAll` | packages/dag-runner/src/main.rs:385-408 | over a whole run each node has at most one verdict, the shutdown reason is write-once and records never change |
| `DagSafety.SpawnedOnlyWhenReady` | packages/dag-runner/src/main.rs:801-847 | a child is spawned only when all its dependencies published Ready and no reason is set, and those verdicts stay |
| `DagSafety.DrainedOnlyAfterTasks` | packages/dag-runner/src/main.rs:743-768 | Drained is published only if there is a task and every task has a record |
| `DagSafety.ShutdownHasACause` | packages/dag-runner/src/main.rs:1284-1433 | Aborted is published exactly when a service has failed, only services under a reason are Stopped, only tasks Succeed |
| `DagSafety.UnavailableForcesSkip` | packages/dag-runner/src/main.rs:783-847 | a recorded node with an unavailable dependency was skipped and is itself unavailable |
| `DagSafety.DependentsOfUnavailableAreSkipped` | packages/dag-runner/src/main.rs:783-847 | when a run is over every transitive dependent of an unavailable node was skipped |
| `DagSafety.ExitsZeroIff` | packages/dag-runner/src/main.rs:468-474 | a finished run that was not cancelled exits 0 if and only if no node was skipped, every task succeeded and every service was stopped or left with status 0 |
| `DagSafety.CancelledExits130` | packages/dag-runner/src/main.rs:468-474 | a run that was cancelled at any moment exits 130 |
| `DagOutcomes.RecordedAsDecided` | packages/dag-runner/src/main.rs:1213-1433 | in a finished run each node has the outcome of the event that decided it: a child's own exit code, 1 for a signal or a failed wait, 124 for a timeout, 127 for a failed spawn, 130 or 143 for a task stopped by the runner, Stopped for a service stopped by it |
| `DagOutcomes.RecordHasEvent` | packages/dag-runner/src/main.rs:1213-1433 | and the other way round: each record of a finished run is the outcome of an event that happened to its node |
| `DagOutcomes.TimedOutHasLimit` | packages/dag-runner/src/main.rs:1213-1282 | so a task is recorded with 124 only if it has a timeout or its child exited with 124 |
| `DagOutcomes.FailedTaskExits` | packages/dag-runner/src/main.rs:1834-1840 | a task that exits with a nonzero code is recorded with it, and a run of that task alone exits with it |
| `DagOutcomes.ExitsWithWorst` | packages/dag-runner/src/main.rs:1834-1840 | the runner exits with the code of a failed node unless another one is worse |
| `DagProgress.StepLowersMeasure` | packages/dag-runner/src/main.rs:712-847 | every step strictly lowers a measure of the state |
| `DagProgress.RunsAreBounded` | packages/dag-runner/src/main.rs:712-768 | no run is longer than the initial measure, whatever children, probes and the operator do |
| `DagProgress.WaitingCanProceed` | packages/dag-runner/src/main.rs:783-800 | some waiting node depends on no waiting node, so it can proceed once the others have published |
| `DagProgress.StuckMeansDone` | packages/dag-runner/src/main.rs:783-847 | a state in which nothing can proceed has a record for every node, or only idle services of a specification without tasks |
| `DagProgress.NoCircularWait` | packages/dag-runner/src/main.rs:712-847 | in every reachable unfinished state of a valid specification with a task some node can proceed |
| `DagProgress.InterruptFinishes` | packages/dag-runner/src/main.rs:478-492 | in every reachable state without a reason Ctrl-C is heard, and the run can then be brought to its end with exit code 130 |
| `DagProgress.RunsEndComplete` | packages/dag-runner/src/main.rs:712-768 | a run that can go no further has exactly one record per node and no service left running |
| `DagProgress.ServicesOnlyNeverDrain` | packages/dag-runner/src/main.rs:743-768 | a specification without tasks never publishes Drained and goes down only by cancellation or a failed service |
| `DagProgress.SucceededTasksMayExitOne` | packages/dag-runner/src/main.rs:743-768 | "all tasks succeeded, so exit 0" is false: a run in which a service still waiting when the last task settles is skipped, and the exit code is 1 |
| `DagProgress.SlowServiceExists` | packages/dag-runner/src/main.rs:743-768 | there is a valid specification of that shape |
| `DagCoverage.TasksSufficeIff` | packages/dag-runner/src/main.rs:743-768 | every finished, uncancelled run whose tasks all succeeded exits 0, if and only if every service is a transitive dependency of some task |
| `DagCoverage.CoveredExitsZero` | packages/dag-runner/src/main.rs:468-474 | the first half: with such services no service is skipped and none can have failed, because an abort leaves some task unsuccessful |
| `DagCoverage.UncoveredMaySkip` | packages/dag-runner/src/main.rs:743-847 | the second half: for every other service a finished run that drains, has all tasks succeed and skips it; the order in which runnable futures are polled is left open |
| `DagPrompt.PromptlySufficeIff` | packages/dag-runner/src/main.rs:743-847 | the same when an outside event is taken up only while no future can run by itself: the run exits 0 if and only if every dependency of every service is a transitive dependency of some task |
| `DagPrompt.UnfedMaySkip` | packages/dag-runner/src/main.rs:743-847 | otherwise, for every other dependency of a service, a prompt run that skips the service |
| `ProcessGroup.OwnedProcessGroup.Terminate` | packages/dag-runner/src/main.rs:1622-1634 | asks, then kills, and reaps only after the kill; the group stays armed exactly when the kill failed |
| `ProcessGroup.OwnedProcessGroup.Drop` | packages/dag-runner/src/main.rs:1050-1059 | kills a group that is still armed and leaves any other alone |
| `ProcessGroup.RunTask` | packages/dag-runner/src/main.rs:1213-1282 | each way a task can end with its outcome: its own exit code, 1, 124, 130 or 143; a disarmed group was killed or reaped first |
| `ProcessGroup.RunService` | packages/dag-runner/src/main.rs:1284-1409 | each way a service can end with its outcome: 124 for a missed deadline, its own exit code or 1, Stopped; one verdict, Ready exactly when the probe passed; an abort request exactly when the service failed |
| `ProcessGroup.ServiceExit` | packages/dag-runner/src/main.rs:1415-1433 | a service that leaves by itself is Failed with its status, 0 included, and 1 when it has none |
| `ProcessGroup.Execute` | packages/dag-runner/src/main.rs:1076-1138 | on every path the group was killed or its leader reaped before it was disarmed, or Drop kills it; no signal follows a successful reap |
| `ProcessGroup.RunNode` | packages/dag-runner/src/main.rs:801-847 | exactly one readiness verdict on every path, skipped exactly when a dependency failed or a reason is set, aborts only for a failed service |
| `NodeRefinement.HistoryIsRun` | packages/dag-runner/src/main.rs:801-847 | whatever the other nodes do between its stretches, every history of a node in the transition system is a run of `run_node` in some environment: the same steps, outcome, verdict and requests |
| `NodeRefinement.RunIsHistory` | packages/dag-runner/src/main.rs:801-847 | and every run of `run_node` that can happen is such a history |
| `NodeRefinement.RunningTells` | packages/dag-runner/src/main.rs:1213-1282 | for a running task: its history is one way of completing, with that outcome and verdict |
| `NodeRefinement.StartingTells` | packages/dag-runner/src/main.rs:1284-1433 | for a started service: its history is one way of coming up or not and of ending, with that outcome, verdict and abort request |
| `SlackSafety.StateIsProgress` | packages/weave-slack-bot/weave_slack_bot.py:185-242 | the latest state fact of an event is determined by which of its operations have been applied |
| `SlackSafety.StepKeepsInv` | packages/weave-slack-bot/weave_slack_bot.py:300-428 | every step of ingest, delivery, replay, Weave, crash and restart keeps the invariant |
| `SlackSafety.RunKeepsInv` | packages/weave-slack-bot/weave_slack_bot.py:300-428 | the invariant holds in every state of every run |
| `SlackGuarantees.StateOnlyAdvances` | packages/weave-slack-bot/weave_slack_bot.py:185-242 | the durable state of an event never moves back, across any interleaving and any crash |
| `SlackGuarantees.StateNeverSkips` | packages/weave-slack-bot/weave_slack_bot.py:185-242 | no step moves an event by more than one state |
| `SlackGuarantees.SentWasPosted` | packages/weave-slack-bot/weave_slack_bot.py:386-428 | sent implies a successful post, and all posts for one event carry the same client message id |
| `SlackIds.SameIdIff` | packages/weave-slack-bot/weave_slack_bot.py:396-401 | over a whole run two posts carry the same message id if and only if they are for the same event, for channels without the NUL that separates channel and timestamp |
| `SlackIds.NulSharesId` | packages/weave-slack-bot/weave_slack_bot.py:101-103 | with a NUL in the channel two events can share an id |
| `SlackIds.SharesIdIff` | packages/weave-slack-bot/weave_slack_bot.py:101-103 | an event shares its id with another one if and only if there is a NUL in its channel or its timestamp |
| `SlackGuarantees.OneLiveTaskPerEvent` | packages/weave-slack-bot/weave_slack_bot.py:368-373 | an incarnation has at most one live delivery task per key, and only for dispatched events |
| `SlackGuarantees.AckedIsDispatched` | packages/weave-slack-bot/weave_slack_bot.py:483-506 | an acknowledged event is durably recorded and dispatched |
| `SlackGuarantees.IngestEndsAcked` | packages/weave-slack-bot/weave_slack_bot.py:483-506 | an ingest call acknowledges its event, one already sent included, unless it fails |
| `SlackGuarantees.ReadBackASnapshot` | packages/weave-slack-bot/weave_slack_bot.py:244-277 | what `start` replays is a complete snapshot of the log at an earlier moment of the same incarnation |
| `SlackGuarantees.StartRecoversEverything` | packages/weave-slack-bot/weave_slack_bot.py:300-311 | after `start` every recorded sent key is known as sent, and every other recorded event is dispatched and has a delivery task |
| `SlackGuarantees.AckedIsNeverLost` | packages/weave-slack-bot/weave_slack_bot.py:354-428 | every started incarnation knows each ever-acknowledged event as sent or has a live delivery task for it, unless Slack permanently refused a post for it |
| `SlackGuarantees.StartOwnsRecorded` | packages/weave-slack-bot/weave_slack_bot.py:300-311 | when `start` returns the bot owns exactly the threads named by the deliveries recorded at its query |
| `SlackGuarantees.ThreadsSurviveIff` | packages/weave-slack-bot/weave_slack_bot.py:300-311 | a restarted bot owns every thread a crashed one owned if and only if each is named by a delivery recorded when it queried the log |
| `SlackGuarantees.ThreadsSurviveCrashes` | packages/weave-slack-bot/weave_slack_bot.py:300-311 | in particular, and for as long as it is up, when deliveries of one message agree on its thread |
| `SlackGuarantees.DisagreeingThreadsAreLost` | packages/weave-slack-bot/weave_slack_bot.py:354-366 | a run in which two deliveries of one message name different threads and the second is lost in a crash |
| `SlackReposts.RepostIff` | packages/weave-slack-bot/weave_slack_bot.py:354-428 | a started incarnation that knows an event as sent may post for it again if and only if a delivery of it is past the test for sent keys, or a task for it is not yet through |
| `SlackReposts.RepostHappens` | packages/weave-slack-bot/weave_slack_bot.py:354-373 | for every event a run in which a retried delivery leads there |
| `NixClosure.ValidateGraph` | packages/cve-scan/src/nix.rs:36-61 | accepts exactly the non-empty graphs whose entries are well formed and whose references are present; every refusal names a defect the graph really has |
| `NixClosure.ValidateRoot` | packages/cve-scan/src/nix.rs:142-162 | accepts exactly the roots named by their key, owned, with a deadline and present in the graph; every refusal names a defect the root really has |
| `NixClosure.SearchIsClosure` | packages/cve-scan/src/nix.rs:112-134 | a finished breadth-first search knows exactly what its root reaches |
| `NixClosure.DistanceIsShortest` | packages/cve-scan/src/nix.rs:112-134 | the distance recorded for a node is a lower bound for every path to it |
| `NixClosure.Explore` | packages/cve-scan/src/nix.rs:112-134 | one root: a breadth-first tree of everything reached, the root listed once for each path |
| `NixClosure.ClosureIsExact` | packages/cve-scan/src/nix.rs:109-140 | each path lists, once each, exactly the roots that reach it |
| `NixClosure.ComputeReachability` | packages/cve-scan/src/nix.rs:109-140 | computes the reachability of all roots, on cyclic graphs too; succeeds if and only if every root is valid and everything the roots reach has an entry; a refusal names a defect of a root or a reachable path without an entry |
| `NixClosure.ValidGraphIsPresent` | packages/cve-scan/src/nix.rs:36-61 | a graph that passes validation has an entry for everything its valid roots reach |
| `NixClosure.Path` | packages/cve-scan/src/nix.rs:88-104 | terminates and returns a shortest reference chain exactly when the root is known and reaches the goal |
| `CveModel.ValidateSnapshot` | packages/cve-scan/src/advisory.rs:60-77 | accepts exactly the snapshots with metadata, distinct ids and valid targets; every refusal names a defect the snapshot really has |
| `CveModel.ValidateVex` | packages/cve-scan/src/vex.rs:44-96 | accepts exactly the current documents without duplicate ids or keys whose not-affected statements are explained and unexpired; every refusal names a defect the document really has |
| `CveModel.Assessment` | packages/cve-scan/src/vex.rs:99-112 | finds a statement for this root, identity and advisory exactly when there is one |
| `CveModel.AssessmentIsUnique` | packages/cve-scan/src/vex.rs:99-112 | in a valid document the assessment is the one statement that applies |
| `CveModel.MatchesIff` | packages/cve-scan/src/advisory.rs:176-208 | a target matches a package if and only if the package lists that purl, CPE, commit or nixpkgs attribute and version, and the match is the target |
| `CveFields.PurlIff` | packages/cve-scan/src/advisory.rs:126-149 | the accepted package URLs are a type, a name that may hold a namespace, a version, and qualifiers or a subpath, put together in that way |
| `CveFields.CpeIff` | packages/cve-scan/src/advisory.rs:150-162 | the accepted CPE names are thirteen fields joined by colons with explicit vendor, product and version |
| `CveFields.CommitIff` | packages/cve-scan/src/advisory.rs:164-173 | the accepted commits are seven or more hexadecimal digits with a repository |
| `CveFields.PackageIff` | packages/cve-scan/src/advisory.rs:100-124 | a package is valid if and only if it has a name, a version and some identity, and every identity it lists could be the target of an advisory |
| `CveFields.EvidenceIff` | packages/cve-scan/src/scan.rs:414-434 | evidence is valid if and only if nothing it cites is blank, white space being what Unicode calls so |
| `CveFields.IdentityIff` | packages/cve-scan/src/scan.rs:393-413 | an identity is valid if and only if all the evidence it rests on and all its packages are, and unless it is unknown it rests on some; what is no package needs a reason |
| `CveFindings.RaiseFindings` | packages/cve-scan/src/scan.rs:150-229 | the nested loops raise the findings of every package, root, advisory target and declared vulnerability |
| `CveFindings.SiteFindingsSound` | packages/cve-scan/src/scan.rs:150-229 | every raised finding has an advisory target the package lists or a vulnerability nixpkgs declares behind it, is confirmed exactly when targeted on evidence other than nixpkgs metadata, and is described by its advisory |
| `CveFindings.SiteFindingsComplete` | packages/cve-scan/src/scan.rs:150-229 | every target of an advisory that the package lists and every vulnerability nixpkgs declares is raised, with its key and scope |
| `CveMerge.MergeFindings` | packages/cve-scan/src/scan.rs:261-275 | one finding per key, taken from the list, Confirmed if and only if some finding with that key was |
| `CveMerge.SortedIsGrouped` | packages/cve-scan/src/scan.rs:244-251 | sorting by key makes equal keys adjacent, which the merge relies on |
| `CveMerge.KeyBeforeIff` | packages/cve-scan/src/scan.rs:244-251 | the sort key orders findings by root, advisory, component and identity, an identity by its kind and then its content |
| `CveMerge.Digest` | packages/cve-scan/src/scan.rs:244-275 | sorting, assessing and merging yields one assessed finding per raised key, in key order |
| `CveScan.Scan` | packages/cve-scan/src/scan.rs:114-336 | succeeds if and only if its inputs are valid and everything the roots reach has an entry; the report has one component per reachable path, in path order, with the identity and coverage its evidence gives it, and one finding per exposure, in key order, Confirmed when some evidence confirms it, described by its advisory and explained by a shortest chain |
| `CveScan.ValidGraphSuffices` | packages/cve-scan/src/scan.rs:114-129 | on a validated graph only the snapshot, the VEX document and the roots can be at fault |
| `CveScan.ComponentExact` | packages/cve-scan/src/scan.rs:150-229 | the findings of one component are exactly the ones its identity gives cause for |
| `CveScan.CauseIsExposure` | packages/cve-scan/src/scan.rs:132-243 | what the component walk finds is what the inputs imply |
| `CveScan.CleanIff` | packages/cve-scan/src/scan.rs:277-313 | Clean if and only if every reachable path is identified and routable or no package, and every exposure is confirmed and excused by a statement in force for that very root, identity and advisory |
| `CveScan.IncompleteIff` | packages/cve-scan/src/scan.rs:277-313 | Incomplete if and only if something reachable is unknown or unroutable, or some exposure rests on unconfirmed evidence alone |
| `CveScan.VerdictsAgree` | packages/cve-scan/src/scan.rs:277-313 | two reports on the same inputs have the same verdict |
| `CveScan.ReportsAgree` | packages/cve-scan/src/scan.rs:114-336 | and agree on every finding, its applicability, assessment and chain length |
| `CveEvidence.PackageEvidenceOf` | packages/cve-scan/src/adapter.rs:92-155 | computes the node and the packages of a component |
| `CveEvidence.PackagesAre` | packages/cve-scan/src/adapter.rs:92-155 | each of them is the node of the store path, or stands for an exact identity, described by the first package filed under it and evidenced by exactly those filed under it |
| `CveReport.ValidateProduct` | packages/cve-scan/src/evidence.rs:108-170 | accepts exactly the products with distinct ids whose edges, findings and explanation paths resolve; every refusal names a defect the product really has |
| `CveReport.ValidateReport` | packages/cve-scan/src/evidence.rs:31-46 | accepts exactly the reports of the supported schema with distinct, valid products; every refusal names a defect the report really has |
| `CveProducts.FindingLocated` | packages/cve-scan/src/adapter.rs:195-209 | filing a finding of a scan never panics and files it under a package of its own component |
| `CveProducts.ProductsLinked` | packages/cve-scan/src/adapter.rs:15-69 | every edge, finding and node on an explanation path of a product is a package of that product |
| `CveCanonical.CanonicalKeepsValidity` | packages/cve-scan/src/evidence.rs:89-106 | canonicalising neither repairs nor breaks a product |
| `CveCanonical.CanonicalizedKeepsValidity` | packages/cve-scan/src/evidence.rs:20-28 | canonicalising neither repairs nor breaks a report |
| `CveCanonical.DistinctIffCollisionFree` | packages/cve-scan/src/adapter.rs:92-159 | package ids are distinct if and only if no two components share one |
| `CveCanonical.CollideIff` | packages/cve-scan/src/adapter.rs:157-159 | two components with different paths share a package id if and only if one path is the other plus "#" and an exact identity of the other, or the beginning of one that an identity of its own completes |
| `CveContents.ProductShown` | packages/cve-scan/src/adapter.rs:21-69 | the product of a root has a node for every store path the root reaches and every identity of one, an edge for every reference between them, and one finding per exposure, filed under a package of its component, assessed and explained by a shortest chain; and nothing else |
| `CveContents.CanonicalShows` | packages/cve-scan/src/evidence.rs:89-106 | canonicalising changes nothing of that |
| `CveOrder.CanonicalizedInOrder` | packages/cve-scan/src/evidence.rs:20-28 | a canonical report lists products and packages by id, edges by source and target without repetition, and findings by advisory and package |
| `CveBuild.RealizedIff` | packages/cve-scan/src/adapter.rs:291-315 | the roots a report is made for are the top-level store paths: a hash of 32 characters in the alphabet of store paths, a dash and a name |
| `CveBuild.BuildReport` | packages/cve-scan/src/adapter.rs:15-90 | on the result of a scan: no panic, an error exactly for an unrealized root, which it names, one product per root showing exactly that and in order, and a report that validates if and only if no root reaches two paths one of which spells out an identity of the other in that way |
| `CveCanonical.HashFreeIsUnambiguous` | packages/cve-scan/src/adapter.rs:157-159 | with no "#" in any store path there is no such pair, so every report validates |
| `CveCollision.RefusedReport` | packages/cve-scan/src/adapter.rs:92-159 | for every realized path and valid purl, inputs whose scan succeeds with realized roots and whose report the validator refuses |
| `CveCollision.RefusedExample` | packages/cve-scan/src/adapter.rs:291-315 | the same spelled out for every store hash and name and every plain purl |
| `Versions.VersionTokens` | packages/cve-scan/src/import.rs:522-569 | the loop computes the tokens of a version, refusing inexact versions, foreign characters and 64-bit overflow |
| `Versions.TokensRoundTrip` | packages/cve-scan/src/import.rs:522-569 | every non-empty list of tokens is what its written form is read as |
| `VersionReading.TokensIff` | packages/cve-scan/src/import.rs:522-569 | a version is read as given segments if and only if it can be written as runs of digits or letters that stand for them, regardless of case, cut at separators and where one kind meets the other, with every number below 2^64 |
| `Versions.CompareVersions` | packages/cve-scan/src/import.rs:493-516 | compares two version strings token by token, failing exactly when a token list or a pair of tokens does |
| `VersionOrder.LessIff` | packages/cve-scan/src/import.rs:493-516 | one version is below another if and only if the first segment in which they differ says so: a smaller number, an earlier text, or a missing segment against one that is not zero |
| `VersionOrder.EqualIff` | packages/cve-scan/src/import.rs:493-516 | two versions are equal if and only if they differ in no segment, a missing one counting as zero |
| `Versions.Reflexive` | packages/cve-scan/src/import.rs:493-516 | every version equals itself |
| `Versions.Flips` | packages/cve-scan/src/import.rs:493-516 | swapping the arguments reverses the answer and fails exactly when the other order does |
| `Versions.LessThenAtMost` | packages/cve-scan/src/import.rs:493-516 | below something at most c is below c, and the two always compare |
| `Versions.Transitive` | packages/cve-scan/src/import.rs:493-516 | transitive whenever the three comparisons are defined |
| `Versions.SubstitutionFailsIff` | packages/cve-scan/src/import.rs:493-516 | after an equality the third comparison is undefined if and only if a zero segment of the first version meets text in the third |
| `Versions.EqualDoesNotSubstitute` | packages/cve-scan/src/import.rs:493-516 | as in 1.0, 1 and 1.a |
| `Versions.TrailingZero` | packages/cve-scan/src/import.rs:509-512 | a trailing zero segment is irrelevant unless the other version has text in its place, and then the two no longer compare |
| `Versions.AcceptedFormInterval` | packages/cve-scan/src/import.rs:433-457 | the versions accepted by start and end bounds form an interval |
| `Cpe.ParseCpe` | packages/cve-scan/src/import.rs:464-491 | the loop splits at unescaped colons and refuses wrong prefixes, dangling escapes and field counts |
| `Cpe.NameRoundTrip` | packages/cve-scan/src/import.rs:464-491 | reading an escaped name gives its fields back, whatever they contain |
| `Cpe.ParseIsName` | packages/cve-scan/src/import.rs:464-491 | whatever is accepted has the two fixed fields, and its canonical form reads the same |
| `Nvd.MatchExact` | packages/cve-scan/src/import.rs:393-462 | a match is grounded exactly when the criteria cover the requested name field by field, and true exactly when the version is also at least or above the lower bounds and at most or below the upper bounds that are given |
| `Nvd.MatchFailsIff` | packages/cve-scan/src/import.rs:393-462 | a match cannot be evaluated if and only if it lacks or denies the vulnerable flag, a name does not parse, or a bound with which the version cannot be compared is met before one that refuses it |
| `Nvd.RangeIsInterval` | packages/cve-scan/src/import.rs:433-457 | the version strings a match accepts form an interval |
| `Nvd.TrueIsGrounded` | packages/cve-scan/src/import.rs:350-391 | every true verdict is grounded, negation included |
| `NvdMeaning.RobustIff` | packages/cve-scan/src/import.rs:350-391 | a tree holds under every truth assignment to its ungrounded leaves if and only if its interval evaluation says so |
| `NvdMeaning.VerdictIsTruth` | packages/cve-scan/src/import.rs:350-391 | the verdict is the meaning of the tree with every ungrounded leaf taken as false |
| `NvdLogic.TruthMeans` | packages/cve-scan/src/import.rs:373-391 | that meaning: an OR holds when some term does, an AND when every term does, and negation turns either around |
| `NvdLogic.EvaluatesIff` | packages/cve-scan/src/import.rs:350-391 | a configuration can be evaluated if and only if it is well formed, all its terms can be, every term of an AND is grounded and so is some term of a negation; its verdict is grounded if and only if some leaf below is |
| `NvdMeaning.RobustVerdict` | packages/cve-scan/src/import.rs:350-391 | a tree holds under every assignment if and only if its verdict is true and its interval evaluation agrees |
| `NvdMeaning.EvenNegationVerdict` | packages/cve-scan/src/import.rs:350-391 | when every ungrounded leaf lies below an even number of negations the verdict is true if and only if the tree holds under every assignment |
| `NvdMeaning.NegateFreeVerdict` | packages/cve-scan/src/import.rs:350-391 | in particular for trees without negation |
| `NvdMeaning.NegationIsNotRobust` | packages/cve-scan/src/import.rs:384-390 | with negation a true and grounded verdict can fail under some assignment |
| `BlastRadius.FrontierWalk.Collect` | packages/blast-radius/src/causes.rs:71-99 | expands every newly seen derivation and blames exactly the frontier among them, staying inside every closed set around the start |
| `RootCauses.FrontierNames` | packages/blast-radius/src/causes.rs:71-99 | the names of the changed derivations without changed inputs reachable through changed ones, no more and no fewer |
| `RootCauses.PruningIsExact` | packages/blast-radius/src/causes.rs:52-99 | with a closed base that agrees with head on shared basenames, pruning loses nothing against the full head closure |
| `RootCauses.ExplainableIff` | packages/blast-radius/src/causes.rs:71-99 | a derivation that changed has a cause against every base if and only if nothing it depends on is missing from the head graph or on a cycle; the closed bases that agree with head on shared basenames are enough to tell |
| `RootCauses.ChangedHasCause` | packages/blast-radius/src/causes.rs:71-99 | the first half, against any base |
| `RootCauses.UnfoundedHasNoCause` | packages/blast-radius/src/causes.rs:79-98 | the second half: against the sound part of its own graph any other derivation is changed and has no cause |
| `RootCauses.AlwaysExplainedIff` | packages/blast-radius/src/causes.rs:71-99 | every changed check has a cause, against every such base, if and only if the head graph is closed and acyclic |
| `RootCauses.RootCausesOf` | packages/blast-radius/src/causes.rs:105-142 | the best causes of the full ranking, most checks first and then by name, each with exactly its checks, cut to the caps |
| `RootCauses.RankingIsUnique` | packages/blast-radius/src/causes.rs:126-134 | the ranking by fan-out and name is determined by the graphs and the checks |
| `RootCauses.EveryCheckExplained` | packages/blast-radius/src/causes.rs:105-142 | no changed check with a sound derivation goes unexplained in the full ranking |
| `CodeTokenizer.CodeTokenStream.Advance` | packages/code-tokenizer/src/lib.rs:70-153 | yields the next token of the stateless rule with its position and span, or changes nothing when none is left |
| `CodeTokenizer.CodeTokenStream.Extend` | packages/code-tokenizer/src/lib.rs:107-152 | takes in characters exactly up to the end the stateless rule gives |
| `CodeTokenizer.BreakIff` | packages/code-tokenizer/src/lib.rs:115-135 | the remembered flag and the lookahead decide exactly the stateless boundary rule |
| `CodeTokenizer.Tokenize` | packages/code-tokenizer/src/lib.rs:70-153 | draining a stream yields exactly the tokens of the stateless rule |
| `CodeTokens.SpansAreOrdered` | packages/code-tokenizer/src/lib.rs:70-153 | spans are ordered, disjoint and on character boundaries, and the k-th token has position k |
| `CodeTokens.TextsAreTheLetters` | packages/code-tokenizer/src/lib.rs:70-153 | the texts concatenate to the lower-cased alphanumeric characters of the input |
| `CodeTokens.StartsFromComplete` | packages/code-tokenizer/src/lib.rs:70-153 | every start of the stateless rule is among the token starts |
| `CodeIdentifiers.IdentifierRoundTrip` | packages/code-tokenizer/src/lib.rs:70-153 | an identifier put together from words in camelCase, snake_case or kebab-case, acronyms included, is split into exactly these words, folded and in order |
| `ShellSplit.Statements` | packages/claude-hooks/src/guards.rs:607-662 | the character loop over its six variables collects the statements the splitting rule gives, none empty, with tokens together no longer than the line |
| `ShellSplit.SplitBounded` | packages/claude-hooks/src/guards.rs:607-662 | no statement is empty, and its tokens are together no longer than the line |
| `ShellSplit.SplitInvertsQuoting` | packages/claude-hooks/src/guards.rs:607-662 | splitting inverts single-quoting of any list of non-empty statements without single quotes |
| `ShellWriting.SplitInvertsWriting` | packages/claude-hooks/src/guards.rs:607-662 | splitting gives back any list of statements however it was written: bare, single-quoted, double-quoted or escaped pieces of words, `>|`, any blanks between words, and any of the operators after a statement |
| `ShellWriting.SplitInvertsWritingOpen` | packages/claude-hooks/src/guards.rs:607-662 | the same when no operator follows the last statement |
| `ShellScripts.ScriptIff` | packages/claude-hooks/src/guards.rs:664-698 | a statement runs a script if and only if, after assignments and commands such as `sudo`, it calls one of the five shells by whatever path with a flag that takes the script; the script is the word after the first such flag |
| `ShellScripts.FileNameIff` | packages/claude-hooks/src/guards.rs:685-688 | the name a command goes by is the last part of its path that is a name |
| `ShellExpand.ScriptIsShorter` | packages/claude-hooks/src/guards.rs:682-698 | the script of a statement is shorter than the statement's tokens together |
| `ShellExpand.ExpandStatements` | packages/claude-hooks/src/guards.rs:701-710 | terminates on every line and computes the expansion |
| `ShellMeaning.ExpandedInOrder` | packages/claude-hooks/src/guards.rs:701-710 | the expansion is, in line order, each statement of the line that runs no script, and the whole expansion of each script |
| `ShellMeaning.ExpandedIff` | packages/claude-hooks/src/guards.rs:701-710 | a statement is in the expansion if and only if it stands in the line, or in a script nested in it to any depth, and runs no script itself |
| `ShellExpand.FullyExpanded` | packages/claude-hooks/src/guards.rs:701-710 | after expansion no statement runs a script through `-c` |
| `ShellExpand.WrappingIsTransparent` | packages/claude-hooks/src/guards.rs:682-710 | wrapping a script without single quotes in `<shell> -c` leaves its expansion unchanged, for every plain word that names a shell |
| `ShellExpand.ListedShellsWrap` | packages/claude-hooks/src/guards.rs:592-595 | in particular for each listed shell name |

## Left out

- dag-runner: real processes, pipes, lifelines, TCP and HTTP probes, spinners, JSON events, output tails, panicking futures, and a yield of the runtime at the uncontended lock on the records.
- weave-slack-bot: Slack and Weave transport, reactions, status calls, prompt text, hashing of keys (the pair of channel and timestamp stands for its digest) and parsing of payloads.
- cve-scan: reading files, subprocess extractors, SHA-256, timestamp parsing, the other importers, and JSON, HTML, SARIF and CycloneDX rendering.
- CveScan.Scan: the report's diagnostics and summary counts are not modelled; they repeat per component and in numbers what the components and findings already say.
- CveBuild.BuildReport: the system of a product, the provenance bundle and the snapshot digests are copied through and not modelled.
- CveProducts.FindingLocated: severity bands, the CVSS score and the JSON text of a matched identity are not modelled; the matched identity itself is carried instead.
- blast-radius: rendering of the flowchart and the comment.
- code-tokenizer: ANSI stripping, stemming and the Unicode tables.
- claude-hooks: the git, filesystem and regex parts of the guards and their flag tables, which are case lists or depend on outside state; heredoc stripping.
- The small hook gates, darwin-deploy, config-launch, chromium-cookies, claude-stories, code-highlight, build scripts and site configuration: wrappers, foreign calls or short straight-line code that would only add easy members.
