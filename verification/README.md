# PikoCI in Dafny

PikoCI is a CI server: pipelines declare jobs, the server turns events into
builds, and workers claim and run them. This project models the parts of it whose
correctness is hardest to see from the code, and proves what they promise.

* **Build scheduler.** `Scheduler` is the transition system over the build rows,
  one step per service call; `SchedulerSafety` proves what holds in every state of
  every interleaving, on every database; `SchedulerEffects` says what each call does
  to rows, votes and counts; `SchedulerEdges` has the exact conditions
  for calls outside the callers' discipline and runs that reach the failing cases;
  `SchedulerService` is the service itself, an object that changes its rows call by
  call, each call proved to be one step of the system.
* **Triggering.** `Reachability` (which jobs a resource reaches through `passed`),
  `FlatPlan` (which get steps of a plan are seen), `Downstream` (when a finished job
  sets off another), `BuriedTriggers` (what unseen get steps change about that) and
  `Triggering` (the decision and the scheduler together),
  `PassedVersions` (which version a job may use), `VersionPath` (following a version
  through its jobs).
* **Condition language.** `ConditionSyntax` gives syntax, meaning and a parser that
  never sees a variable; `Condition` is the evaluator as written, one cursor and
  parsing fused with evaluation; `ConditionPrinter` closes the loop with a printer, and
  `ConditionMeaning` says what each operator, a value alone, chains of && and || and
  malformed texts come to.
* **Secrets.** `SecretGraph` and `SecretDeps` (dependency graph, cycles, layers),
  `Masking` (what a masked log can still show, and what it keeps).
* **Pipeline elaboration.** `Stripping`, `ForEach`, `JobOrder`, `JobPlacement`
  (for_each and matrix jobs), `IfChain` (if / else_if / else).
* **Worker.** `InParallel` (every schedule of the goroutines of an in_parallel
  step), `Services` (what is started is handed over to be stopped).
* **Drawing.** `UnionFind` and `ComponentOrder` (connected components of the
  pipeline graph and the invisible edges between them).
* `Text`, `Collections` and `Wrappers` hold what several modules share.

Check everything with `dafny verify dfyconfig.toml`.

## Where the code falls short of its promise

In each case the model keeps what the code does, and the exact condition under
which the promise holds is proved.

* A build id can be handed to a worker twice. On SQLite and in memory, the default,
  a new row takes the greatest id present plus one
  (pikoci/mysql/migrate/migrate.go:68), so deleting the newest row frees its id; a
  worker deletes its own build when no common version exists
  (worker/service.go:645). With workers that report as they should, an id is handed
  out again only after its row was deleted (`HandedAgainOnlyAfterDeletion`), and a
  run hands one out twice exactly when it creates a build under an id it had handed
  out, and hands that build out (`HandedTwiceExactlyWhen`; `FreedIdIsHandedOutAgain` is such a run). Where ids are
  counted, as on MySQL and PostgreSQL, it never happens
  (`CountedIdsAreHandedOnce`). All other invariants hold under both rules.
* `StartPendingBuild` checks the limits of the job it is told about, but the row it
  starts is picked by id alone (pikoci/mysql/build.go:636-654). It keeps the limits
  exactly when the build also fits under its own job
  (`StartKeepsLimitsExactlyWhen`; `StartUnderAnotherJob` is a run that gets there).
  NextWork names the job under which it found the build, but finds and starts it in
  two calls (pikoci/work.go:43 and 56). Where ids are counted the job is still right
  by then (`CountedRowsKeepTheirJob`); where a freed id is taken again it need not be
  (`LookupGoesStale` is a run).
* `UpdateJobBuild` protects only Cancelled rows. An arbitrary report keeps the
  invariants exactly when it changes nothing or meets the limits, the hand-out, the
  rule of the newest build and the gate (`UpdateKeepsInvExactlyWhen`;
  `ReportAfterRecovery` is a run that gets there). It keeps the row out of the queue
  for good exactly when the row is cancelled or its new status lies ahead
  (`ReportMovesForwardExactlyWhen`; after `ReportedBackIntoTheQueue` a build is handed
  out again with nothing deleted).
* A downstream job is never set off when its `passed` list names a job twice, for
  instance a for_each group beside one of its instances: the query counts distinct
  names and compares with the length of the expanded list (`ReadyExactlyWhen`;
  `GroupBesideInstanceIsNeverReady` is the counterexample).
* `jobReferencedInPassed` and `ResolvePassedJobNames` differ exactly when a job is
  named like a group in the list and is an instance of no group in the list
  (`ReferencedIffMeantExcept`; `JobNamedLikeGroup` is such a pipeline).
* `FlatPlanSteps` does not look into an in_parallel inside an if branch, although
  branches may hold one (pikoci/helper.go:670-674). The get steps it sees are all
  there are exactly when none is buried that deep (`AllGetsSeenExactlyWhen`); the
  walks then reach exactly what they should (`ReachesOnlyWhatItShould`), and a job
  whose only get step is buried is not reached, not set off and not checked
  (`BuriedGetIsIgnored`). A job that is set off meets "all must be ready"
  (pikoci/builds.go:720) exactly when its buried triggering get steps have a version
  too (`TooEarlyExactlyWhen`; `SetOffTooEarly` is the counterexample), and one that
  should be set off is exactly when a visible one refers to the finished job
  (`MissedExactlyWhen`). Some finished job can set a job off at all exactly when it
  has a visible triggering get step and the list of none of those names a job twice
  (`CanBeSetOffExactlyWhen`).
* Two for_each blocks with one name are accepted when their keys differ, and then
  every block gets the bytes of the first one and all instances of both: instances
  stand in place exactly when names differ (`InPlaceExactlyWhenBasesDiffer`,
  `RepeatedNameGetsFirstBytes`, `RepeatedBaseIsAccepted`).
* The validator reads a whole job and skips blocks of unknown type when it looks for
  the `if` of an `else`; the parser skips nothing, and reads the job after its matrix
  block was cut out (pikoci/helper.go:1179 and 1507). A job well ordered for the
  validator parses exactly when no branch stands, for the parser, directly after an
  unknown block; a job that parses is well ordered for the validator exactly when no
  branch stands, for it, directly after a matrix block. Whatever is valid parses
  (`ParsesWhatItValidates`, `OrderedExactlyWhen`; `BlocksBetweenDivide` has the
  counterexamples).
* A plan leaves a service running exactly when it arrives at a service whose status
  write fails after its process started, which is then never handed over, or at one
  that is handed over and does not stop (`LeaksExactlyWhen`; `TwoLeaks` has one plan
  of each kind).
* A secret can survive its own masking exactly when it starts or ends with `*` or
  holds `***` (`SafeExactlyWhenStarSafe`); secrets without `*` are always safe.
* A false parenthesised condition yields the empty text, not "false" as its comment
  says (pikoci/condition/condition.go:210-226). A truth test cannot tell
  (`TruthIgnoresFalseText`). A comparison gives what it would give on the promised
  texts if both operands are such parentheses or neither is, and otherwise exactly
  for the other operands listed by `SameOnLeft` and `SameOnRight`
  (`ComparesAsPromisedExactlyWhen`).
* A matrix lists a combination twice exactly when an axis repeats a value
  (`NoRepeatsExactlyWhen`); the check on slugs then refuses it.

## Model

| member | source | states |
|---|---|---|
| SchedulerSafety.EveryRunIsSafe | pikoci/builds.go:483-526 | In every state of every interleaving of service calls, whatever id above those present a new row gets: no job runs more builds than its concurrency, no two running builds of different jobs of a pipeline share a serial group, an interruptible job has at most one active build, gated first builds run only when cleared, only builds handed to a worker run, and job and number identify a build |
| SchedulerSafety.StepKeepsInv | pikoci/builds.go:483-526 | Every allowed call keeps all these invariants together |
| SchedulerSafety.StepKeepsLimits | pikoci/builds.go:492-520 | Every call keeps concurrency and serial groups |
| SchedulerSafety.LimitsGrow | pikoci/builds.go:500-517 | Starting one more build keeps the limits if and only if the two counts the service checks allow it |
| SchedulerSafety.StepKeepsOnlyNewest | pikoci/builds.go:545-574 | An interruptible job has at most one build that is running, pending or waiting, across all three ways of creating builds |
| SchedulerSafety.StepKeepsGate | pikoci/approvals.go:19-109 | A first build of a gated job gets past its gate only with max(1, ApproveCount) distinct approvers and no rejection, and waits only while it has fewer approvers than that; also when it takes over the id of a deleted build |
| SchedulerSafety.StepKeepsNumbers | pikoci/mysql/build.go:95-209 | Greatest number plus one is never taken: job and number stay unique |
| SchedulerSafety.StepEvolves | pikoci/builds.go:271-344 | Rows keep their job and number and only move forward through the statuses; a new row is queued and comes from a creating call; a row goes only by deletion |
| SchedulerSafety.RowStays | pikoci/builds.go:316-344 | Over any stretch of a run in which it is not deleted, a row that left the queue never gets back and a cancelled build stays cancelled, in spite of late worker reports |
| SchedulerSafety.HandedAgainOnlyAfterDeletion | pikoci/work.go:25-88 | Whatever the database: claims by any number of workers hand an id out again only if its row was deleted in between |
| SchedulerSafety.HandedTwiceExactlyWhen | pikoci/work.go:25-88 | A run hands an id out twice if and only if it creates a build under an id already handed out and hands that build out |
| SchedulerSafety.CountedIdsAreHandedOnce | pikoci/mysql/migrate/migrations/V0Initial.go:32-33 | With counted ids no build id is ever handed out twice |
| SchedulerSafety.CountedIdsStayDeleted | pikoci/mysql/migrate/migrations/V0Initial.go:32-33 | With counted ids a deleted id never comes back |
| SchedulerSafety.CountedRowsKeepTheirJob | pikoci/work.go:43-56 | With counted ids a build found under a job is, as long as it is there, a build of that job |
| SchedulerEffects.CreationEffect | pikoci/builds.go:37-97 | All three ways of creating a build: exactly when it is due there is a new row with the queued status and one more than the greatest number of its kind; rows of other jobs, and of a job that is not interruptible, stay as they were; older rows of the same interruptible job are cancelled if unfinished and stay otherwise |
| SchedulerEffects.ApprovalEffect | pikoci/approvals.go:19-69 | An accepted approval is recorded, and the build is pending exactly when the approvals so far plus this one reach the count, and waits otherwise; a refused one changes nothing |
| SchedulerEffects.RejectionEffect | pikoci/approvals.go:72-109 | An accepted rejection is recorded and the build is failed; a refused one changes nothing |
| SchedulerEffects.StartEffect | pikoci/builds.go:483-526 | A build starts and is handed out exactly when it is pending, its job is not paused, fewer builds of the job run than its concurrency, and no running build of another job of the pipeline has a common serial group |
| SchedulerEffects.StatusEffects | pikoci/builds.go:271-344 | Cancelling leaves an unfinished build cancelled, marking a failed one a warning, and a report is stored as it is unless the build was cancelled; no other row changes |
| SchedulerEffects.RowEffects | pikoci/builds.go:353-368 | Recovery fails exactly the running builds; deletion takes one row and its votes and nothing else; pausing concerns one job |
| SchedulerEdges.FreedIdIsHandedOutAgain | pikoci/mysql/migrate/migrate.go:66-68 | With greatest id plus one, a run that hands id 1 out twice |
| SchedulerEdges.StartKeepsLimitsExactlyWhen | pikoci/mysql/build.go:636-654 | Starting under an arbitrary job name keeps the limits if and only if the build fits under its own job |
| SchedulerEdges.StartUnderAnotherJob | pikoci/mysql/build.go:636-654 | A run, on every database, after which naming another job breaks the concurrency limit |
| SchedulerEdges.LookupGoesStale | pikoci/work.go:43-56 | With greatest id plus one, a run in which a build found under one job is another job's build by the time it is started, and breaks its limit |
| SchedulerEdges.UpdateKeepsInvExactlyWhen | pikoci/builds.go:325-338 | An arbitrary worker report keeps all invariants if and only if it changes nothing or meets limits, hand-out, newest build and gate |
| SchedulerEdges.UpdateKeepsLimitsExactlyWhen | pikoci/builds.go:325-338 | It keeps the limits if and only if it does not set a row running that does not fit |
| SchedulerEdges.ReportMovesForwardExactlyWhen | pikoci/builds.go:325-338 | An arbitrary report moves its row forward, never back into the queue, if and only if the row is cancelled or the status lies ahead |
| SchedulerEdges.ReportedBackIntoTheQueue | pikoci/builds.go:325-338 | A run after which a tolerable report of Pending on a failed build gets it handed out again |
| SchedulerEdges.ReportAfterRecovery | pikoci/builds.go:325-338 | A run, on every database, after which a late report of a recovered build breaks the limit |
| SchedulerService.Server.Find | pikoci/mysql/build.go:235-254 | The row with the job and number, or none exactly when there is none |
| SchedulerService.Server.CreateJobBuild | pikoci/builds.go:37-97 | Refuses a missing or paused job and then changes nothing; otherwise adds one row with the queued status and the next number, and touches no row but older unfinished ones of the same interruptible job, which it cancels |
| SchedulerService.Server.InsertRow | pikoci/mysql/build.go:95-151 | The new row takes the id the database's rule gives |
| SchedulerService.Server.CreateRetryJobBuild | pikoci/builds.go:426-464 | Straight to Pending, gate or not, under one more than the greatest retry of its own number; refused only when retries are disabled |
| SchedulerService.Server.RetryJobBuild | pikoci/builds.go:373-421 | The first failing check decides the error; it succeeds exactly when retries are enabled, the build is finished and the build with the number before the dot is still there |
| SchedulerService.Server.CreateTriggered | pikoci/builds.go:768-834 | The transaction creates a build exactly when the job is ready, not paused and has no pending build |
| Triggering.EvaluateJobDownstream | pikoci/builds.go:698-834 | Readiness and transaction together: a build is created exactly when a triggering get step refers to the finished job, all of them have a version to use, and nothing is pending |
| Triggering.EvaluateDownstreamJobs | pikoci/builds.go:680-696 | The loop over the pipeline's jobs is one such step per job, in order |
| Triggering.MarkBuildAsWarning | pikoci/builds.go:838-869 | Only a failed build becomes a warning, and then all downstream jobs are evaluated |
| SchedulerService.Server.CancelOlderBuilds | pikoci/builds.go:545-574 | Older rows of the job are cancelled if they had not finished; rows of other jobs, newer rows and finished ones stay as they were |
| SchedulerService.Server.ApproveBuild | pikoci/approvals.go:19-69 | One vote per user, only while waiting; afterwards the build is pending exactly when the approvers on its ballot, the new one included, number at least the count, and waits otherwise |
| SchedulerService.Server.RejectBuild | pikoci/approvals.go:72-109 | Needs a message and a fresh voter; the build fails at once |
| SchedulerService.Server.StartPendingBuild | pikoci/builds.go:483-526 | The first failing check, in terms of the running builds, decides the error; the build starts exactly when all checks pass; under its own job the invariants stay |
| SchedulerService.Server.CancelJobBuild | pikoci/builds.go:271-311 | Cancels exactly running, pending and waiting builds, and no other row changes |
| SchedulerService.Server.UpdateJobBuild | pikoci/builds.go:316-344 | Writes the reported status, except over Cancelled; keeps the invariants if and only if the report is tolerable |
| SchedulerService.Server.DeleteJobBuild | pikoci/builds.go:353-368 | The row goes, and its votes with it |
| SchedulerService.Server.RecoverOrphanedBuilds | pikoci/builds.go:631-633 | Exactly the running builds fail, and their number is returned |
| SchedulerService.Server.FindOldestPending | pikoci/mysql/build.go:611-634 | The pending build of the job with the least id, or none exactly when there is none |
| SchedulerService.Server.NextWork | pikoci/work.go:25-88 | The first job in scan order that the worker serves and that has startable work gives its oldest pending build, as one start step; otherwise nothing changes and no served job had work; the claim keeps all invariants |
| Reachability.ResolvePassedJobNames | pikoci/builds.go:638-655 | The list with each group replaced, in place and in order, by its instances; a name is in it exactly when the list means it |
| Reachability.ExpandedInOrder | pikoci/builds.go:638-655 | A list is expanded name by name, in order |
| Reachability.OneExpanded | pikoci/builds.go:638-655 | A name that some job has as its group gives the instances, any other name itself |
| Reachability.InstancesInOrder | pikoci/builds.go:638-655 | The instances of a group come in declaration order |
| Reachability.JobReferencedInPassed | pikoci/builds.go:659-675 | True exactly when the job, or the group it belongs to, is listed |
| Reachability.ReferencedIffMeantExcept | pikoci/builds.go:638-675 | The exact condition under which the two answers agree |
| Reachability.ReferencedMeansMeant | pikoci/builds.go:638-675 | They agree for every job of a pipeline in which no job is named like a group |
| Reachability.JobNamedLikeGroup | pikoci/builds.go:638-675 | A pipeline in which they differ |
| FlatPlan.AllGetsSeenExactlyWhen | pikoci/job/job.go:144-160 | The get steps seen are all get steps of the plan, in order, if and only if none stands in an in_parallel or if inside an in_parallel or a branch |
| FlatPlan.GetStepsAre | pikoci/job/job.go:144-160 | A job is known by exactly the get steps that stand in its plan or directly in an in_parallel or a branch of it |
| FlatPlan.ReachesOnlyWhatItShould | pikoci/trigger.go:12-79 | Both walks reach no job that seeing all get steps would not reach, and exactly those where no get step is buried |
| BuriedTriggers.CanBeSetOffExactlyWhen | pikoci/builds.go:698-764 | Under some facts some finished job sets a job off if and only if the job has a triggering get step in sight and the list of none of those names a job twice |
| BuriedTriggers.TooEarlyExactlyWhen | pikoci/builds.go:719-748 | A job that is set off would be with all get steps in sight if and only if every triggering get step out of sight has a version to use |
| BuriedTriggers.MissedExactlyWhen | pikoci/builds.go:699-717 | A job that all its get steps together would set off is set off if and only if one in sight refers to the finished job |
| BuriedTriggers.SetOffTooEarly | pikoci/builds.go:719-748 | A job set off although a buried triggering get step has no version |
| FlatPlan.BuriedGetIsIgnored | pikoci/helper.go:670-674 | A job whose only get step is buried: not reached, never set off, not checked |
| Reachability.ResolveResourceChain | pikoci/version_path.go:17-85 | Terminates and lists, each once, exactly the jobs reached from the resource's entry points along expanded passed edges: every job that fetches the resource, every job that waits for one listed, and no job without such a get step |
| Reachability.ReachableJobs | pikoci/trigger.go:12-79 | Exactly the jobs reached from the trigger entry points, in declaration order, without duplicates when names are distinct, always among those of the resource chain; the names reached hold every triggered job and every job that waits for one of them, and no others |
| Reachability.ReachedIsLeast | pikoci/version_path.go:54-82 | What is reached is contained in every set that holds the entry points and is closed under passed edges |
| Reachability.ReachedIsChained | pikoci/version_path.go:17-85 | What is reached, said about get steps: it holds the jobs that fetch the resource, is closed under waiting, and each job in it fetches the resource or waits for one in it |
| Downstream.FindReadyDownstreamVersion | pikoci/mysql/build.go:434-486 | The highest version that is due, or none exactly when there is none: every job listed has a successful build that used it, none is listed twice, no build of the downstream job, whatever became of it, is for it, and it is strictly above the baseline |
| Downstream.QualifiesIsDue | pikoci/mysql/build.go:455-473 | The counting query is satisfied if and only if the version is due in terms of the builds themselves |
| Downstream.FailuresSetOffNothing | pikoci/mysql/build.go:461 | Where no build of the jobs listed succeeded, no version is ready |
| Downstream.FailuresChangeNothing | pikoci/mysql/build.go:461 | Adding or removing builds of those jobs that did not succeed changes no answer |
| Downstream.ReadyExactlyWhen | pikoci/builds.go:736-748 | The query is satisfied if and only if every job the list means succeeded with the version, the downstream job has no build for it, and the list names no job twice |
| Downstream.ExpansionDistinctExactlyWhen | pikoci/builds.go:638-655 | The expanded list has no repetition if and only if no name is listed twice and no instance beside its group |
| Downstream.GroupBesideInstanceIsNeverReady | pikoci/builds.go:736-748 | A list whose jobs all used a version and that is never ready |
| Downstream.FindCandidates | pikoci/builds.go:698-764 | The job is set off exactly when a triggering get step lists the finished job or its group and every triggering get step has a newest version that is due and agrees with the resource's pin; the candidates answer those get steps, in order |
| Downstream.ReadyIsSetOff | pikoci/builds.go:698-764 | The same decision said about builds, pins and baselines |
| PassedVersions.CheckPassedConstraints | worker/service.go:584-659 | The job runs exactly when every constraint has a version common to all jobs it means; each resource gets the newest such version of its last constraint; otherwise the first constraint that fails decides, and how |
| PassedVersions.CommonVersions | worker/service.go:597-635 | The running intersection is exactly the set of versions every expanded job used successfully |
| VersionPath.ChainWalkBuilds | pikoci/version_path.go:209-267 | Terminates; every build listed hangs on the tracked version through builds of the chain; a chain job is left out only if it used none of the versions carried by the builds listed |
| Condition.Evaluate | pikoci/condition/condition.go:19-37 | The fused evaluator equals parse-then-evaluate on every text and every variable map, errors and their positions included |
| Condition.Validate | pikoci/condition/condition.go:269-272 | Fails exactly when Evaluate fails for every variable map, with the same error |
| ConditionMeaning.OperatorsMean | pikoci/condition/condition.go:129-156 | What 'l' op 'r' comes to, for any texts, variables and spacing: == and != compare the expanded texts, > and < compare numbers if both sides are numbers and bytes otherwise, contains asks whether the right side stands somewhere in the left |
| ConditionMeaning.SmallerIsGreaterExchanged | pikoci/condition/condition.go:134-149 | < is > with the sides exchanged |
| ConditionMeaning.ExactlyOneHolds | pikoci/condition/condition.go:130-149 | Unless both sides are numbers exactly one of <, == and > holds |
| ConditionMeaning.ValueMeans | pikoci/condition/condition.go:114-123 | A value alone is true unless it is empty, 0, or false in any mixture of cases |
| ConditionMeaning.BlankHolds | pikoci/condition/condition.go:20-23 | A condition of nothing but white space holds |
| ConditionMeaning.ChainsMean | pikoci/condition/condition.go:59-102 | A written condition holds exactly when in some operand of \|\| all operands of && hold, however many there are |
| ConditionMeaning.NegationIsRefused | pikoci/condition/condition.go:204-208 | A condition that starts with ! is refused at its start |
| ConditionMeaning.OpenParenthesisIsRefused | pikoci/condition/condition.go:217-220 | A parenthesis that is not closed is refused at the end of the text |
| ConditionMeaning.StrayParenthesisIsRefused | pikoci/condition/condition.go:31-34 | A closing parenthesis too many is refused as trailing text |
| ConditionMeaning.OpenQuoteIsRefused | pikoci/condition/condition.go:229-237 | A quote that is not closed is refused |
| ConditionMeaning.MissingSideIsRefused | pikoci/condition/condition.go:200-202 | A comparison without a right side is refused, for each operator |
| ConditionMeaning.LongerWordIsNoOperator | pikoci/condition/condition.go:174-187 | A longer word that begins with contains or !contains is no operator |
| Text.LessIsByteOrder | pikoci/condition/condition.go:140 | The string order: the smaller byte at the first difference comes first, a proper beginning before the whole |
| Text.ContainsMeansAround | pikoci/condition/condition.go:151 | A text contains another if and only if it is something, the other, and something |
| Condition.CondParser.ParseOr | pikoci/condition/condition.go:59-79 | Value, error and cursor are those of the syntax parser, for every variable map |
| Condition.CondParser.ParseAnd | pikoci/condition/condition.go:82-102 | The same for conjunctions: the loop accumulates what evaluating the parsed operands gives |
| Condition.CondParser.ParseCompare | pikoci/condition/condition.go:104-159 | The same for comparisons and truth tests |
| Condition.CondParser.ParseValue | pikoci/condition/condition.go:197-260 | The same for quoted, bare and parenthesised values |
| Condition.CondParser.SkipSpaces | pikoci/condition/condition.go:53-57 | The cursor stops at the first character that is no space |
| ConditionSyntax.TruthIgnoresFalseText | pikoci/condition/condition.go:210-226 | In a truth test a parenthesised condition stands for its value, and the empty text for "false" |
| ConditionSyntax.ComparesAsPromisedExactlyWhen | pikoci/condition/condition.go:210-226 | A comparison gives what the promised texts of both operands would give: always if both or neither are false parentheses, else exactly for the listed other operands, for every operator |
| ConditionPrinter.PrintedIsRead | pikoci/condition/condition.go:59-260 | Printing any syntax tree over quoted values, with any white space between the parts and any Unicode white space around the whole, and reading it back is the identity, so && binds tighter than \|\| |
| ConditionPrinter.WrittenFormulaMeansItself | pikoci/condition/condition.go:19-260 | Any nested formula, written with parentheses and quotes and any spacing, evaluates to its value for every variable map |
| ConditionPrinter.ParenthesisedKeepsValue | pikoci/condition/condition.go:210-226 | Parenthesised operands stand for their truth value |
| ConditionPrinter.BareWordIsRead | pikoci/condition/condition.go:243-260 | A word without spaces, parentheses and operators needs no quotes and ends exactly before one of those |
| SecretGraph.BuildSecretDependencyGraph | worker/secret_deps.go:24-55 | Edges are exactly the mentions of a variable's placeholder, its type, path and key in the marker, in path, key or secret type configuration, and lead to variables only |
| SecretGraph.ScanForDeps | worker/secret_deps.go:59-65 | Adds exactly the owners of the placeholders that occur in the text |
| SecretGraph.OwnEdgesShrink | worker/secret_deps.go:41-43 | Along path and key edges the placeholder gets strictly shorter |
| SecretGraph.EveryCycleUsesConfig | worker/secret_deps.go:45-51 | Every cycle passes through an edge that secret type configuration puts there |
| SecretGraph.SortSecrets | worker/secret_deps.go:24-177 | Without secret type configuration no cycle is ever reported; a successful sort holds exactly the variables |
| SecretDeps.CycleSearch.Dfs | worker/secret_deps.go:84-111 | In-stack variables are exactly those on the path; the answer is a real closed walk, or none and then the variable is finished and the stack restored |
| SecretDeps.DetectCycle | worker/secret_deps.go:79-121 | Nil exactly when the graph is acyclic; otherwise a closed walk along dependencies with equal ends |
| SecretDeps.TopologicalSort | worker/secret_deps.go:126-177 | Succeeds exactly when no chain has more than ten variables; circular exactly when cyclic; "no progress" is unreachable; layers cover each variable once, hold the variables of a given longest chain, sorted, and depend only on earlier layers |
| SecretDeps.OrderedIsAcyclic | worker/secret_deps.go:108-110 | A finishing order in which dependencies come first rules out every cycle |
| SecretDeps.LongestIs | worker/secret_deps.go:148-161 | Being ready in round n+1 and not before is having a longest chain of n+1 variables |
| SecretDeps.CycleIsUnbounded | worker/secret_deps.go:127-130 | A variable on a cycle has chains longer than any bound, so a cyclic graph never fits the depth limit |
| Text.SortedKeys | worker/secret_deps.go:68-75 | The keys, all and only, in strictly increasing byte order |
| Masking.MaskedTextHoldsNoSecret | worker/service.go:3695-3700 | For any text and any list in any order, no star-safe secret of the list is left, and no later replacement puts one together again |
| Masking.SafeExactlyWhenStarSafe | worker/service.go:3695-3700 | One secret is safely masked in every text if and only if it neither starts nor ends with a star nor holds three in a row |
| Masking.UnsafeSecretLeaks | worker/service.go:3695-3700 | For every other secret, a text whose masked form still shows it |
| Masking.OccurrenceWasThere | worker/service.go:3695-3700 | Replacing one secret never creates an occurrence of a star-safe word and removes every occurrence of the secret itself |
| Masking.MaskSecrets | worker/service.go:3695-3700 | The secrets are masked one after the other, each step keeping every piece of the text around the secret; a text that holds none of them is returned unchanged; the result holds no star-safe secret |
| Masking.ReplacedExactlyWhen | worker/service.go:3695-3700 | Replacing one secret gives t if and only if the text, cut leftmost at the secret, has pieces that t has too, with masks between them |
| Masking.PiecesAreKept | worker/service.go:3695-3700 | p0 v p1 v ... pn, cut leftmost, becomes p0 *** p1 *** ... pn |
| Masking.UntouchedWithout | worker/service.go:3695-3700 | A text without the secret is left alone |
| Masking.MaskLog | worker/service.go:725-727 | Secrets and text together: no star-safe value of three bytes or more that is not plain configuration is left, and a text without such values is shown as it is |
| Masking.SecretValuesFromResolved | worker/service.go:3667-3692 | Exactly the values of three bytes or more of placeholders not declared plain, each once, longest first |
| Stripping.StripForEachJobBlocks | pikoci/for_each.go:272-297 | Deleting from the end to the start equals deleting all ranges at once, and the bytes saved under a name are the original bytes of the first block of that name |
| Stripping.RemoveRanges | pikoci/for_each.go:338-349 | The same for the for_each attribute and matrix blocks inside a job |
| Stripping.CutOne | pikoci/for_each.go:289-294 | Cutting a range before all ranges cut so far uses offsets that are still right |
| Stripping.DistinctNamesKeepTheirBytes | pikoci/for_each.go:285-292 | With distinct names every block finds its own bytes again |
| Stripping.RepeatedNameGetsFirstBytes | pikoci/for_each.go:285-292 | With a repeated name every block gets the bytes of the first one |
| ForEach.ExpandMatrix | pikoci/for_each.go:228-243 | The three nested loops compute the product of the axes |
| ForEach.MatrixIsComplete | pikoci/for_each.go:228-243 | A combination is listed if and only if it chooses one value on each axis |
| ForEach.LastAxisFastest | pikoci/for_each.go:228-243 | The list runs through the last axis fastest, so its order is that of the nested loops |
| ForEach.NoRepeatsExactlyWhen | pikoci/for_each.go:228-243 | No combination is listed twice if and only if no axis repeats a value (empty axes are refused at lines 219-221) |
| ForEach.SlugsClash | pikoci/for_each.go:89-96 | Reports a clash exactly when two slugs are equal |
| JobOrder.ElaborateJobs | pikoci/helper.go:1173-1239 | Fails exactly when an instance takes a name already used by a regular job or an earlier instance; otherwise the slots give the jobs in block order, without indexing past the regular jobs |
| JobPlacement.InPlaceExactlyWhenBasesDiffer | pikoci/helper.go:1211-1239 | Every block is replaced by its own instances in place if and only if no two for_each blocks share a name |
| JobPlacement.RepeatedBaseIsAccepted | pikoci/helper.go:1173-1209 | Two for_each blocks with one name and different keys pass the name check and are misplaced |
| JobOrder.AppendInstances | pikoci/helper.go:1173-1209 | Refuses exactly the lists in which an instance takes a name already used |
| JobOrder.SplitJobs | pikoci/helper.go:1214-1222 | Separating the list by name gives back the regular jobs in order and the instances by base in order |
| IfChain.GroupPlan | pikoci/helper.go:1941-2030 | Succeeds exactly when no else or else_if is stray; uses every block once, in order, in groups if (else_if)* else?; otherwise names the first stray block |
| IfChain.TakeChain | pikoci/helper.go:1955-2011 | The inner loop takes one maximal chain |
| IfChain.GroupingIsUnique | pikoci/helper.go:1941-2030 | No other grouping of the blocks is possible |
| IfChain.ValidateJobBlock | pikoci/helper.go:750-788 | It complains about exactly the branches before which no if stands with only else_if and unknown blocks between, and about exactly the unknown blocks, in order; so there is no ordering complaint exactly when the blocks of known type, taken alone, are well ordered |
| IfChain.ParsesWhatItValidates | pikoci/helper.go:743-790 | The validator on the whole job against the parser on the job without matrix blocks: exactly which branches make one accept and the other refuse, in both directions; whatever is valid parses |
| IfChain.OrderedExactlyWhen | pikoci/helper.go:750-788 | Leaving out blocks of an unconditional kind keeps the order right or wrong except through branches directly after such a block |
| IfChain.BlocksBetweenDivide | pikoci/helper.go:751-787 | if, unknown, else is well ordered for the validator only; if, matrix, else for the parser only |
| InParallel.RunsAreSound | worker/service.go:888-962 | In every state of every schedule: the semaphore counts its holders and stays within the limit, the parent shows the slots in order, whoever finished undisturbed left what its step says, and a first cancellation under fail_fast has a real failure behind it |
| InParallel.AtMostLimitRun | worker/service.go:833-837 | At most limit inner steps are under way at any moment |
| InParallel.NeverStuck | worker/service.go:888-964 | Until every goroutine is gone, one of them can move |
| InParallel.CompleteExactlyWhen | worker/service.go:888-964 | Undisturbed schedules all have the same length: none is longer, and one of that length is complete |
| InParallel.OutcomeIgnoresSchedule | worker/service.go:878-964 | Without fail_fast and cancellation every complete schedule ends with the sub-steps in declaration order and the same results |
| InParallel.SchedulesAgree | worker/service.go:799-999 | Two complete schedules agree on sub-steps, verdict, exported variables and length |
| InParallel.VerdictIgnoresSchedule | worker/service.go:945-971 | Even with fail_fast the block fails exactly when some inner step fails on its own |
| InParallel.CancelledExactlyWhen | worker/service.go:960-962 | In every state of every schedule the block is cancelled if and only if it was cancelled from outside or a failure was reported under fail_fast |
| InParallel.NothingStartsAfterwards | worker/service.go:902-906 | Once it is cancelled no further inner step starts |
| InParallel.ResultsAre | worker/service.go:888-962 | At every moment an inner step's result is the one it ended with, one that left without having run counts as failed, and its slot shows its last list |
| InParallel.SkippedCountsAsFailed | worker/service.go:891-906 | A step that never ran was cancelled before, counts as failed with no variables, and so does the block |
| InParallel.WaiterMayGiveUp | worker/service.go:891-900 | Whoever waits for the semaphore when the block is cancelled may leave at once without a slot |
| InParallel.ShownInOrder | worker/service.go:878-886 | The lists of the inner steps are shown one after the other in declaration order |
| InParallel.Aggregate | worker/service.go:966-978 | Variables present before keep their value; a new one has the value of the last step that exported it; the block fails exactly when some result failed |
| InParallel.MergedIsUnique | worker/service.go:966-978 | Equal results give equal variables |
| Services.Worker.RunPlan | worker/service.go:708-795 | The plan fails exactly when one of its steps does; on every way out, stopServices is handed exactly what startServices returned during the plan, once and in order, which are the services of the steps arrived at; what is left running is what startServices lost and what did not stop |
| Services.PlanFailsExactlyWhen | worker/service.go:708-795 | Said about the steps: a service that does not come up, is not ready or cannot be recorded, a failing action, or an if whose deciding branch is invalid or holds a step that fails |
| Services.PlanReportsExactly | worker/service.go:708-795 | A service is reported exactly when the plan, and in an if the deciding branch, arrives at it and its process comes up, recorded where that is needed |
| Services.StepIs | worker/service.go:1003-1192 | The same for a single step |
| Services.Worker.RunIfStep | worker/service.go:1003-1192 | The first branch that is selected or invalid decides; the services its steps started are returned, also when it fails |
| Services.Worker.StartServices | worker/service.go:3012-3067 | Stops at the first service that does not come up or whose status write fails, and omits the latter |
| Services.Worker.StopServices | worker/service.go:3458-3503 | Tries every service it is handed, in order; exactly those whose stop succeeds are down |
| Services.LeaksExactlyWhen | worker/service.go:3012-3503 | A plan leaves a service running if and only if it arrives at a top-level service step whose process starts and whose status write fails, or at a step that reports a service which does not stop |
| Services.TwoLeaks | worker/service.go:3060-3503 | A plan of each leaking kind |
| UnionFind.Forest.Find | pikoci/pipelines.go:1266-1274 | Terminates, answers the representative, and compression changes no node's representative |
| UnionFind.Forest.Union | pikoci/pipelines.go:1275-1280 | Merges the two trees and no others |
| UnionFind.BuildForest | pikoci/pipelines.go:1281-1286 | Two nodes have one representative exactly when edges connect them |
| UnionFind.EdgeMerges | pikoci/pipelines.go:1284-1286 | One union per edge keeps that equivalence |
| ComponentOrder.OrderComponents | pikoci/pipelines.go:1300-1321 | One entry per component met, in order of first meeting, with the first and last representative met |
| ComponentOrder.TiesJoinApartComponents | pikoci/pipelines.go:1323-1331 | Each invisible edge joins two parts that nothing connected before it, so it closes no cycle |
| ComponentOrder.TiesConnectEverything | pikoci/pipelines.go:1323-1331 | With the invisible edges all components met are connected |
| ComponentOrder.InvisibleEdges | pikoci/pipelines.go:1262-1332 | For any nodes, edges and items: one edge from the last item of each component to the first item of the next, components in order of their first items; each joins two parts that nothing connected before it, and all items end up connected |
| ComponentOrder.MetIsTied | pikoci/pipelines.go:1300-1331 | The entries of the walk span their components, cover all items, and are tied last to first |

## Left out

- Atomicity of service calls: each call is one step, NextWork included (see `LookupGoesStale` for its two calls). In the source the cancellation of older builds follows the creating transaction, and the checks before some updates are separate reads.
- Rows are changed by id in the transition system; the service finds them by job and number as the source does. A team and a pipeline together are one pipeline name; a build number is a pair of numbers.
- Job configuration is fixed during a run, except for pausing; a job missing from it makes `CreateJobBuild` fail, as the insert would.
- Allowed worker steps: a worker reports only on a build that runs or was cancelled, and reports it running or finished; `UpdateKeepsInvExactlyWhen` says what happens otherwise, for instance when a build was deleted under its worker and another one took its number.
- Triggering: the versions builds used, pins and baselines are given as facts beside the build rows; they stay the same during one evaluation of the pipeline, as a new build of one job is no successful build of another.
- SchedulerService.Server.NextWork: team isolation and tags are the set of jobs the worker serves; the second phase, resource checks, is not modelled.
- Masking.MaskedTextHoldsNoSecret: goes one way for lists; a list in which an unsafe secret happens to be destroyed by another one is not characterised.
- UnionFind.Forest.Find: an unknown node is a missing key; the source uses the empty name for that, which differs only for a node with an empty name, and names in a drawing are quoted.
- ConditionSyntax: os.Expand, strconv.ParseFloat and the order of floats are parameters, and where the ordering operators meet a false parenthesis ParseFloat is taken to refuse the empty text and "false"; a Go string is a sequence of characters, one per byte; lower-casing is that of ASCII, which decides the same three words.
- Quoted values are printed only if they hold no quote, since the language has no escape for one.
- InParallel: an inner step is given by the lists it shows, its result and its variables; after cancellation it may end in any way. Hooks, durations and the parent's own status writes are left out.
- Services: a start command that fails is taken to have started nothing; task, get, put and in_parallel steps only succeed or fail; secret resolution before the plan is left out, as it starts nothing.
- IfChain: errors inside a branch (condition, inner steps) are left out.
- ForEach and JobOrder: HCL parsing and evaluation, slug.Make and the decoding of instances; byte ranges are taken as disjoint, as the parser reports them.
- PassedVersions and VersionPath: the repository's answers are data, and the constraints are those of the get steps in sight; a job that cannot be listed or a version that cannot be queried is one that is missing there.
- Placeholder substitution in resolveSecretVars, secret fetching, runners, logs, notifications, webhooks, timeouts and retry back-off.
- resolveBuildStatus and the reconciliation loops of UpdatePipeline, which would add only easy members.
- The HTTP and gRPC layers, OAuth, users, teams, API tokens, encryption, DOT and SVG rendering, command line.
