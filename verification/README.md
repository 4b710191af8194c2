# ActonOS: verified models of the agent runtime

ActonOS runs language-model agents day and night. This project models, in Dafny, the parts of its
runtime whose correctness depends on how several functions or several concurrent callers fit
together, and proves what they promise.

| part | modules | what is proved |
|---|---|---|
| Transcripts | `GoStrings`, `Transcript`, `Sanitize`, `SanitizeLaws`, `SanitizeExact`, `Pruning`, `PruningLaws`, `PruningExact`, `Resume`, `ResumeExact` | repairing, pruning and resuming a chat transcript; they compose: sanitizing a pruned good transcript changes nothing |
| Plans | `Plan`, `PlanExact`, `PlanGraph`, `PlanExecution`, `PlanExecutionLaws`, `PlanNormal`, `PlanNormalExact`, `PlanRuns`, `PlanRunsLaws`, `PlanRunsExact`, `PlanDrain`, `PlanDrainExact` | a dependency scheduler: when it succeeds, and an invariant over every run of bursts, resumes and reopen operations |
| Ledger | `LedgerKey`, `Ledger`, `LedgerLaws`, `LedgerStore`, `LedgerExact` | an at-most-once protocol under errors and crashes; a uniquely decodable key |
| Proposals | `Proposals`, `ProposalLaws`, `ProposalWinners` | concurrent decisions on one proposal |
| Router | `RouterLog`, `Router`, `RouterLaws`, `RouterExact` | circuit breaker and metrics as functions of the call log; the cascade |
| Text | `BareJson`, `BareJsonText`, `BareJsonForms`, `BareJsonExact`, `Untrusted`, `UntrustedLaws`, `UntrustedExact` | the scanner for bare JSON objects, against texts built from literals and nested objects; the framing of text from outside, which can be read back |
| Missions | `StallLog`, `Missions`, `Heartbeat`, `HeartbeatLaws`, `HeartbeatExact`, `HeartbeatStalls` | stall counter, fail counter and operator writes over whole runs |

Loops and objects of the source are methods and classes here. Each is proved equal to a
specification function over values, and the laws are lemmas about those functions. Concurrent code
is a system of small steps; a law about it holds for every sequence of steps.

The modules `…Exact` and `ProposalWinners` say what an operation computes without the specification
functions it is proved equal to: which positions of the input are kept, what stands at each
position of the output, which step decides. `Picking` has the vocabulary for that.

## How things are represented

- A Go string is a Dafny `string` with one character per byte, so lengths and slices are those of
  the source. Only `Untrusted` works on runes: there a character is a Unicode code point.
- What the source leaves to a model, a provider, a database or a clock is an input: outcomes of
  steps, replies, faults and times are functions or parameters, and the laws hold for all of them.
- `CallSize` is the length of the JSON encoding of a message's calls; `ApprovalTest` says whether a
  recorded result waits for an approval; `Collapse` is the white space normalisation of plan steps;
  `decode` is the JSON decoder with the naming rules for calls; `isPrint` is `strconv.IsPrint`.

## Where the code does less than its documentation says

The model follows the code.

- `SanitizeMessages` is not idempotent: a turn that repeats the id of an unanswered call gets two
  placeholders, and a second pass drops one (`RepeatedIdNeedsSecondPass`). `SecondPass` says exactly
  when one pass is enough; two are always.
- `normalizePlanSteps` can give two steps the same id (`RepeatedTaskId`); `NormalizedDistinct` says
  exactly when it does not. In such a plan one burst can complete a step whose dependency is open
  (`RepeatedIdBreaksBurst`, for a plan that `RepeatedPlanIsNormalized`).
- `ExecutePlan` starts with an empty set of completed ids, so a step that was completed earlier does
  not satisfy its dependents (`EarlierCompletionDoesNotCount`, `ExecutionVerdict`).
- A resume that arrives after the plan was reopened records a result for a step whose dependencies
  are open again (`LateResume`); `ResumeSoundExactly` gives the exact condition.
- The ledger's comments say that a draft is sent at most once. On the ledger's side a delivery whose
  acknowledgement is lost is repeated (`CrashDeliversAgain`); `AtMostOnce` accounts for every one.
  What stops the second message is the key that the provider receives with each call.
- `SanitizeText` can leave three newlines in a row when it truncates (`TruncationExample`);
  `TruncationTriple` says exactly when.
- A mission that stays at 0 percent never escalates as stalled (`ZeroNeverEscalates`).
- The comments on the stall limit promise that a mission without progress is not retried silently for
  ever. A restart by the operator clears the counter of the row but not the tracker, which counts on
  and has already escalated: a mission that was blocked for stalling and restarted runs on without
  advance for any number of cycles, and the old count returns to its row (`RestartNeverEscalates`).
  `RestartedIdleRun` says exactly when such a run is blocked; only a report of zero, a new high, a
  report that is not in progress or a new start of the daemon begins a new count.
- The resume step looks for results in the whole transcript, so an id that an earlier turn used gets
  no deferral (`ReusedIdGetsNoDeferral`); `ResumeCompletesTurn` gives the exact condition.
- A blocked mission that an operator writes as completed and then as running keeps its fail counter
  (`CompletedByHandKeepsCounter`); the way straight back to waiting or running clears it (`ResetExactly`).
  `WriteSafeExactly` says which operator writes keep the limit.

## Model

| member | source | states |
|---|---|---|
| GoStrings.TrimSpaceTrims | internal/llm/sanitize.go:39 | `strings.TrimSpace` leaves text that neither starts nor ends with white space, and changes exactly the other texts |
| GoStrings.TrimSpaceCuts | internal/llm/sanitize.go:39 | what it cuts off is white space at the two ends, and nothing else |
| Sanitize.ClaimedSnoc | internal/llm/sanitize.go:62-70 | looking ahead keeps, of the results behind a turn, the first one for each expected id and no other |
| Sanitize.FilterCalls | internal/llm/sanitize.go:32-37 | calls without an id are dropped, the others stay in order |
| Sanitize.Collect | internal/llm/sanitize.go:62-70 | the look-ahead loop consumes exactly the run of results behind the turn and leaves the ids without a result |
| Sanitize.FillMissing | internal/llm/sanitize.go:92-105 | each call whose id is left over gets one placeholder result, in call order |
| Sanitize.SanitizeTurn | internal/llm/sanitize.go:28-109 | one assistant message with its results becomes the specified repair |
| Sanitize.SanitizeMessages | internal/llm/sanitize.go:17-134 | the index loop computes the unit-by-unit repair of the whole list |
| SanitizeLaws.RepairedTurn | internal/llm/sanitize.go:62-105 | the kept results answer each id at most once, and the placeholders answer all the others |
| SanitizeLaws.RepairedTurnUnit | internal/llm/sanitize.go:28-109 | a repaired turn is one well-formed unit, and a stable one unless an unanswered id stands on two of its calls |
| SanitizeLaws.SanitizedIsWellFormed | internal/llm/sanitize.go:17-134 | for every input: turns that keep calls have non-empty ids and are followed by results for exactly those ids, one per call when the ids are distinct; no other tool message is left, and no empty assistant message |
| SanitizeLaws.NonToolsCorrespond | internal/llm/sanitize.go:24-131 | the messages other than tool results correspond one to one and in order with the input's |
| SanitizeLaws.SanitizedAppend | internal/llm/sanitize.go:24-131 | a transcript can be repaired piece by piece, as long as it is not cut inside a turn |
| SanitizeLaws.FixedPoints | internal/llm/sanitize.go:28-131 | a list is left unchanged if and only if it is a stable transcript: well-formed, trimmed, each id answered once |
| SanitizeLaws.SanitizedIsStable | internal/llm/sanitize.go:28-131 | one pass reaches a stable transcript when no turn leaves an id unanswered that stands on two of its calls |
| SanitizeLaws.SecondPass | internal/llm/sanitize.go:92-105 | a second pass changes nothing if and only if no turn leaves such an id unanswered |
| SanitizeLaws.ThirdPass | internal/llm/sanitize.go:28-131 | three passes equal two, for every input |
| SanitizeLaws.DistinctTurnsSettle | internal/llm/sanitize.go:53-70 | with distinct call ids within each turn one pass is enough |
| SanitizeLaws.WellFormedSettles | internal/llm/sanitize.go:28-131 | so it is for input that is well-formed already |
| SanitizeLaws.RepeatedIdNeedsSecondPass | internal/llm/sanitize.go:95-105 | a transcript on which the second pass differs from the first |
| SanitizeExact.TurnExactly | internal/llm/sanitize.go:28-109 | the repaired turn, part by part: the calls with an id, in order; of the results, unchanged, the first for each such id; a placeholder with the fixed text, the id and the name for each call without any result; and the text alone when no call is valid or none was answered |
| SanitizeExact.TurnInContext | internal/llm/sanitize.go:24-131 | wherever a turn stands in a transcript, it becomes exactly that, and what stands around it is repaired on its own |
| SanitizeExact.SingleInContext | internal/llm/sanitize.go:110-130 | every other assistant message keeps its trimmed text, or the acknowledgement, and every system or user message stays as it is |
| Transcript.StableIsWellFormed | internal/llm/sanitize.go:11-16 | stable transcripts meet the provider's contract |
| Transcript.StableSuffix | internal/agent/context.go:172-174 | a stable transcript cut at a turn boundary is stable |
| Pruning.EstimateMessagesTokens | internal/agent/context.go:272-284 | the estimate is a third of the bytes, rounded down, plus four per message |
| Pruning.HalvingSaves | internal/agent/context.go:240-247 | halving a content of at least 128 bytes and adding the marker saves at least 17 bytes |
| Pruning.ShrinkMessagesToBudget | internal/agent/context.go:222-250 | the loop terminates and computes the repeated halving of the longest result |
| Pruning.ShrunkToShrinks | internal/agent/context.go:228-248 | only contents of tool results change, each to a prefix of itself with the marker behind it |
| Pruning.ShrunkFits | internal/agent/context.go:222-250 | shrinking ends within the budget, never taken below 64, or with every result under 128 bytes |
| Pruning.FindBlockStart | internal/agent/context.go:176-184 | the backward search finds the start of the block that ends at a position |
| Pruning.RetainBlocks | internal/agent/context.go:172-199 | the backward loop keeps the newest block, shrunk if need be, and whole older blocks while they fit |
| Pruning.ComputeBudget | internal/agent/context.go:161-170 | what is left for blocks after the head, the active user message and the reserve, at least 128 |
| Pruning.PruneMessages | internal/agent/context.go:147-220 | the method computes the specified pruning, with its final repair |
| PruningLaws.RunHasOwner | internal/agent/context.go:176-184 | in a stable transcript a run of results is preceded by the turn that called for it |
| PruningLaws.ReachStartsFresh | internal/agent/context.go:172-199 | what is retained never starts with a result cut off from its turn |
| PruningLaws.StableSame | internal/agent/context.go:187-195 | shortening results keeps a transcript stable |
| PruningLaws.PruneShape | internal/agent/context.go:147-220 | pruning a fixed point that starts with a system message gives the head, at most one checkpoint, at most one re-added user message and a contiguous suffix in which only results of the newest block are shortened, and sanitizing it changes nothing |
| PruningLaws.GoalSurvives | internal/agent/context.go:201-211 | for every input with a user message, the result contains a user message with the active goal's content |
| PruningLaws.RetainedWeight | internal/agent/context.go:185-198 | the retained blocks exceed their budget by at most two thirds of a token per block |
| PruningLaws.TokenBound | internal/agent/context.go:161-219 | when the newest block fits and at least 128 tokens remain for blocks, the assembled list costs less than the budget plus two thirds of a token per retained block |
| PruningExact.PruneKeepsWhatFits | internal/agent/context.go:161-219 | what is kept, said by blocks alone: the newest block, shrunk when it costs more than the budget; in front of it whole older blocks that together cost at most what it leaves, up to the start of the list or a block that costs more than is left then; around that the head, the checkpoint for what was left out and the active goal when it fell out |
| PruningExact.ShrinkRounds | internal/agent/context.go:222-250 | each round keeps the first half of the first longest tool result, of at least 128 bytes, with the marker behind it; each round was needed, and the rounds end when the list is within the raised budget or has no such result |
| Resume.RunTurn | internal/agent/engine_step.go:232-319 | a turn appends its message and one result per call, or pauses with a checkpoint of the results produced so far |
| Resume.CompleteTranscript | internal/agent/engine_resume.go:57-98 | the resume step appends the approved result and a deferral for each call of the last assistant message without a result |
| Resume.ResumedIs | internal/agent/engine_resume.go:62-97 | the resumed transcript is the old prefix, the turn, its results, the approved one, and deferrals in call order for calls whose id has no result anywhere |
| Resume.ResumeCompletesTurn | internal/agent/engine_resume.go:57-97 | every remaining call gets its deferral if and only if no remaining id occurs among the results of earlier turns |
| Resume.ReusedIdGetsNoDeferral | internal/agent/engine_resume.go:80-97 | a transcript in which a reused id gets no deferral |
| Resume.SanitizeAfterResume | internal/agent/engine_resume.go:57-97 | sanitizing the resumed transcript repairs the prefix on its own and leaves exactly one result per call of the turn; with fresh ids it leaves the turn as it is |
| ResumeExact.TurnAppends | internal/agent/engine_step.go:232-319 | behind the turn, for each call up to the first that needs an approval, stands a tool message with the id and the name of that call and its observation as content |
| ResumeExact.ResumeAppends | internal/agent/engine_resume.go:57-97 | behind the checkpoint stand a tool message with the pending call's id, its name and the approved observation, and then, for each call whose id has no result, one with its id, its name and the deferral text |
| Plan.ReadyUpTo | internal/agent/planner.go:402-430 | the ready steps, in plan order: pending or blank, with all dependencies completed |
| Plan.Find | internal/agent/planner.go:466-472 | marking goes to the first step with the id |
| Plan.TaskPlan.MarkStep | internal/agent/planner.go:462-473 | one step gets status and result, the others stay; an unknown id changes nothing |
| Plan.TaskPlan.ReopenAllSteps | internal/agent/planner.go:273-281 | every step becomes pending and loses its result |
| Plan.TaskPlan.ReopenFailed | internal/agent/planner.go:285-341 | exactly the failed steps of the asked kind become pending, and it is reported whether any did |
| Plan.TaskPlan.ReadySteps | internal/agent/planner.go:402-430 | the loops find exactly the ready steps |
| Plan.TaskPlan.ProgressPercent | internal/agent/planner.go:476-487 | completed steps times 100 by steps, rounded down |
| Plan.TaskPlan.AllStepsCompleted | internal/agent/planner.go:490-500 | every step is completed, and there is one |
| Plan.PercentRange | internal/agent/planner.go:475-500 | the percentage lies in 0..100 and is 100 exactly when all steps are completed |
| Plan.PercentGrows | internal/agent/planner.go:475-487 | the percentage never falls while completed steps stay completed |
| PlanExact.PercentExactly | internal/agent/planner.go:475-487 | the percentage is the greatest whole number that the share of completed steps, counted as a set, reaches |
| PlanGraph.StuckMeansCycle | internal/agent/planner.go:392-394 | steps that all wait for one another contain a cycle |
| PlanGraph.OrderExcludesCycle | internal/agent/planner.go:343-399 | steps that stand in an order behind their dependencies form no cycle |
| PlanExecution.ExecutePlan | internal/agent/planner.go:344-399 | for any executor: it terminates, runs pending steps each at most once and behind its dependencies, records every outcome, and ends done, with the deadlock error when no pending step can run, or at the first failure |
| PlanExecution.RunFits | internal/agent/planner.go:355-396 | no run is longer than the plan |
| PlanExecution.StepAfter | internal/agent/planner.go:377-387 | executed steps are completed, all others are untouched |
| PlanExact.ExecutedExactly | internal/agent/planner.go:377-387 | for arbitrary outcomes: the step executed as the k-th is completed with its result or failed with its error, and every other step is as before |
| PlanExecutionLaws.ExecutionVerdict | internal/agent/planner.go:344-399 | with an executor that never fails, it succeeds if and only if the open steps are pending, name open steps only and form no cycle; otherwise it reports the deadlock |
| PlanExecutionLaws.PendingPlanVerdict | internal/agent/planner.go:344-399 | a plan that starts all pending succeeds if and only if its dependencies are known and acyclic, and then every step runs exactly once |
| PlanExecutionLaws.EarlierCompletionDoesNotCount | internal/agent/planner.go:349-360 | an open step that depends on a step completed earlier makes the execution fail |
| PlanExecutionLaws.ReadyOrCompleted | internal/agent/planner.go:402-430 | a plan of pending and completed steps with known, acyclic dependencies is fully completed or has a ready step |
| PlanNormal.NormalizePlanSteps | internal/agent/planner.go:169-236 | the loops compute the specified normalisation |
| PlanNormal.NormalizedShape | internal/agent/planner.go:169-236 | at most five steps, all pending, dependencies known, none on the step itself, none twice |
| PlanNormal.NormalizedDistinct | internal/agent/planner.go:187-194 | the ids are distinct if and only if no step that falls back to `task_n` finds that id proposed by an earlier step |
| PlanNormalExact.NormalizedExactly | internal/agent/planner.go:169-236 | the steps are the first five with a title or a description; each has its proposed id unless that is empty or taken in front of it, its result, and exactly the dependencies it names that are other steps of the plan, once each, in the order in which they are named first |
| PlanNormal.RepeatedTaskId | internal/agent/planner.go:187-194 | two steps that propose `task_2` keep the same id |
| PlanNormal.NormalizedVerdict | internal/agent/planner.go:169-399 | a normalised plan with distinct ids is executed completely unless its dependencies form a cycle |
| PlanRuns.Batch | internal/agent/engine_plan.go:126-168 | the steps of a burst are ready, in plan order, at most the configured number or three |
| PlanRuns.Record | internal/agent/engine_plan.go:203-227 | how one outcome is marked: paused, pending again, failed, completed, or left alone for an empty reply |
| PlanRuns.ExecuteBurst | internal/agent/engine_plan.go:126-236 | a burst selects, runs and marks its batch, reopening approval-shaped failures when nothing is ready, and fails if and only if some step does |
| PlanRuns.FinishPlanStepAfterResume | internal/agent/engine_resume.go:283-321 | a resumed run is recorded for the step its prompt names, else for the first step that waits |
| PlanExact.ResumeMarksFirst | internal/agent/engine_resume.go:283-321 | the first step with the id is completed, or pending for a canned reply, with the reply as result; without an id in the prompt it is that of the first step that is paused or failed for want of an approval |
| PlanRunsExact.BurstExactly | internal/agent/engine_plan.go:126-229 | for distinct ids, over steps and outcomes alone: the batch is the first steps that can run, and each step of it ends paused with the marker, pending with the retry prefix, failed, completed or, for an empty reply, unchanged; every other step stays, except that approval-shaped failures are pending again when no step was ready |
| PlanRunsExact.BurstLeavesFailures | internal/agent/engine_plan.go:130-136 | a burst leaves a failed step as it is, unless no step is ready and the failure is approval-shaped |
| PlanRunsLaws.ReadyIndependent | internal/agent/engine_plan.go:126-168 | two steps of one burst never depend on each other |
| PlanRunsLaws.MarksCommute | internal/agent/planner.go:462-473 | marks of different steps give the same plan in any order |
| PlanRunsLaws.BurstOrderIrrelevant | internal/agent/engine_plan.go:189-229 | the results of one burst give the same plan in whatever order they are marked |
| PlanRunsLaws.BurstSound | internal/agent/engine_plan.go:126-229 | in a plan with distinct ids, a burst with any outcomes keeps every completed, paused or failed step behind its completed dependencies |
| PlanRunsLaws.ResumeSoundExactly | internal/agent/engine_resume.go:307-315 | whatever happened to the step meanwhile, a resume keeps that if and only if the step's dependencies are completed, or, for a canned reply, it does not take back a completion others rest on |
| PlanRunsLaws.FallbackInTime | internal/agent/engine_resume.go:295-303 | a resume without a step id in its prompt always comes in time |
| PlanRunsLaws.RunSound | internal/agent/engine_plan.go:126-229 | from a plan with distinct ids and settled steps behind completed dependencies, over every run of bursts, resumes of waiting steps and reopen operations, the graph stays and every completed, paused or failed step has all its dependencies completed |
| PlanRunsLaws.RepeatedIdBreaksBurst | internal/agent/planner.go:462-473 | a plan with a repeated id in which one burst completes a step whose dependency is open |
| PlanNormal.RepeatedPlanIsNormalized | internal/agent/planner.go:169-236 | that plan is the normalisation of three proposed steps |
| PlanNormal.NormalizedRunSound | internal/agent/planner.go:169-236 | a normalised plan without an id clash is sound, and stays so over every run of bursts, resumes in time and reopen operations |
| PlanRunsLaws.LateResume | internal/agent/engine_resume.go:307-315 | a run in which a resume after a full reopen breaks that |
| PlanRunsLaws.ProgressNeverFalls | internal/agent/planner.go:475-487 | over every such run without a full reopen the percentage never falls |
| PlanDrain.ExecuteAutonomousGoal | internal/agent/engine_plan.go:29-95 | the drain stops at the first reason: a failure, completion, a canned reply, nothing ready, the same step first in line three times, or eight bursts |
| PlanDrainExact.StopsExactly | internal/agent/engine_plan.go:44-94 | a drain stops after a burst exactly when a step of it did not end with a reply, every step is completed, the reply was canned, no step is ready, one step was first in line before the last two bursts and still is, or it was the eighth |
| PlanDrain.BurstsSound | internal/agent/engine_plan.go:44-94 | a drain keeps the invariant and loses no completed step |
| LedgerKey.HashInput | internal/mailcal/ledger.go:64-69 | the bytes hashed are the parts with their lengths in front |
| LedgerKey.DecodeEncoded | internal/mailcal/ledger.go:62-70 | every list of strings can be read back from its encoding |
| LedgerKey.EncodeDecoded | internal/mailcal/ledger.go:62-70 | only encodings can be read |
| LedgerKey.EncodingInjective | internal/mailcal/ledger.go:62-70 | two different lists, of any strings, never give the same bytes |
| LedgerLaws.StepKeepsInv | internal/mailcal/ledger.go:72-126 | every step keeps the lock discipline, the accounts of every key, and the rows |
| LedgerLaws.AtMostOnce | internal/mailcal/ledger.go:72-126 | over every interleaving with errors and crashes: a key is new at most once, a lock has one holder, a reservation never meets a row, and deliveries are one recorded or in flight plus the lost acknowledgements |
| LedgerLaws.RowsForever | internal/mailcal/ledger.go:118-126 | rows are never removed, their payload hash never changes, a sent row never changes again |
| LedgerLaws.CrashDeliversAgain | internal/mailcal/writeops.go:166-194 | from every reachable state with a delivery that is not recorded, a crash and a retry deliver again |
| LedgerExact.RowsComeFromCalls | internal/mailcal/ledger.go:72-126 | over every interleaving with errors and crashes: a row has the hash of a call that began on its key, and is sent only with a message id the provider gave |
| LedgerStore.Store.Begin | internal/mailcal/ledger.go:72-100 | what is answered, reserved and locked for every key, table and fault; the object's state is that of a sequence of steps from the empty system, which only grows |
| LedgerStore.Store.Complete | internal/mailcal/ledger.go:118-126 | the row of the key becomes sent, and the lock is given back |
| LedgerStore.Store.WriteCall | internal/mailcal/writeops.go:109-138 | the provider is called until success or a lasting error, at most three times |
| LedgerStore.Store.Send | internal/mailcal/writeops.go:150-198 | a message recorded as sent is replayed with its recorded id and without a provider call, unless the key is blank or the read fails; an attempt that reports success left its row sent unless that write failed, the row keeps the hash it was begun with, and no other row changes |
| ProposalLaws.StepFits | internal/mailcal/proposals.go:153-195 | every step keeps calls, rules and accounts consistent |
| ProposalLaws.OneDecisionWins | internal/mailcal/proposals.go:153-195 | without store errors: at most one decision wins; once all calls have returned, exactly one has won if any was begun on the stored proposal, and the rules left are the recorded one when approved and none otherwise |
| ProposalLaws.StepUnderway | internal/mailcal/proposals.go:153-195 | a begun call does not vanish: without a fault its proposal is decided or some call still works on it |
| ProposalLaws.DecidedOnce | internal/mailcal/proposals.go:153-195 | with store errors and crashes too: at most one success, one status change, and every other rule left was left behind by a fault |
| ProposalLaws.DecisionIsFinal | internal/mailcal/proposals.go:168-195 | a decision never changes |
| ProposalWinners.WinnerDecides | internal/mailcal/proposals.go:153-195 | a step that wins or changes a decision finds the proposal undecided and records what its call asked for: an approval the rule of its own call, which stays in the store, a rejection the rejection |
| ProposalWinners.DecidedAsAsked | internal/mailcal/proposals.go:153-195 | over every interleaving without store errors and crashes: a proposal on which only approvals were begun ends approved with its recorded rule, one on which only rejections were begun ends rejected with no rule left |
| RouterLog.TrailingFailures | internal/llm/router.go:225-236 | the length of the run of failures a history ends with |
| RouterLog.NewestGrows | internal/llm/router.go:218-223 | cutting the samples after each call keeps exactly the newest fifty of all |
| RouterLog.TotalsAreSums | internal/llm/router.go:207-233 | the counts of a call history are the sums of its per-kind counts |
| RouterLog.MetricsAreSums | internal/llm/router.go:207-233 | the fields `totalCalls` and `totalFailures` of a provider are the sums over its per-kind entries |
| Router.ModelCascadeRouter.RegisterProvider | internal/llm/router.go:109-121 | registering keeps the counters in agreement with the log |
| Router.ModelCascadeRouter.ProviderTripped | internal/llm/router.go:180-185 | tripped exactly when the log ends with at least three failures, the last less than the hold ago |
| Router.ModelCascadeRouter.RecordProviderResult | internal/llm/router.go:187-239 | after every call each field is still the function of the log it should be |
| Router.CallAgrees | internal/llm/router.go:225-238 | failure counter and trip time of a provider follow its trailing failures |
| Router.ModelCascadeRouter.LastResortIds | internal/llm/router.go:241-260 | the local provider is added when registered and not named by the cascade |
| Router.ModelCascadeRouter.CompleteWithCascade | internal/llm/router.go:263-341 | the log grows by exactly the calls of the specified cascade, and the outcome is that of its last call |
| RouterLaws.CascadeRecorded | internal/llm/router.go:285-331 | each provider call is recorded once, in order; all but the last fail; there is at most one more than targets |
| RouterLaws.CascadeVisited | internal/llm/router.go:285-331 | calls go to targets in order, only the last target twice, and each is no stub, found and not tripped when reached |
| RouterLaws.CascadeSkipped | internal/llm/router.go:285-299 | a target that is passed over was a stub, tripped or not found when reached |
| RouterExact.TargetsExactly | internal/llm/router.go:241-283 | the targets are the cascade in its order, or the default provider when there is none, and then the local provider if it is registered and no target leads to it |
| RouterExact.EligibleExactly | internal/llm/router.go:180-185 | a target is tried unless it is the stub, leads nowhere, or its own last three calls failed and the last of them is less than a minute old |
| RouterExact.CascadeReports | internal/llm/router.go:285-331 | every recorded call has the kind, the latency, the time and the result of its answer; the outcome is the target of the last call when that was answered, and a failure otherwise |
| RouterExact.LastTargetTwice | internal/llm/router.go:299-331 | a cascade that gives up after calling its last target has called it twice |
| RouterExact.MetricsExactly | internal/llm/router.go:207-233 | call and failure numbers count the calls and the failed ones, overall and per kind, and the samples are the newest fifty latencies in order |
| BareJson.SpansFit | internal/llm/sanitize.go:487-505 | balanced spans are increasing, disjoint and in bounds |
| BareJsonForms.SpansRead | internal/llm/sanitize.go:464-505 | a text written from characters, string literals with escapes and nested objects has exactly its outermost objects as spans |
| BareJsonForms.TextParts | internal/llm/sanitize.go:464-505 | every text is such a row, up to its end, an object that nothing closes or a literal that nothing follows |
| BareJson.CloseOf | internal/llm/sanitize.go:487-500 | a span ends with the brace that closes it |
| BareJson.RestStep | internal/llm/sanitize.go:470-495 | each step of the scanner keeps what is found plus what is to come equal to the recursive spans |
| BareJson.Scanner | internal/llm/sanitize.go:464-606 | the scanner's candidates are exactly the recursively defined top-level spans |
| BareJson.CollectedFits | internal/llm/sanitize.go:495-600 | the removed ranges are candidates, increasing and disjoint, and calls are found if and only if something is removed |
| BareJsonExact.ExtractsExactly | internal/llm/sanitize.go:495-600 | the calls are those of all candidates in the order of the text; cut out are exactly the candidates that are calls, and the lists of tool uses at or behind which at least one call has been found |
| BareJsonText.FindAndExtractBareJsonToolCalls | internal/llm/sanitize.go:456-625 | the result is the untouched text, or the trimmed rest with the calls |
| BareJsonText.CutKeeps | internal/llm/sanitize.go:612-622 | the rest consists of exactly the characters outside the removed ranges, in order |
| Untrusted.SanitizeText | internal/mailcal/untrusted.go:35-60 | the filter and the collapse loop terminate and compute the one-pass cap on newlines, the trim and the cut |
| UntrustedLaws.CleanedIsClean | internal/mailcal/untrusted.go:35-54 | visible runes only, no three newlines in a row, trimmed |
| UntrustedExact.FilterExactly | internal/mailcal/untrusted.go:38-48 | the filter keeps exactly the visible runes, in order |
| UntrustedExact.CappedRun | internal/mailcal/untrusted.go:50-52 | a run of newlines becomes at most two, and what stands around it is capped on its own |
| UntrustedExact.TrimCuts | internal/mailcal/untrusted.go:53 | trimming cuts off white space at the two ends only |
| UntrustedExact.CutSays | internal/mailcal/untrusted.go:54-58 | a text over the limit keeps its first runes, and the note says how many were cut off |
| UntrustedLaws.SanitizeIdempotent | internal/mailcal/untrusted.go:33-60 | without a limit, cleaning is idempotent and leaves no three newlines in a row |
| UntrustedLaws.TruncationTriple | internal/mailcal/untrusted.go:55-59 | with a limit, three newlines are left exactly when the cut falls behind two |
| UntrustedLaws.TruncationExample | internal/mailcal/untrusted.go:55-59 | a text for which it does |
| UntrustedLaws.NeutralizedHasNoMarker | internal/mailcal/untrusted.go:63-64 | neutralised text contains no opening and no closing marker |
| UntrustedLaws.NeutralizedKeepsPlain | internal/mailcal/untrusted.go:63-64 | text without markers passes unchanged |
| UntrustedLaws.CleanMetaIsSafe | internal/mailcal/untrusted.go:66-70 | a metadata value contains no marker and no newline |
| UntrustedExact.CleanValueKept | internal/mailcal/untrusted.go:66-70 | a value that needs no cleaning is carried as it is |
| UntrustedExact.QuotedReadsBack | internal/mailcal/untrusted.go:82 | what `%q` writes can be read back, whatever the value and whatever stands behind it |
| Untrusted.WrapUntrusted | internal/mailcal/untrusted.go:73-87 | the key loop and the concatenations build the frame |
| UntrustedLaws.FrameReadsBack | internal/mailcal/untrusted.go:73-87 | whatever text and metadata contain, the body can be read back from the frame |
| UntrustedExact.MetadataReadsBack | internal/mailcal/untrusted.go:73-84 | the metadata can be read back from the head, key by key, with the cleaned values |
| UntrustedLaws.FrameMarkers | internal/mailcal/untrusted.go:73-87 | the first closing marker of a frame is its own, and no marker begins before it but the opening one |
| StallLog.HighIsMaximum | internal/agent/heartbeat.go:350-355 | the remembered progress is the maximum since the last zero |
| StallLog.StalledMeans | internal/agent/heartbeat.go:350-355 | the stall count is the number of reports since the last that was zero or a new high |
| StallLog.EscalatesExactly | internal/agent/heartbeat.go:358-363 | escalation fires exactly at the third such report in a row |
| StallLog.EscalatesOnce | internal/agent/heartbeat.go:358-363 | and once per streak |
| StallLog.ZeroNeverEscalates | internal/agent/heartbeat.go:351-353 | never on a report of zero |
| Missions.StallTracker.TrackTaskStall | internal/agent/heartbeat.go:341-364 | the tracked state is the function of the reports it should be, and so is what is returned |
| Missions.TaskTable.UpdateTask | internal/agent/tasks.go:275-347 | what a write does to the row, for every old row and every new one |
| HeartbeatExact.WriteExactly | internal/agent/tasks.go:275-347 | the whole row after a write: status as written, 100 percent when it is completed for the first time, counters cleared by a restart only, and each step of the plan |
| HeartbeatLaws.ResetExactly | internal/agent/tasks.go:295-333 | in the row, a restart clears both counters and reopens exactly the failed steps that do not wait for an approval, all steps when progress is rewound; any other write does neither |
| HeartbeatLaws.ReplyDecides | internal/agent/heartbeat_cycle.go:256-325 | exactly when a reply completes a mission, blocks it or counts as a failure; an open plan is never completed by a reply, and progress never falls |
| HeartbeatLaws.ReplyCounts | internal/agent/heartbeat_cycle.go:256-342 | after a reply and its stall count, a mission that is not blocked has failed less than three times |
| HeartbeatLaws.DrainWriteChangesNothing | internal/agent/engine_plan.go:59-63 | the drain's second write of a plan, from the copy it loaded at its start, changes nothing in the row |
| Heartbeat.CheckCycle | internal/agent/heartbeat_cycle.go:136-344 | the row and the reports after one cycle, for any plan writes and any outcome |
| HeartbeatExact.WritesExactly | internal/agent/engine_plan.go:391-411 | the plans a run writes: the row has the last one, is done exactly when that one is completed, and shows the furthest progress of all; the counters stay |
| HeartbeatExact.CycleWithoutReply | internal/agent/heartbeat_cycle.go:204-243 | without a reply nothing is counted but a fatal failure, which blocks at the third; a pause or a transient failure leaves the mission running with the plan and the further progress |
| HeartbeatExact.CycleWithReply | internal/agent/heartbeat_cycle.go:244-344 | with a reply the row takes over what the reply and the stall count left |
| HeartbeatExact.ReplyProgress | internal/agent/heartbeat_cycle.go:256-325 | a mission that is not done shows the furthest of its own progress, its plan's and, when nothing else decided, the reported one |
| HeartbeatLaws.CycleCounts | internal/agent/heartbeat_cycle.go:233-343 | one cycle: a failed run counts once and blocks at the third, and the counter stays, rises by one or is cleared by completion |
| HeartbeatLaws.RunSafe | internal/agent/heartbeat_cycle.go:233-343 | over every run of cycles, daemon starts and operator writes that meet the condition below, a mission that waits or runs has failed less than three times |
| HeartbeatLaws.WriteSafeExactly | internal/agent/tasks.go:275-302 | a write over any row leaves that so if and only if it is a restart, carries a counter below the limit, or a status that is neither waiting, running nor completed |
| HeartbeatLaws.FailuresAreBounded | internal/agent/heartbeat_cycle.go:233-278 | without an operator write, at most as many cycles fail, with an error or an empty reply, as are left to the limit |
| HeartbeatStalls.StallBlocksExactly | internal/agent/heartbeat_cycle.go:334-342 | a cycle with a reply blocks a running mission for stalling if and only if its progress is neither zero nor a new high and the reports before it count two; the row takes over the tracker's count |
| HeartbeatStalls.IdleRun | internal/agent/heartbeat.go:350-363 | for every run of cycles without advance: it ends in a block if and only if the count was below the limit and has reached it |
| HeartbeatStalls.RestartedIdleRun | internal/agent/tasks.go:295-302 | after a restart, such a run is blocked if and only if the tracker's count was below the limit before the restart, which the restart does not touch |
| HeartbeatStalls.RestartNeverEscalates | internal/agent/heartbeat.go:350-363 | a mission blocked for stalling and restarted, which no number of cycles without advance blocks again |
| HeartbeatLaws.CompletedByHandKeepsCounter | internal/agent/tasks.go:295-301 | two operator writes after which a running mission has a fail counter of three |

## Left out

- Input and output: SQL text, HTTP providers, event bus, sessions, file writes, logging. Tables are maps; replies and faults are inputs.
- JSON decoding and encoding, regular expressions, SHA-256 and random ids: function parameters, numbers or fresh ids.
- Contexts, cancellation and timeouts. The breaker has an integer clock.
- `compactToolObservations`, `AutoSummarizeObservation`, prompt builders, memory and the streaming engine.
- `StreamCompleteWithCascade`: it does not consult the breaker.
- `GetProvider`: whether a target leads to a provider is an input, because its fuzzy matching depends on map order.
- `DecomposeGoal` and the expansion of one-step plans: a burst and a drain work on a plan that has been decomposed.
- `markRemainingComplete`: it marks steps whatever their dependencies and stands outside the run invariant.
- `selectRunnableMission`, active hours and notifications: they choose missions and tell operators, and change no mission.
- The resume path of missions in `syncMissionAfterResume`: the laws on missions are about cycles, operator writes and daemon starts.
- The cron guard against overlapping runs, the concurrent-run quota, lockouts and active-hours windows.
- PlanRuns.ExecuteBurst: does not model the parallel execution itself, because each outcome is an arbitrary input and marking starts when all are known.
- ProposalLaws.OneDecisionWins: does not model the content of a rule or its removal by other parts of the system; proposals and their decisions are steps over values, not objects.
- LedgerLaws.AtMostOnce: does not model two processes on one table; a crash ends the only one.
- Heartbeat.CheckCycle: does not model an operator who writes the mission while its cycle runs, nor the plan object shared with the caller of a write, because rows are values; each plan write is one write over the row as it stands, as `persistTaskPlan` does it, and the drain's own second write from its loaded copy is left to `DrainWriteChangesNothing`.
- Untrusted.WrapUntrusted: the metadata comes in key order, because the order of a map is not modelled; decoding of invalid UTF-8 is not modelled either.
- Missions.StallTracker.TrackTaskStall: does not model the entries that a cycle keeps in the same map, under a longer key, for a notice about a missing channel.
- Resume.RunTurn: does not model observation caps, repetition counters and tool switching.
