/** Bursts of ready steps, resumes and reopen operations, over whole runs. */
module PlanRuns {
  import opened Plan
  import opened PlanGraph

  const PAUSED_MARKER := "[APPROVAL_PAUSED]"
  const RETRY_PREFIX := "Transient error (will retry): "

  /** How the execution of one step ends; an empty reply leaves the step as it is. */
  datatype StepOutcome = Reply(content: string) | NeedsApproval(error: string) | Transient(error: string) | Fatal(error: string)

  datatype Mark = Mark(id: string, status: Status, result: string)

  /* ---- Specification ---- */

  function MarksOf(id: string, outcome: StepOutcome): seq<Mark> {
    match outcome
    case Reply(content) => if content == "" then [] else [Mark(id, Completed, content)]
    case NeedsApproval(e) => [Mark(id, Status.Paused, PAUSED_MARKER + " " + e)]
    case Transient(e) => [Mark(id, Pending, RETRY_PREFIX + e)]
    case Fatal(e) => [Mark(id, Failed, e)]
  }

  ghost predicate InRange(batch: seq<nat>, n: nat) {
    forall k :: 0 <= k < |batch| ==> batch[k] < n
  }

  /** The marks of a batch, in batch order; `outcomes(i)` is how step `i` ended. */
  ghost function BatchMarks(steps: seq<PlanStep>, batch: seq<nat>, outcomes: nat -> StepOutcome): seq<Mark>
    requires InRange(batch, |steps|)
  {
    if batch == [] then []
    else
      var k := |batch| - 1;
      BatchMarks(steps, batch[..k], outcomes) + MarksOf(steps[batch[k]].id, outcomes(batch[k]))
  }

  function MarkAll(steps: seq<PlanStep>, marks: seq<Mark>): seq<PlanStep> {
    if marks == [] then steps
    else
      var m := marks[|marks| - 1];
      Marked(MarkAll(steps, marks[..|marks| - 1]), m.id, m.status, m.result)
  }

  /** The plan a burst works on: approval-shaped failures are reopened when nothing is ready. */
  function Refreshed(steps: seq<PlanStep>, isApproval: ApprovalTest): seq<PlanStep> {
    if ReadyIndices(steps) == [] then FailedReopened(steps, isApproval, true) else steps
  }

  /** The steps that run together. */
  function Batch(steps: seq<PlanStep>, maxRuns: int): (batch: seq<nat>)
    ensures InRange(batch, |steps|)
    ensures forall k :: 0 <= k < |batch| ==> Ready(steps[batch[k]], CompletedIds(steps))
    ensures forall a, b :: 0 <= a < b < |batch| ==> batch[a] < batch[b]
  {
    var ready, cap := ReadyIndices(steps), if maxRuns > 0 then maxRuns else 3;
    assert forall k :: 0 <= k < |ready| ==> ready[k] in ready;
    if |ready| > cap then ready[..cap] else ready
  }

  ghost function Burst(steps: seq<PlanStep>, isApproval: ApprovalTest, maxRuns: int,
      outcomes: nat -> StepOutcome): seq<PlanStep> {
    var base := Refreshed(steps, isApproval);
    MarkAll(base, BatchMarks(base, Batch(base, maxRuns), outcomes))
  }

  /** Some step of the batch does not end with a reply. */
  ghost predicate SomeFail(batch: seq<nat>, outcomes: nat -> StepOutcome) {
    exists k :: 0 <= k < |batch| && !outcomes(batch[k]).Reply?
  }

  ghost predicate BurstFails(steps: seq<PlanStep>, isApproval: ApprovalTest, maxRuns: int, outcomes: nat -> StepOutcome) {
    SomeFail(Batch(Refreshed(steps, isApproval), maxRuns), outcomes)
  }

  /** Nothing but statuses and results differs. */
  ghost predicate SameGraph(a: seq<PlanStep>, b: seq<PlanStep>) {
    && |a| == |b|
    && forall i :: 0 <= i < |a| ==> b[i] == a[i].(status := b[i].status, result := b[i].result)
  }

  lemma {:induction false} MarkAllKeepsGraph(steps: seq<PlanStep>, marks: seq<Mark>)
    ensures SameGraph(steps, MarkAll(steps, marks))
  {
    if marks != [] {
      MarkAllKeepsGraph(steps, marks[..|marks| - 1]);
    }
  }

  /* ---- The burst ---- */

  /** Applies one outcome to the plan. */
  function Applied(steps: seq<PlanStep>, id: string, outcome: StepOutcome): seq<PlanStep> {
    match outcome
    case Reply(content) => if content == "" then steps else Marked(steps, id, Completed, content)
    case NeedsApproval(e) => Marked(steps, id, Status.Paused, PAUSED_MARKER + " " + e)
    case Transient(e) => Marked(steps, id, Pending, RETRY_PREFIX + e)
    case Fatal(e) => Marked(steps, id, Failed, e)
  }

  lemma MarkAllAppend(steps: seq<PlanStep>, marks: seq<Mark>, id: string, outcome: StepOutcome)
    ensures MarkAll(steps, marks + MarksOf(id, outcome)) == Applied(MarkAll(steps, marks), id, outcome)
  {
    hide Marked;
    var more := MarksOf(id, outcome);
    if more == [] {
      assert marks + more == marks;
    } else {
      assert (marks + more)[..|marks + more| - 1] == marks;
    }
  }

  lemma SomeFailSnoc(batch: seq<nat>, i: nat, outcomes: nat -> StepOutcome)
    ensures SomeFail(batch + [i], outcomes) <==> SomeFail(batch, outcomes) || !outcomes(i).Reply?
  {
    if SomeFail(batch, outcomes) {
      var k :| 0 <= k < |batch| && !outcomes(batch[k]).Reply?;
      assert (batch + [i])[k] == batch[k];
    }
    assert (batch + [i])[|batch|] == i;
  }

  /** The plan after the first `k` outcomes of a batch. */
  ghost function After(base: seq<PlanStep>, batch: seq<nat>, outcomes: nat -> StepOutcome, k: nat): seq<PlanStep>
    requires k <= |batch| && InRange(batch, |base|)
  {
    MarkAll(base, BatchMarks(base, batch[..k], outcomes))
  }

  lemma AfterNext(base: seq<PlanStep>, batch: seq<nat>, outcomes: nat -> StepOutcome, k: nat)
    requires k < |batch| && InRange(batch, |base|)
    ensures SameGraph(base, After(base, batch, outcomes, k))
    ensures After(base, batch, outcomes, k + 1) ==
      Applied(After(base, batch, outcomes, k), base[batch[k]].id, outcomes(batch[k]))
    ensures SomeFail(batch[..k + 1], outcomes) <==> SomeFail(batch[..k], outcomes) || !outcomes(batch[k]).Reply?
  {
    hide MarksOf, Marked, Applied, SameGraph, SomeFail, MarkAll;
    assert batch[..k + 1] == batch[..k] + [batch[k]] && batch[..k + 1][..k] == batch[..k];
    MarkAllKeepsGraph(base, BatchMarks(base, batch[..k], outcomes));
    MarkAllAppend(base, BatchMarks(base, batch[..k], outcomes), base[batch[k]].id, outcomes(batch[k]));
    SomeFailSnoc(batch[..k], batch[k], outcomes);
  }

  /** Records how one step ended. */
  method Record(plan: TaskPlan, id: string, outcome: StepOutcome) returns (failed: bool)
    modifies plan
    ensures plan.steps == Applied(old(plan.steps), id, outcome)
    ensures failed <==> !outcome.Reply?
  {
    hide Marked;
    failed := true;
    match outcome {
      case NeedsApproval(e) => plan.MarkStep(id, Status.Paused, PAUSED_MARKER + " " + e);
      case Transient(e) => plan.MarkStep(id, Pending, RETRY_PREFIX + e);
      case Fatal(e) => plan.MarkStep(id, Failed, e);
      case Reply(content) =>
        if content != "" {
          plan.MarkStep(id, Completed, content);
        }
        failed := false;
    }
  }

  /** The steps to run next; reopens approval-shaped failures when nothing is ready. */
  method SelectBatch(plan: TaskPlan, isApproval: ApprovalTest, maxRuns: int) returns (batch: seq<nat>)
    modifies plan
    ensures plan.steps == Refreshed(old(plan.steps), isApproval)
    ensures batch == Batch(plan.steps, maxRuns)
  {
    hide ReadyIndices, FailedReopened;
    batch := plan.ReadySteps();
    if |batch| == 0 {
      var changed := plan.ReopenFailed(isApproval, true);
      batch := plan.ReadySteps();
    }
    var cap := if maxRuns > 0 then maxRuns else 3;
    batch := if |batch| > cap then batch[..cap] else batch;
  }

  /** Runs the batch and marks the results; `failed` says that some step did not end with a reply. */
  method ExecuteBurst(plan: TaskPlan, isApproval: ApprovalTest, maxRuns: int, outcomes: nat -> StepOutcome)
      returns (failed: bool)
    modifies plan
    ensures plan.steps == Burst(old(plan.steps), isApproval, maxRuns, outcomes)
    ensures failed <==> BurstFails(old(plan.steps), isApproval, maxRuns, outcomes)
  {
    hide Applied, Refreshed, SomeFail, MarkAll, BatchMarks, Ready;
    var batch := SelectBatch(plan, isApproval, maxRuns);
    ghost var base := plan.steps;
    failed := false;
    assert batch[..0] == [];
    NothingRun(base, outcomes);
    for k := 0 to |batch|
      invariant plan.steps == After(base, batch, outcomes, k)
      invariant failed <==> SomeFail(batch[..k], outcomes)
    {
      hide Batch, After;
      AfterNext(base, batch, outcomes, k);
      var bad := Record(plan, plan.steps[batch[k]].id, outcomes(batch[k]));
      failed := failed || bad;
    }
    assert batch[..|batch|] == batch;
  }

  lemma NothingRun(base: seq<PlanStep>, outcomes: nat -> StepOutcome)
    ensures MarkAll(base, BatchMarks(base, [], outcomes)) == base && !SomeFail([], outcomes)
  {
  }

  /* ---- Resumes ---- */

  /** The step waits for a decision of the operator. */
  predicate Waiting(step: PlanStep, isApproval: ApprovalTest) {
    step.status == Status.Paused || (step.status == Failed && isApproval(step.result))
  }

  /** What the end of a resumed run records: completed, or pending again for a canned or empty reply. */
  function ResumedPlan(steps: seq<PlanStep>, id: string, content: string, canned: bool): seq<PlanStep> {
    Marked(steps, id, if canned then Pending else Completed, content)
  }

  /** The first step that waits, the length when there is none. */
  function FirstWaiting(steps: seq<PlanStep>, isApproval: ApprovalTest): (k: nat)
    ensures k <= |steps|
    ensures k < |steps| ==> Waiting(steps[k], isApproval)
    ensures forall j :: 0 <= j < k ==> !Waiting(steps[j], isApproval)
  {
    if steps == [] || Waiting(steps[0], isApproval) then 0 else 1 + FirstWaiting(steps[1..], isApproval)
  }

  function WaitingId(steps: seq<PlanStep>, isApproval: ApprovalTest): string {
    var k := FirstWaiting(steps, isApproval);
    if k < |steps| then steps[k].id else ""
  }

  /** Records the end of a resumed run for the step its prompt names, or else for the first that waits. */
  method FinishPlanStepAfterResume(plan: TaskPlan, promptId: string, content: string, canned: bool,
      isApproval: ApprovalTest)
    modifies plan
    ensures var id := if promptId != "" then promptId else WaitingId(old(plan.steps), isApproval);
      plan.steps == if id == "" then old(plan.steps) else ResumedPlan(old(plan.steps), id, content, canned)
  {
    var id := promptId;
    if id == "" {
      for i := 0 to |plan.steps|
        invariant id == ""
        invariant forall j :: 0 <= j < i ==> !Waiting(plan.steps[j], isApproval)
      {
        if Waiting(plan.steps[i], isApproval) {
          id := plan.steps[i].id;
          break;
        }
      }
    }
    if id == "" {
      return;
    }
    if canned {
      plan.MarkStep(id, Pending, content);
    } else {
      plan.MarkStep(id, Completed, content);
    }
  }
}
