/** The plan's operations, said of the single steps. */
module PlanExact {
  import opened Plan
  import opened PlanRuns
  import opened PlanExecution

  /* ---- Progress ---- */

  ghost function CompletedAt(steps: seq<PlanStep>): set<nat> {
    set i: nat | i < |steps| && steps[i].status == Completed
  }

  lemma {:induction false} CountIsSize(steps: seq<PlanStep>)
    ensures CountCompleted(steps) == |CompletedAt(steps)|
  {
    if steps != [] {
      var k := |steps| - 1;
      CountIsSize(steps[..k]);
      assert CompletedAt(steps) == CompletedAt(steps[..k]) + if steps[k].status == Completed then {k} else {};
    }
  }

  /** The percentage is the greatest whole number that the share of completed steps reaches. */
  lemma PercentExactly(steps: seq<PlanStep>, p: nat)
    requires steps != []
    ensures p <= Percent(steps) <==> p * |steps| <= 100 * |CompletedAt(steps)|
  {
    CountIsSize(steps);
    var c, n := 100 * |CompletedAt(steps)|, |steps|;
    assert Percent(steps) == c / n;
    hide *;
    AtMostQuotient(p, c, n);
  }

  lemma AtMostQuotient(p: nat, c: nat, n: nat)
    requires n > 0
    ensures p <= c / n <==> p * n <= c
  {
    var q := c / n;
    assert c == q * n + c % n && 0 <= c % n < n;
    if p <= q {
      assert p * n <= q * n;
    } else {
      assert p * n >= (q + 1) * n == q * n + n;
    }
  }

  /* ---- Marks ---- */

  /** No step in front of `i` has the id. */
  ghost predicate FirstWith(steps: seq<PlanStep>, i: nat, id: string) {
    i < |steps| && steps[i].id == id && forall j :: 0 <= j < i ==> steps[j].id != id
  }

  /** The first step with the id has the status and the result, and nothing else differs. */
  ghost predicate FirstMarked(out: seq<PlanStep>, steps: seq<PlanStep>, id: string, status: Status, result: string) {
    && |out| == |steps|
    && forall i :: 0 <= i < |steps| ==>
      if FirstWith(steps, i, id) then out[i] == PlanStep(id, steps[i].dependencies, status, result) else out[i] == steps[i]
  }

  lemma MarkChangesFirst(steps: seq<PlanStep>, id: string, status: Status, result: string)
    ensures FirstMarked(Marked(steps, id, status, result), steps, id, status, result)
  {
  }

  /** The end of a resumed run leaves the step pending when the reply was canned, and completed otherwise; without a
      step in the prompt it is the first one that is paused or failed for want of an approval. */
  lemma ResumeMarksFirst(steps: seq<PlanStep>, id: string, content: string, canned: bool, isApproval: ApprovalTest)
    ensures FirstMarked(ResumedPlan(steps, id, content, true), steps, id, Pending, content)
    ensures FirstMarked(ResumedPlan(steps, id, content, false), steps, id, Completed, content)
    ensures WaitingId(steps, isApproval) != "" ==>
      exists i :: 0 <= i < |steps| && steps[i].id == WaitingId(steps, isApproval) && WaitsFirst(steps, i, isApproval)
    ensures WaitingId(steps, isApproval) == "" ==>
      forall i :: 0 <= i < |steps| && WaitsFirst(steps, i, isApproval) ==> steps[i].id == ""
  {
    MarkChangesFirst(steps, id, Pending, content);
    MarkChangesFirst(steps, id, Completed, content);
    var k := FirstWaiting(steps, isApproval);
    assert k < |steps| ==> WaitsFirst(steps, k, isApproval);
  }

  /** The step waits for the operator, and none in front of it does. */
  ghost predicate WaitsFirst(steps: seq<PlanStep>, i: int, isApproval: ApprovalTest)
    requires 0 <= i < |steps|
  {
    && (steps[i].status == Status.Paused || (steps[i].status == Failed && isApproval(steps[i].result)))
    && forall j :: 0 <= j < i ==>
      steps[j].status != Status.Paused && !(steps[j].status == Failed && isApproval(steps[j].result))
  }

  /** The operator's retry makes every failure pending that waits for no approval; the refresh of a burst all those
      that do.  A step made pending this way keeps its result. */
  lemma ReopenedExactly(steps: seq<PlanStep>, isApproval: ApprovalTest, approvals: bool, i: nat)
    requires i < |steps|
    ensures var out := FailedReopened(steps, isApproval, approvals);
      && |out| == |steps| && out[i].id == steps[i].id && out[i].dependencies == steps[i].dependencies
      && out[i].result == steps[i].result
      && (steps[i].status != Failed || isApproval(steps[i].result) != approvals ==> out[i].status == steps[i].status)
      && (steps[i].status == Failed && isApproval(steps[i].result) == approvals ==> out[i].status == Pending)
  {
  }

  /* ---- Execution ---- */

  /** A step that was executed has the status and the text of its own outcome, whichever that was; the others are as
      they were. */
  lemma {:induction false} ExecutedExactly(steps: seq<PlanStep>, trace: seq<nat>, outcomes: nat -> Outcome, i: nat)
    requires OrderedRun(steps, trace) && i < |steps|
    ensures i !in trace ==> StepsAfter(steps, trace, outcomes)[i] == steps[i]
    ensures forall k :: 0 <= k < |trace| && trace[k] == i ==>
      StepsAfter(steps, trace, outcomes)[i] == match outcomes(k)
        case Ok(r) => PlanStep(steps[i].id, steps[i].dependencies, Completed, r)
        case Err(e) => PlanStep(steps[i].id, steps[i].dependencies, Failed, e)
  {
    if trace != [] {
      var n := |trace| - 1;
      assert trace == trace[..n] + [trace[n]];
      ExecutedExactly(steps, trace[..n], outcomes, i);
      assert forall k :: 0 <= k < n ==> trace[k] == trace[..n][k];
    }
  }
}
