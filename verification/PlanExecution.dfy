/** `ExecutePlan`: running every step of a plan in dependency order. */
module PlanExecution {
  import opened Plan
  import opened PlanGraph

  datatype Outcome = Ok(result: string) | Err(error: string)

  datatype Verdict = EmptyPlan | Done | Deadlock | StepFailed(index: nat)

  /* ---- Specification ---- */

  /** The ids of the executed steps. */
  function IdsOf(steps: seq<PlanStep>, trace: seq<nat>): set<string> {
    if trace == [] then {}
    else
      var k := |trace| - 1;
      IdsOf(steps, trace[..k]) + (if trace[k] < |steps| then {steps[trace[k]].id} else {})
  }

  /** A run executes pending steps, each at most once and each behind the steps it depends on. */
  ghost predicate OrderedRun(steps: seq<PlanStep>, trace: seq<nat>) {
    trace == [] ||
    var k := |trace| - 1;
    var i := trace[k];
    && OrderedRun(steps, trace[..k])
    && i < |steps| && i !in trace[..k]
    && steps[i].status == Pending && DependenciesIn(steps[i], IdsOf(steps, trace[..k]))
  }

  function Executed(step: PlanStep, outcome: Outcome): PlanStep {
    match outcome
    case Ok(r) => step.(status := Completed, result := r)
    case Err(e) => step.(status := Failed, result := e)
  }

  /** The steps after a run in which the `k`-th executed step had the `k`-th outcome. */
  ghost function StepsAfter(steps: seq<PlanStep>, trace: seq<nat>, outcomes: nat -> Outcome): (after: seq<PlanStep>)
    requires OrderedRun(steps, trace)
    ensures |after| == |steps|
  {
    if trace == [] then steps
    else
      var k := |trace| - 1;
      StepsAfter(steps, trace[..k], outcomes)[trace[k] := Executed(steps[trace[k]], outcomes(k))]
  }

  /** No pending step has all its dependencies among `ids`. */
  ghost predicate Exhausted(steps: seq<PlanStep>, ids: set<string>) {
    forall i :: 0 <= i < |steps| && steps[i].status == Pending ==> !DependenciesIn(steps[i], ids)
  }

  ghost predicate AllOk(outcomes: nat -> Outcome, n: nat) {
    forall k :: 0 <= k < n ==> outcomes(k).Ok?
  }

  /** What a finished execution guarantees. */
  ghost predicate Execution(before: seq<PlanStep>, after: seq<PlanStep>, outcomes: nat -> Outcome,
      verdict: Verdict, trace: seq<nat>) {
    && OrderedRun(before, trace) && after == StepsAfter(before, trace, outcomes)
    && match verdict
       case EmptyPlan => before == []
       case Done => AllCompleted(after) && AllOk(outcomes, |trace|)
       case Deadlock =>
         before != [] && !AllCompleted(after) && AllOk(outcomes, |trace|) && Exhausted(after, IdsOf(before, trace))
       case StepFailed(i) =>
         trace != [] && trace[|trace| - 1] == i && AllOk(outcomes, |trace| - 1) && outcomes(|trace| - 1).Err?
  }

  /* ---- The loop ---- */

  lemma RunExtends(steps: seq<PlanStep>, trace: seq<nat>, outcomes: nat -> Outcome, i: nat)
    requires OrderedRun(steps, trace) && i < |steps| && i !in trace
    requires steps[i].status == Pending && DependenciesIn(steps[i], IdsOf(steps, trace))
    ensures OrderedRun(steps, trace + [i])
    ensures IdsOf(steps, trace + [i]) == IdsOf(steps, trace) + {steps[i].id}
    ensures StepsAfter(steps, trace + [i], outcomes) ==
      StepsAfter(steps, trace, outcomes)[i := Executed(steps[i], outcomes(|trace|))]
  {
    assert (trace + [i])[..|trace|] == trace;
  }

  /** Executed steps are completed, all others are as they were. */
  lemma {:induction false} StepAfter(steps: seq<PlanStep>, trace: seq<nat>, outcomes: nat -> Outcome, i: nat)
    requires OrderedRun(steps, trace) && AllOk(outcomes, |trace|) && i < |steps|
    ensures var step := StepsAfter(steps, trace, outcomes)[i];
      if i in trace then step.status == Completed && step.id == steps[i].id && step.dependencies == steps[i].dependencies
      else step == steps[i]
    ensures i in trace ==> steps[i].status == Pending && steps[i].id in IdsOf(steps, trace)
  {
    if trace != [] {
      var k := |trace| - 1;
      assert trace == trace[..k] + [trace[k]];
      StepAfter(steps, trace[..k], outcomes, i);
    }
  }

  function Below(n: nat): (s: set<nat>)
    ensures |s| == n && forall i: nat :: i in s <==> i < n
  {
    if n == 0 then {} else Below(n - 1) + {n - 1}
  }

  lemma {:induction false} RunIsInjective(steps: seq<PlanStep>, trace: seq<nat>, a: nat, b: nat)
    requires OrderedRun(steps, trace) && a < b < |trace|
    ensures trace[a] != trace[b]
  {
    var k := |trace| - 1;
    assert trace[..k][a] == trace[a];
    if b < k {
      RunIsInjective(steps, trace[..k], a, b);
    }
  }

  lemma {:induction false} RunInRange(steps: seq<PlanStep>, trace: seq<nat>)
    requires OrderedRun(steps, trace)
    ensures forall k :: 0 <= k < |trace| ==> trace[k] < |steps|
  {
    if trace != [] {
      var n := |trace| - 1;
      RunInRange(steps, trace[..n]);
      assert forall k :: 0 <= k < n ==> trace[k] == trace[..n][k];
    }
  }

  /** A run is not longer than the plan. */
  lemma RunFits(steps: seq<PlanStep>, trace: seq<nat>)
    requires OrderedRun(steps, trace)
    ensures |trace| <= |steps|
  {
    hide OrderedRun;
    if |trace| > |steps| {
      RunInRange(steps, trace);
      var a, b := Pigeonhole(trace, Below(|steps|));
      RunIsInjective(steps, trace, a, b);
    }
  }

  method DependenciesMet(step: PlanStep, completed: set<string>) returns (met: bool)
    ensures met <==> DependenciesIn(step, completed)
  {
    for k := 0 to |step.dependencies|
      invariant forall j :: 0 <= j < k ==> step.dependencies[j] in completed
    {
      if step.dependencies[k] !in completed {
        return false;
      }
    }
    met := true;
  }

  /** Executes the plan; `outcomes(k)` is what the executor answers to its `k`-th call. */
  method ExecutePlan(plan: TaskPlan, outcomes: nat -> Outcome) returns (verdict: Verdict, trace: seq<nat>)
    modifies plan
    ensures Execution(old(plan.steps), plan.steps, outcomes, verdict, trace)
  {
    hide IdsOf, StepsAfter, DependenciesIn;
    ghost var before := plan.steps;
    trace := [];
    StartOfRun(before, outcomes);
    if |plan.steps| == 0 {
      return EmptyPlan, trace;
    }
    var completed := {};
    while true
      invariant OrderedRun(before, trace) && plan.steps == StepsAfter(before, trace, outcomes)
      invariant completed == IdsOf(before, trace) && AllOk(outcomes, |trace|)
      decreases |before| - |trace|
    {
      ghost var start := trace;
      var progressMade, allDone := false, true;
      for i := 0 to |plan.steps|
        invariant OrderedRun(before, trace) && plan.steps == StepsAfter(before, trace, outcomes)
        invariant completed == IdsOf(before, trace) && AllOk(outcomes, |trace|)
        invariant if progressMade then |trace| > |start| else trace == start
        invariant allDone ==> !progressMade && forall j :: 0 <= j < i ==> plan.steps[j].status == Completed
        invariant !allDone && !progressMade ==> exists j :: 0 <= j < i && plan.steps[j].status != Completed
        invariant !progressMade ==> Exhausted(plan.steps[..i], completed)
      {
        var step := plan.steps[i];
        StepAfter(before, trace, outcomes, i);
        assert plan.steps[..i + 1] == plan.steps[..i] + [step];
        if step.status == Completed {
          continue;
        }
        allDone := false;
        var depsMet := DependenciesMet(step, completed);
        if depsMet && step.status == Pending {
          RunExtends(before, trace, outcomes, i);
          var outcome := outcomes(|trace|);
          plan.steps := plan.steps[i := Executed(step, outcome)];
          trace := trace + [i];
          if outcome.Err? {
            return StepFailed(i), trace;
          }
          completed := completed + {step.id};
          progressMade := true;
        }
      }
      if allDone {
        return Done, trace;
      }
      if !progressMade {
        assert plan.steps[..|plan.steps|] == plan.steps;
        return Deadlock, trace;
      }
      RunFits(before, trace);
    }
  }

  lemma StartOfRun(steps: seq<PlanStep>, outcomes: nat -> Outcome)
    ensures OrderedRun(steps, []) && StepsAfter(steps, [], outcomes) == steps && IdsOf(steps, []) == {}
  {
  }
}
