/** `ExecuteAutonomousGoal`: bursts in a row until one of them gives a reason to stop. */
module PlanDrain {
  import opened Plan
  import opened PlanRuns
  import opened PlanRunsLaws

  const MAX_BURSTS: nat := 8

  /** The surroundings of one pulse: `outcomes(m)(i)` is how step `i` ends in burst `m`, and
      `canned(m)` whether the reply of burst `m` is canned or empty. */
  datatype Pulse = Pulse(isApproval: ApprovalTest, maxRuns: int, outcomes: nat -> nat -> StepOutcome, canned: nat -> bool)

  /** The plan after `m` bursts. */
  ghost function Bursts(steps: seq<PlanStep>, pulse: Pulse, m: nat): seq<PlanStep> {
    if m == 0 then steps
    else Burst(Bursts(steps, pulse, m - 1), pulse.isApproval, pulse.maxRuns, pulse.outcomes(m - 1))
  }

  /** The id of the first ready step, empty when there is none. */
  function FirstReady(steps: seq<PlanStep>): string {
    var ready := ReadyIndices(steps);
    if ready == [] then "" else
      assert ready[0] in ready;
      steps[ready[0]].id
  }

  /** Burst `m` (counted from 1) ends with the error of some step. */
  ghost predicate Fails(steps: seq<PlanStep>, pulse: Pulse, m: nat)
    requires m > 0
  {
    BurstFails(Bursts(steps, pulse, m - 1), pulse.isApproval, pulse.maxRuns, pulse.outcomes(m - 1))
  }

  /** The same step was first in line before burst `m - 1`, before burst `m` and still is after it. */
  ghost predicate Stalled(steps: seq<PlanStep>, pulse: Pulse, m: nat)
    requires m > 0
  {
    && m >= 2 && FirstReady(Bursts(steps, pulse, m)) != ""
    && FirstReady(Bursts(steps, pulse, m - 2)) == FirstReady(Bursts(steps, pulse, m))
    && FirstReady(Bursts(steps, pulse, m - 1)) == FirstReady(Bursts(steps, pulse, m))
  }

  /** There is a reason to stop after burst `m`. */
  ghost predicate Stops(steps: seq<PlanStep>, pulse: Pulse, m: nat)
    requires m > 0
  {
    || Fails(steps, pulse, m)
    || AllCompleted(Bursts(steps, pulse, m))
    || pulse.canned(m - 1)
    || ReadyIndices(Bursts(steps, pulse, m)) == []
    || Stalled(steps, pulse, m)
    || m == MAX_BURSTS
  }

  method NextReadyStep(plan: TaskPlan) returns (found: bool, id: string)
    ensures found <==> ReadyIndices(plan.steps) != []
    ensures id == FirstReady(plan.steps)
  {
    var ready := plan.ReadySteps();
    if |ready| == 0 {
      return false, "";
    }
    assert ready[0] in ready;
    return true, plan.steps[ready[0]].id;
  }

  /** Runs bursts up to the first reason to stop: at most eight, and none more after a failure. */
  method ExecuteAutonomousGoal(plan: TaskPlan, pulse: Pulse) returns (bursts: nat, failed: bool)
    modifies plan
    ensures 1 <= bursts <= MAX_BURSTS
    ensures plan.steps == Bursts(old(plan.steps), pulse, bursts)
    ensures Stops(old(plan.steps), pulse, bursts)
    ensures forall m :: 1 <= m < bursts ==> !Stops(old(plan.steps), pulse, m)
    ensures failed <==> Fails(old(plan.steps), pulse, bursts)
  {
    hide Burst, BurstFails, FirstReady, AllCompleted, ReadyIndices;
    ghost var start := plan.steps;
    var sameStepRetries := 0;
    bursts, failed := 0, false;
    for i := 0 to MAX_BURSTS
      invariant bursts == i && plan.steps == Bursts(start, pulse, i)
      invariant forall m :: 1 <= m <= i && m < MAX_BURSTS ==> !Stops(start, pulse, m)
      invariant sameStepRetries == if i > 0 && Repeated(start, pulse, i) then 1 else 0
      invariant i > 0 ==> failed == Fails(start, pulse, i)
    {
      var _, readyID := NextReadyStep(plan);
      failed := ExecuteBurst(plan, pulse.isApproval, pulse.maxRuns, pulse.outcomes(i));
      bursts := i + 1;
      if failed {
        return;
      }
      var all := plan.AllStepsCompleted();
      if all {
        return;
      }
      if pulse.canned(i) {
        return;
      }
      var found, nextID := NextReadyStep(plan);
      if !found {
        return;
      }
      if readyID != "" && nextID == readyID {
        sameStepRetries := sameStepRetries + 1;
        if sameStepRetries > 1 {
          return;
        }
        continue;
      }
      sameStepRetries := 0;
    }
  }

  /** The step first in line before burst `m` is still first in line after it. */
  ghost predicate Repeated(steps: seq<PlanStep>, pulse: Pulse, m: nat)
    requires m > 0
  {
    && FirstReady(Bursts(steps, pulse, m)) != ""
    && FirstReady(Bursts(steps, pulse, m - 1)) == FirstReady(Bursts(steps, pulse, m))
  }

  /** The bursts of a pulse keep the plan sound, and no completed step is lost. */
  lemma {:induction false} BurstsSound(steps: seq<PlanStep>, pulse: Pulse, m: nat)
    requires Sound(steps)
    ensures Sound(Bursts(steps, pulse, m)) && KeepsCompleted(steps, Bursts(steps, pulse, m))
  {
    hide Sound, Burst;
    if m > 0 {
      BurstsSound(steps, pulse, m - 1);
      BurstSound(Bursts(steps, pulse, m - 1), pulse.isApproval, pulse.maxRuns, pulse.outcomes(m - 1));
      BurstKeepsCompleted(Bursts(steps, pulse, m - 1), pulse.isApproval, pulse.maxRuns, pulse.outcomes(m - 1));
    }
  }
}
