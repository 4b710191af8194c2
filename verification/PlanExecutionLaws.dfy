/** When `ExecutePlan` succeeds, for an executor that never fails. */
module PlanExecutionLaws {
  import opened Plan
  import opened PlanGraph
  import opened PlanExecution

  /** A step that is not completed yet. */
  ghost predicate IsOpen(steps: seq<PlanStep>, i: int) {
    0 <= i < |steps| && steps[i].status != Completed
  }

  ghost predicate NamesOpenStep(steps: seq<PlanStep>, id: string) {
    exists j :: IsOpen(steps, j) && steps[j].id == id
  }

  ghost predicate NoOpenCycle(steps: seq<PlanStep>) {
    forall walk :: IsCycle(steps, walk) ==> !IsOpen(steps, walk[0])
  }

  /** The steps that are not completed are pending and depend on each other only. */
  ghost predicate OpenStepsPending(steps: seq<PlanStep>) {
    && (forall i :: IsOpen(steps, i) ==> steps[i].status == Pending)
    && (forall i, d :: IsOpen(steps, i) && d in steps[i].dependencies ==> NamesOpenStep(steps, d))
  }

  /** ... and they do not wait for each other in a circle. */
  ghost predicate Executable(steps: seq<PlanStep>) {
    OpenStepsPending(steps) && NoOpenCycle(steps)
  }

  /* ---- Ids of executed steps ---- */

  lemma {:induction false} ExecutedWith(steps: seq<PlanStep>, trace: seq<nat>, id: string) returns (p: nat)
    requires id in IdsOf(steps, trace)
    ensures p < |trace| && trace[p] < |steps| && steps[trace[p]].id == id
  {
    var k := |trace| - 1;
    if id in IdsOf(steps, trace[..k]) {
      p := ExecutedWith(steps, trace[..k], id);
    } else {
      p := k;
    }
  }

  lemma {:induction false} ExecutedHasId(steps: seq<PlanStep>, trace: seq<nat>, p: nat)
    requires p < |trace| && trace[p] < |steps|
    ensures steps[trace[p]].id in IdsOf(steps, trace)
  {
    var k := |trace| - 1;
    if p < k {
      assert trace[..k][p] == trace[p];
      ExecutedHasId(steps, trace[..k], p);
    }
  }

  /** The step executed at position `a` finds its dependencies among the steps executed before. */
  lemma {:induction false} RunAt(steps: seq<PlanStep>, trace: seq<nat>, a: nat)
    requires OrderedRun(steps, trace) && a < |trace|
    ensures trace[a] < |steps| && steps[trace[a]].status == Pending
    ensures DependenciesIn(steps[trace[a]], IdsOf(steps, trace[..a]))
  {
    var k := |trace| - 1;
    if a < k {
      assert trace[..k][..a] == trace[..a] && trace[..k][a] == trace[a];
      RunAt(steps, trace[..k], a);
    }
  }

  /** What an executed step waits for was executed before it. */
  lemma RunBehind(steps: seq<PlanStep>, trace: seq<nat>, a: nat, j: nat) returns (b: nat)
    requires DistinctIds(steps) && OrderedRun(steps, trace) && a < |trace|
    requires WaitsFor(steps, trace[a], j)
    ensures b < a && trace[b] == j
  {
    RunAt(steps, trace, a);
    b := ExecutedWith(steps, trace[..a], steps[j].id);
    assert trace[..a][b] == trace[b];
  }

  lemma RunIsOrdered(steps: seq<PlanStep>, trace: seq<nat>)
    requires DistinctIds(steps) && OrderedRun(steps, trace)
    ensures Ordered(steps, trace)
  {
    hide OrderedRun, DistinctIds, WaitsFor;
    forall a, b | 0 <= a < |trace| && 0 <= b < |trace| && WaitsFor(steps, trace[a], trace[b])
      ensures b < a
    {
      var c := RunBehind(steps, trace, a, trace[b]);
      if b != c {
        RunIsInjective(steps, trace, if b < c then b else c, if b < c then c else b);
      }
    }
  }

  /** A walk that starts at an executed step visits executed steps only. */
  lemma {:induction false} WalkStaysInRun(steps: seq<PlanStep>, trace: seq<nat>, walk: seq<nat>)
    requires DistinctIds(steps) && OrderedRun(steps, trace)
    requires IsWalk(steps, walk) && walk != [] && walk[0] in trace
    ensures forall k :: 0 <= k < |walk| ==> walk[k] in trace
    decreases |walk|
  {
    hide OrderedRun, DistinctIds, WaitsFor;
    if |walk| > 1 {
      var a :| 0 <= a < |trace| && trace[a] == walk[0];
      assert WaitsFor(steps, walk[0], walk[1]);
      var b := RunBehind(steps, trace, a, walk[1]);
      WalkStaysInRun(steps, trace, walk[1..]);
      assert forall k :: 0 < k < |walk| ==> walk[k] == walk[1..][k - 1];
    }
  }

  /* ---- The verdict ---- */

  lemma DoneMeansExecutable(steps: seq<PlanStep>, outcomes: nat -> Outcome, trace: seq<nat>)
    requires DistinctIds(steps) && OrderedRun(steps, trace) && AllOk(outcomes, |trace|)
    requires AllCompleted(StepsAfter(steps, trace, outcomes))
    ensures Executable(steps)
  {
    hide OrderedRun, DistinctIds, WaitsFor, StepsAfter, IdsOf, AllOk;
    forall i | IsOpen(steps, i)
      ensures i in trace && steps[i].status == Pending
    {
      StepAfter(steps, trace, outcomes, i);
    }
    forall i, d | IsOpen(steps, i) && d in steps[i].dependencies
      ensures NamesOpenStep(steps, d)
    {
      var a :| 0 <= a < |trace| && trace[a] == i;
      RunAt(steps, trace, a);
      var p := ExecutedWith(steps, trace[..a], d);
      RunAt(steps, trace, p);
      assert trace[..a][p] == trace[p];
      assert IsOpen(steps, trace[p]);
    }
    RunIsOrdered(steps, trace);
    forall walk | IsCycle(steps, walk)
      ensures !IsOpen(steps, walk[0])
    {
      if IsOpen(steps, walk[0]) {
        WalkStaysInRun(steps, trace, walk);
        OrderExcludesCycle(steps, trace, walk);
      }
    }
  }

  lemma StuckNeighbour(steps: seq<PlanStep>, outcomes: nat -> Outcome, trace: seq<nat>, i: nat) returns (j: nat)
    requires OrderedRun(steps, trace) && AllOk(outcomes, |trace|) && OpenStepsPending(steps)
    requires Exhausted(StepsAfter(steps, trace, outcomes), IdsOf(steps, trace))
    requires IsOpen(steps, i) && i !in trace
    ensures IsOpen(steps, j) && j !in trace && WaitsFor(steps, i, j)
  {
    hide OrderedRun, StepsAfter, IdsOf, AllOk;
    StepAfter(steps, trace, outcomes, i);
    var d :| d in steps[i].dependencies && d !in IdsOf(steps, trace);
    assert NamesOpenStep(steps, d);
    j :| IsOpen(steps, j) && steps[j].id == d;
    if j in trace {
      var p :| 0 <= p < |trace| && trace[p] == j;
      ExecutedHasId(steps, trace, p);
    }
  }

  /** The open steps that were not executed. */
  ghost function Left(steps: seq<PlanStep>, trace: seq<nat>): set<nat> {
    set i | i in Below(|steps|) && IsOpen(steps, i) && i !in trace
  }

  lemma LeftIsStuck(steps: seq<PlanStep>, outcomes: nat -> Outcome, trace: seq<nat>)
    requires OrderedRun(steps, trace) && AllOk(outcomes, |trace|) && OpenStepsPending(steps)
    requires Exhausted(StepsAfter(steps, trace, outcomes), IdsOf(steps, trace))
    ensures MutuallyStuck(steps, Left(steps, trace))
  {
    hide OrderedRun, StepsAfter, IdsOf, AllOk, Exhausted, WaitsFor, OpenStepsPending;
    forall i | i in Left(steps, trace)
      ensures exists j :: j in Left(steps, trace) && WaitsFor(steps, i, j)
    {
      var j := StuckNeighbour(steps, outcomes, trace, i);
      assert j in Left(steps, trace);
    }
  }

  lemma SomethingIsLeft(steps: seq<PlanStep>, outcomes: nat -> Outcome, trace: seq<nat>)
    requires OrderedRun(steps, trace) && AllOk(outcomes, |trace|) && steps != []
    requires !AllCompleted(StepsAfter(steps, trace, outcomes))
    ensures Left(steps, trace) != {}
  {
    hide OrderedRun, StepsAfter, IdsOf, AllOk;
    var i: nat :| i < |steps| && StepsAfter(steps, trace, outcomes)[i].status != Completed;
    StepAfter(steps, trace, outcomes, i);
    assert i in Left(steps, trace);
  }

  lemma DeadlockMeansNotExecutable(steps: seq<PlanStep>, outcomes: nat -> Outcome, trace: seq<nat>)
    requires OrderedRun(steps, trace) && AllOk(outcomes, |trace|) && steps != []
    requires !AllCompleted(StepsAfter(steps, trace, outcomes))
    requires Exhausted(StepsAfter(steps, trace, outcomes), IdsOf(steps, trace))
    ensures !Executable(steps)
  {
    hide OrderedRun, StepsAfter, IdsOf, AllOk, Exhausted, WaitsFor, AllCompleted, IsCycle, MutuallyStuck,
        OpenStepsPending;
    SomethingIsLeft(steps, outcomes, trace);
    if OpenStepsPending(steps) {
      LeftIsStuck(steps, outcomes, trace);
      var cycle := StuckMeansCycle(steps, Left(steps, trace));
    }
  }

  /** With an executor that never fails, an execution succeeds exactly for the executable plans
      and otherwise ends with the deadlock error. */
  lemma ExecutionVerdict(before: seq<PlanStep>, after: seq<PlanStep>, outcomes: nat -> Outcome,
      verdict: Verdict, trace: seq<nat>)
    requires Execution(before, after, outcomes, verdict, trace)
    requires DistinctIds(before) && before != [] && forall k :: outcomes(k).Ok?
    ensures verdict == (if Executable(before) then Done else Deadlock)
  {
    hide OrderedRun, DistinctIds, StepsAfter, IdsOf, Exhausted, Executable, AllCompleted;
    match verdict
    case Done => DoneMeansExecutable(before, outcomes, trace);
    case Deadlock => DeadlockMeansNotExecutable(before, outcomes, trace);
    case _ =>
  }

  /* ---- Plans that start all pending ---- */

  ghost predicate AllPending(steps: seq<PlanStep>) {
    forall i :: 0 <= i < |steps| ==> steps[i].status == Pending
  }

  ghost predicate KnownDependencies(steps: seq<PlanStep>) {
    forall i, d :: 0 <= i < |steps| && d in steps[i].dependencies ==> exists j :: 0 <= j < |steps| && steps[j].id == d
  }

  lemma PendingIsExecutable(steps: seq<PlanStep>)
    requires AllPending(steps)
    ensures Executable(steps) <==> KnownDependencies(steps) && Acyclic(steps)
  {
    hide IsCycle;
    if Executable(steps) {
      forall i, d | 0 <= i < |steps| && d in steps[i].dependencies
        ensures exists j :: 0 <= j < |steps| && steps[j].id == d
      {
        assert IsOpen(steps, i) && NamesOpenStep(steps, d);
      }
      forall walk
        ensures !IsCycle(steps, walk)
      {
        CycleInRange(steps, walk);
      }
    }
    if KnownDependencies(steps) {
      forall i, d | IsOpen(steps, i) && d in steps[i].dependencies
        ensures NamesOpenStep(steps, d)
      {
        var j :| 0 <= j < |steps| && steps[j].id == d;
        assert IsOpen(steps, j);
      }
    }
  }

  lemma CycleInRange(steps: seq<PlanStep>, walk: seq<nat>)
    ensures IsCycle(steps, walk) ==> |walk| > 0 && walk[0] < |steps|
  {
    if IsCycle(steps, walk) {
      assert WaitsFor(steps, walk[0], walk[1]);
    }
  }

  lemma RunCoversPlan(steps: seq<PlanStep>, trace: seq<nat>)
    requires OrderedRun(steps, trace) && forall i: nat :: i < |steps| ==> i in trace
    ensures |trace| == |steps|
  {
    RunFits(steps, trace);
    hide OrderedRun;
    MembersOfRun(trace);
    SubsetSize(Below(|steps|), Members(trace));
  }

  function Members(trace: seq<nat>): (s: set<nat>)
    ensures |s| <= |trace|
  {
    if trace == [] then {} else Members(trace[..|trace| - 1]) + {trace[|trace| - 1]}
  }

  lemma {:induction false} MembersOfRun(trace: seq<nat>)
    ensures forall i: nat :: i in Members(trace) <==> i in trace
  {
    if trace != [] {
      var k := |trace| - 1;
      MembersOfRun(trace[..k]);
      assert trace == trace[..k] + [trace[k]];
    }
  }

  lemma {:induction false} SubsetSize(a: set<nat>, b: set<nat>)
    requires a <= b
    ensures |a| <= |b|
  {
    if a != {} {
      var x :| x in a;
      SubsetSize(a - {x}, b - {x});
    }
  }

  /** A plan that starts all pending, with distinct ids and an executor that never fails: either
      the dependencies are known and free of cycles, and every step is executed exactly once, each
      behind its dependencies; or the execution stops with the deadlock error. */
  lemma PendingPlanVerdict(before: seq<PlanStep>, after: seq<PlanStep>, outcomes: nat -> Outcome,
      verdict: Verdict, trace: seq<nat>)
    requires Execution(before, after, outcomes, verdict, trace)
    requires DistinctIds(before) && before != [] && AllPending(before) && forall k :: outcomes(k).Ok?
    ensures verdict == Done || verdict == Deadlock
    ensures verdict == Done <==> KnownDependencies(before) && Acyclic(before)
    ensures verdict == Done ==>
      |trace| == |before| && OrderedRun(before, trace) && forall i: nat :: i < |before| ==> i in trace
  {
    hide OrderedRun, DistinctIds, StepsAfter, IdsOf, Exhausted, Executable, KnownDependencies, Acyclic;
    ExecutionVerdict(before, after, outcomes, verdict, trace);
    PendingIsExecutable(before);
    if verdict == Done {
      forall i: nat | i < |before|
        ensures i in trace
      {
        StepAfter(before, trace, outcomes, i);
      }
      RunCoversPlan(before, trace);
    }
  }

  /** Steps that are completed beforehand do not satisfy their dependents. */
  lemma EarlierCompletionDoesNotCount(steps: seq<PlanStep>, i: nat, j: nat)
    requires DistinctIds(steps) && IsOpen(steps, i) && WaitsFor(steps, i, j) && steps[j].status == Completed
    ensures !Executable(steps)
  {
    hide NoOpenCycle;
    assert steps[j].id in steps[i].dependencies;
    assert forall k :: IsOpen(steps, k) ==> steps[k].id != steps[j].id;
    assert !NamesOpenStep(steps, steps[j].id);
  }

  /* ---- Progress of the ready list ---- */

  /** A plan of pending and completed steps with known dependencies and no cycle is either fully
      completed or has a ready step. */
  lemma ReadyOrCompleted(steps: seq<PlanStep>)
    requires steps != [] && KnownDependencies(steps) && Acyclic(steps)
    requires forall i :: 0 <= i < |steps| ==> steps[i].status == Pending || steps[i].status == Completed
    ensures AllCompleted(steps) || ReadyIndices(steps) != []
  {
    hide IsCycle, WaitsFor, KnownDependencies, ReadyIndices;
    if !AllCompleted(steps) && ReadyIndices(steps) == [] {
      UnreadyIsStuck(steps);
      var i: nat :| i < |steps| && steps[i].status != Completed;
      assert i in Left(steps, []);
      var cycle := StuckMeansCycle(steps, Left(steps, []));
    }
  }

  lemma UnreadyIsStuck(steps: seq<PlanStep>)
    requires KnownDependencies(steps) && ReadyIndices(steps) == []
    requires forall i :: 0 <= i < |steps| ==> steps[i].status == Pending || steps[i].status == Completed
    ensures MutuallyStuck(steps, Left(steps, []))
  {
    hide WaitsFor, KnownDependencies, ReadyIndices;
    forall i | i in Left(steps, [])
      ensures exists j :: j in Left(steps, []) && WaitsFor(steps, i, j)
    {
      var j := UnreadyWaits(steps, i);
      assert j in Left(steps, []);
    }
  }

  lemma UnreadyWaits(steps: seq<PlanStep>, i: nat) returns (j: nat)
    requires KnownDependencies(steps) && IsOpen(steps, i) && steps[i].status == Pending
    requires ReadyIndices(steps) == []
    ensures IsOpen(steps, j) && WaitsFor(steps, i, j)
  {
    hide ReadyUpTo;
    assert !Ready(steps[i], CompletedIds(steps));
    var d :| d in steps[i].dependencies && d !in CompletedIds(steps);
    j :| 0 <= j < |steps| && steps[j].id == d;
  }
}
