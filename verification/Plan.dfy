/** The durable plan of a mission: steps with dependencies, and the operations that change them. */
module Plan {

  datatype Status = Blank | Pending | InProgress | Completed | Failed | Paused | Unknown(text: string)

  datatype PlanStep = PlanStep(id: string, dependencies: seq<string>, status: Status, result: string)

  /** Whether a recorded result says that the step waits for an approval. */
  type ApprovalTest = string -> bool

  /* ---- Specification over the list of steps ---- */

  ghost predicate DistinctIds(steps: seq<PlanStep>) {
    forall i, j :: 0 <= i < j < |steps| ==> steps[i].id != steps[j].id
  }

  function CompletedIds(steps: seq<PlanStep>): (ids: set<string>)
    ensures forall id :: id in ids <==> exists i :: 0 <= i < |steps| && steps[i].status == Completed && steps[i].id == id
  {
    set i | 0 <= i < |steps| && steps[i].status == Completed :: steps[i].id
  }

  predicate DependenciesIn(step: PlanStep, ids: set<string>) {
    forall d <- step.dependencies :: d in ids
  }

  predicate Ready(step: PlanStep, completed: set<string>) {
    (step.status == Pending || step.status == Blank) && DependenciesIn(step, completed)
  }

  /** The positions of the ready steps among the first `n`. */
  function ReadyUpTo(steps: seq<PlanStep>, n: nat, completed: set<string>): (ready: seq<nat>)
    requires n <= |steps|
    ensures forall k <- ready :: k < n && Ready(steps[k], completed)
    ensures forall i :: 0 <= i < n && Ready(steps[i], completed) ==> i in ready
    ensures forall a, b :: 0 <= a < b < |ready| ==> ready[a] < ready[b]
  {
    if n == 0 then []
    else
      var earlier := ReadyUpTo(steps, n - 1, completed);
      assert forall a :: 0 <= a < |earlier| ==> earlier[a] in earlier;
      if Ready(steps[n - 1], completed) then earlier + [n - 1] else earlier
  }

  function ReadyIndices(steps: seq<PlanStep>): seq<nat> {
    ReadyUpTo(steps, |steps|, CompletedIds(steps))
  }

  /** The first step with the given id, `|steps|` when there is none. */
  function Find(steps: seq<PlanStep>, id: string): (k: nat)
    ensures k <= |steps|
    ensures k < |steps| ==> steps[k].id == id
    ensures forall j :: 0 <= j < k ==> steps[j].id != id
  {
    if steps == [] || steps[0].id == id then 0 else 1 + Find(steps[1..], id)
  }

  function Marked(steps: seq<PlanStep>, id: string, status: Status, result: string): seq<PlanStep> {
    var k := Find(steps, id);
    if k < |steps| then steps[k := steps[k].(status := status, result := result)] else steps
  }

  function AllReopened(steps: seq<PlanStep>): seq<PlanStep> {
    seq(|steps|, i requires 0 <= i < |steps| => steps[i].(status := Pending, result := ""))
  }

  /** Failed steps become pending again, those that wait for an approval or the others. */
  function FailedReopened(steps: seq<PlanStep>, isApproval: ApprovalTest, approvals: bool): seq<PlanStep> {
    seq(|steps|, i requires 0 <= i < |steps| =>
      if steps[i].status == Failed && isApproval(steps[i].result) == approvals
      then steps[i].(status := Pending) else steps[i])
  }

  function CountCompleted(steps: seq<PlanStep>): (n: nat)
    ensures n <= |steps|
  {
    if steps == [] then 0
    else CountCompleted(steps[..|steps| - 1]) + (if steps[|steps| - 1].status == Completed then 1 else 0)
  }

  function Percent(steps: seq<PlanStep>): nat {
    if steps == [] then 0 else CountCompleted(steps) * 100 / |steps|
  }

  predicate AllCompleted(steps: seq<PlanStep>) {
    steps != [] && forall i :: 0 <= i < |steps| ==> steps[i].status == Completed
  }

  /* ---- The plan object ---- */

  class TaskPlan {
    var steps: seq<PlanStep>

    constructor (steps: seq<PlanStep>)
      ensures this.steps == steps
    {
      this.steps := steps;
    }

    method MarkStep(id: string, status: Status, result: string)
      modifies this
      ensures steps == Marked(old(steps), id, status, result)
    {
      for i := 0 to |steps|
        invariant steps == old(steps)
        invariant forall j :: 0 <= j < i ==> steps[j].id != id
      {
        if steps[i].id == id {
          steps := steps[i := steps[i].(status := status, result := result)];
          return;
        }
      }
    }

    method ReopenAllSteps()
      modifies this
      ensures steps == AllReopened(old(steps))
    {
      for i := 0 to |steps|
        invariant |steps| == |old(steps)|
        invariant forall j :: 0 <= j < |steps| ==>
          steps[j] == (if j < i then old(steps)[j].(status := Pending, result := "") else old(steps)[j])
      {
        steps := steps[i := steps[i].(status := Pending, result := "")];
      }
    }

    /** `ReopenFailedSteps` for `approvals == false`, `reopenApprovalFailedSteps` for `true`. */
    method ReopenFailed(isApproval: ApprovalTest, approvals: bool) returns (changed: bool)
      modifies this
      ensures steps == FailedReopened(old(steps), isApproval, approvals)
      ensures changed <==> steps != old(steps)
    {
      changed := false;
      for i := 0 to |steps|
        invariant |steps| == |old(steps)|
        invariant forall j :: i <= j < |steps| ==> steps[j] == old(steps)[j]
        invariant forall j :: 0 <= j < i ==> steps[j] == FailedReopened(old(steps), isApproval, approvals)[j]
        invariant changed <==> exists j :: 0 <= j < i && steps[j] != old(steps)[j]
      {
        if steps[i].status == Failed && isApproval(steps[i].result) == approvals {
          steps := steps[i := steps[i].(status := Pending)];
          changed := true;
        }
      }
    }

    method ReadySteps() returns (ready: seq<nat>)
      ensures ready == ReadyIndices(steps)
    {
      var completed := {};
      for i := 0 to |steps|
        invariant completed == set j | 0 <= j < i && steps[j].status == Completed :: steps[j].id
      {
        if steps[i].status == Completed {
          completed := completed + {steps[i].id};
        }
      }
      ready := [];
      for i := 0 to |steps|
        invariant ready == ReadyUpTo(steps, i, completed)
      {
        var step := steps[i];
        if step.status != Pending && step.status != Blank {
          continue;
        }
        var isReady := true;
        for k := 0 to |step.dependencies|
          invariant isReady
          invariant forall j :: 0 <= j < k ==> step.dependencies[j] in completed
        {
          if step.dependencies[k] !in completed {
            isReady := false;
            break;
          }
        }
        if isReady {
          ready := ready + [i];
        }
      }
    }

    method ProgressPercent() returns (percent: nat)
      ensures percent == Percent(steps)
    {
      if |steps| == 0 {
        return 0;
      }
      var done := 0;
      for i := 0 to |steps|
        invariant done == CountCompleted(steps[..i])
      {
        assert steps[..i + 1][..i] == steps[..i];
        if steps[i].status == Completed {
          done := done + 1;
        }
      }
      assert steps[..|steps|] == steps;
      percent := done * 100 / |steps|;
    }

    method AllStepsCompleted() returns (all: bool)
      ensures all <==> AllCompleted(steps)
    {
      if |steps| == 0 {
        return false;
      }
      for i := 0 to |steps|
        invariant forall j :: 0 <= j < i ==> steps[j].status == Completed
      {
        if steps[i].status != Completed {
          return false;
        }
      }
      all := true;
    }
  }

  /* ---- Progress ---- */

  lemma {:induction false} CountIsFull(steps: seq<PlanStep>)
    ensures CountCompleted(steps) == |steps| <==> forall i :: 0 <= i < |steps| ==> steps[i].status == Completed
  {
    if steps != [] {
      var n := |steps| - 1;
      CountIsFull(steps[..n]);
      assert forall i :: 0 <= i < n ==> steps[i] == steps[..n][i];
    }
  }

  lemma {:induction false} CountGrows(a: seq<PlanStep>, b: seq<PlanStep>)
    requires |a| == |b| && forall i :: 0 <= i < |a| && a[i].status == Completed ==> b[i].status == Completed
    ensures CountCompleted(a) <= CountCompleted(b)
    ensures (exists i :: 0 <= i < |a| && a[i].status != Completed && b[i].status == Completed) ==>
      CountCompleted(a) < CountCompleted(b)
  {
    if a != [] {
      var n := |a| - 1;
      CountGrows(a[..n], b[..n]);
      if i :| 0 <= i < |a| && a[i].status != Completed && b[i].status == Completed {
        assert i < n ==> a[..n][i].status != Completed && b[..n][i].status == Completed;
      }
    }
  }

  lemma Quotient(x: nat, n: nat, q: nat)
    requires n > 0
    ensures x / n <= q <==> x < n * (q + 1)
    ensures x / n >= q <==> x >= n * q
  {
    var d := x / n;
    assert n * d <= x < n * d + n;
    if d <= q {
      assert n * d <= n * q;
    } else {
      assert n * d >= n * (q + 1);
    }
    if d < q {
      assert n * (d + 1) <= n * q;
    } else {
      assert n * d >= n * q;
    }
  }

  /** The percentage lies in 0..100 and is 100 exactly for a fully completed plan. */
  lemma PercentRange(steps: seq<PlanStep>)
    ensures Percent(steps) <= 100
    ensures Percent(steps) == 100 <==> AllCompleted(steps)
  {
    CountIsFull(steps);
    hide CountCompleted;
    if steps != [] {
      Quotient(CountCompleted(steps) * 100, |steps|, 100);
    }
  }

  /** The percentage never falls while completed steps stay completed. */
  lemma PercentGrows(a: seq<PlanStep>, b: seq<PlanStep>)
    requires |a| == |b| && forall i :: 0 <= i < |a| && a[i].status == Completed ==> b[i].status == Completed
    ensures Percent(a) <= Percent(b)
  {
    CountGrows(a, b);
    hide CountCompleted;
    if a != [] {
      Quotient(CountCompleted(a) * 100, |a|, CountCompleted(a) * 100 / |a|);
      Quotient(CountCompleted(b) * 100, |b|, CountCompleted(a) * 100 / |a|);
    }
  }
}
