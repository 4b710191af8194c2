/** The plan after a burst, step by step. */
module PlanRunsExact {
  import opened Picking
  import opened Plan
  import opened PlanGraph
  import opened PlanRuns
  import opened PlanRunsLaws

  /** A pending step, or one without a status, each dependency of which is the id of a completed step. */
  ghost predicate IsReady(steps: seq<PlanStep>, step: PlanStep) {
    && (step.status == Pending || step.status == Blank)
    && forall d :: d in step.dependencies ==>
      exists j :: 0 <= j < |steps| && steps[j].status == Completed && steps[j].id == d
  }

  ghost predicate NoneReady(steps: seq<PlanStep>) {
    forall i :: 0 <= i < |steps| ==> !IsReady(steps, steps[i])
  }

  /** The step a burst works on: when no step is ready, failures that wait for an approval are pending again. */
  ghost function Base(steps: seq<PlanStep>, isApproval: ApprovalTest, step: PlanStep): PlanStep {
    if NoneReady(steps) && step.status == Failed && isApproval(step.result) then step.(status := Pending) else step
  }

  /** What becomes of a step that ran. */
  function Ended(step: PlanStep, outcome: StepOutcome): PlanStep {
    match outcome
    case NeedsApproval(error) => step.(status := Status.Paused, result := "[APPROVAL_PAUSED]" + " " + error)
    case Transient(error) => step.(status := Pending, result := "Transient error (will retry): " + error)
    case Fatal(error) => step.(status := Failed, result := error)
    case Reply(content) => if content == "" then step else step.(status := Completed, result := content)
  }

  /* ---- What is ready ---- */

  lemma ReadyIs(steps: seq<PlanStep>, step: PlanStep)
    ensures Ready(step, CompletedIds(steps)) <==> IsReady(steps, step)
  {
    var ids := CompletedIds(steps);
    assert forall d :: d in ids <==> exists j :: 0 <= j < |steps| && steps[j].status == Completed && steps[j].id == d;
    hide CompletedIds;
  }

  lemma NoneReadyIs(steps: seq<PlanStep>)
    ensures ReadyIndices(steps) == [] <==> NoneReady(steps)
  {
    var ready := ReadyIndices(steps);
    forall i | 0 <= i < |steps|
      ensures Ready(steps[i], CompletedIds(steps)) <==> IsReady(steps, steps[i])
    {
      ReadyIs(steps, steps[i]);
    }
    hide IsReady, Ready, CompletedIds, ReadyUpTo;
    if ready != [] {
      assert ready[0] in ready;
    }
  }

  lemma RefreshedAt(steps: seq<PlanStep>, isApproval: ApprovalTest)
    ensures var base := Refreshed(steps, isApproval);
      && |base| == |steps| && CompletedIds(base) == CompletedIds(steps)
      && forall i :: 0 <= i < |steps| ==> base[i] == Base(steps, isApproval, steps[i])
  {
    NoneReadyIs(steps);
    hide ReadyIndices, NoneReady;
    var base := Refreshed(steps, isApproval);
    assert forall i :: 0 <= i < |steps| ==> (base[i].status == Completed <==> steps[i].status == Completed);
    assert forall i :: 0 <= i < |steps| ==> base[i].id == steps[i].id;
  }

  /* ---- What is marked ---- */

  /** The marks that name a step are those of its own outcome. */
  lemma MarksNaming(base: seq<PlanStep>, batch: seq<nat>, outcomes: nat -> StepOutcome, i: nat, m: Mark)
    requires DistinctIds(base) && InRange(batch, |base|) && i < |base| && m.id == base[i].id
    ensures m in BatchMarks(base, batch, outcomes) <==> i in batch && m in MarksOf(base[i].id, outcomes(i))
  {
    hide BatchMarks, MarksOf;
    MarkComesFrom(base, batch, outcomes, m);
    if m in BatchMarks(base, batch, outcomes) {
      var j :| j in batch && m in MarksOf(base[j].id, outcomes(j));
      MarksOfStep(base[j].id, outcomes(j));
      var k :| 0 <= k < |batch| && batch[k] == j;
      assert j < |base| && base[j].id == base[i].id;
    }
  }

  lemma EndedByMarks(before: PlanStep, after: PlanStep, marks: seq<Mark>, outcome: StepOutcome, ran: bool)
    requires FollowsMarks(before, after, marks)
    requires forall m :: m in marks && m.id == before.id <==> ran && m in MarksOf(before.id, outcome)
    ensures after == if ran then Ended(before, outcome) else before
  {
    if ran && MarksOf(before.id, outcome) != [] {
      var m := MarksOf(before.id, outcome)[0];
      assert m in MarksOf(before.id, outcome);
    }
  }

  lemma EndedAt(base: seq<PlanStep>, batch: seq<nat>, outcomes: nat -> StepOutcome, i: nat)
    requires DistinctIds(base) && InRange(batch, |base|) && PlanRunsLaws.NoRepeats(batch) && i < |base|
    ensures var after := MarkAll(base, BatchMarks(base, batch, outcomes));
      |after| == |base| && after[i] == if i in batch then Ended(base[i], outcomes(i)) else base[i]
  {
    var marks := BatchMarks(base, batch, outcomes);
    BatchMarksDistinct(base, batch, outcomes);
    MarkAllAt(base, marks, i);
    hide MarkAll, BatchMarks, DistinctMarks, PlanRunsLaws.NoRepeats, DistinctIds, MarksOf, FollowsMarks, Ended;
    forall m
      ensures m in marks && m.id == base[i].id <==> i in batch && m in MarksOf(base[i].id, outcomes(i))
    {
      MarksOfStep(base[i].id, outcomes(i));
      if m.id == base[i].id {
        MarksNaming(base, batch, outcomes, i, m);
      }
    }
    EndedByMarks(base[i], MarkAll(base, marks)[i], marks, outcomes(i), i in batch);
  }

  /* ---- The batch ---- */

  lemma BatchIsFirst(base: seq<PlanStep>, maxRuns: int, i: nat)
    requires i < |base| && Ready(base[i], CompletedIds(base))
    ensures var batch, cap := Batch(base, maxRuns), if maxRuns > 0 then maxRuns else 3;
      && |batch| <= cap
      && (i !in batch ==> |batch| == cap && forall k :: 0 <= k < |batch| ==> batch[k] < i)
  {
    var ready := ReadyIndices(base);
    assert i in ready;
    hide ReadyUpTo, Ready, CompletedIds;
    var p :| 0 <= p < |ready| && ready[p] == i;
    var cap := if maxRuns > 0 then maxRuns else 3;
    if |ready| > cap && p < cap {
      assert ready[..cap][p] == i;
    }
  }

  /** The step is ready in the plan the burst works on. */
  ghost predicate CanRun(steps: seq<PlanStep>, isApproval: ApprovalTest, i: nat)
    requires i < |steps|
  {
    IsReady(steps, Base(steps, isApproval, steps[i]))
  }

  /** `batch` are the first steps that can run, in plan order, at most `cap`. */
  ghost predicate FirstToRun(steps: seq<PlanStep>, isApproval: ApprovalTest, batch: seq<nat>, cap: int) {
    && Places(batch, |steps|) && |batch| <= cap
    && (forall i: nat :: i < |steps| && i in batch ==> CanRun(steps, isApproval, i))
    && (forall i: nat :: i < |steps| && CanRun(steps, isApproval, i) && i !in batch ==>
      |batch| == cap && forall k :: 0 <= k < |batch| ==> batch[k] < i)
  }

  lemma CanRunIs(steps: seq<PlanStep>, isApproval: ApprovalTest, i: nat)
    requires i < |steps|
    ensures var base := Refreshed(steps, isApproval);
      |base| == |steps| && (Ready(base[i], CompletedIds(base)) <==> CanRun(steps, isApproval, i))
  {
    RefreshedAt(steps, isApproval);
    hide Refreshed, IsReady, Ready, CompletedIds, Base;
    ReadyIs(steps, Refreshed(steps, isApproval)[i]);
  }

  lemma BatchIsFirstToRun(steps: seq<PlanStep>, isApproval: ApprovalTest, maxRuns: int)
    ensures FirstToRun(steps, isApproval, Batch(Refreshed(steps, isApproval), maxRuns), if maxRuns > 0 then maxRuns else 3)
  {
    var base := Refreshed(steps, isApproval);
    var batch, cap := Batch(base, maxRuns), if maxRuns > 0 then maxRuns else 3;
    RefreshedAt(steps, isApproval);
    hide Refreshed, CanRun, Ready, CompletedIds, Batch, Base;
    forall i: nat | i < |steps|
      ensures Ready(base[i], CompletedIds(base)) <==> CanRun(steps, isApproval, i)
      ensures Ready(base[i], CompletedIds(base)) ==>
        |batch| <= cap && (i !in batch ==> |batch| == cap && forall k :: 0 <= k < |batch| ==> batch[k] < i)
    {
      CanRunIs(steps, isApproval, i);
      if Ready(base[i], CompletedIds(base)) {
        BatchIsFirst(base, maxRuns, i);
      }
    }
    forall i: nat | i < |steps| && i in batch
      ensures Ready(base[i], CompletedIds(base))
    {
      var k :| 0 <= k < |batch| && batch[k] == i;
    }
    if |batch| > 0 {
      assert batch[0] in batch && batch[0] < |steps|;
    }
  }

  lemma BurstAt(steps: seq<PlanStep>, isApproval: ApprovalTest, maxRuns: int, outcomes: nat -> StepOutcome, i: nat)
    requires DistinctIds(steps) && i < |steps|
    ensures var after := Burst(steps, isApproval, maxRuns, outcomes); var base := Base(steps, isApproval, steps[i]);
      && |after| == |steps|
      && after[i] == if i in Batch(Refreshed(steps, isApproval), maxRuns) then Ended(base, outcomes(i)) else base
  {
    RefreshedAt(steps, isApproval);
    var base := Refreshed(steps, isApproval);
    assert DistinctIds(base);
    hide Refreshed, Ended, Base, CompletedIds, DistinctIds, MarkAll, BatchMarks, Ready;
    EndedAt(base, Batch(base, maxRuns), outcomes, i);
  }

  /** The plan after a burst, for distinct ids.  The steps that run are the first ones that can, at most the
      configured number or three; each ends as its outcome says, and every other step is as before, except that
      failures that wait for an approval are pending again when no step was ready. */
  lemma BurstExactly(steps: seq<PlanStep>, isApproval: ApprovalTest, maxRuns: int, outcomes: nat -> StepOutcome)
      returns (batch: seq<nat>)
    requires DistinctIds(steps)
    ensures FirstToRun(steps, isApproval, batch, if maxRuns > 0 then maxRuns else 3)
    ensures BurstFails(steps, isApproval, maxRuns, outcomes) <==> exists i :: i in batch && !outcomes(i).Reply?
    ensures |Burst(steps, isApproval, maxRuns, outcomes)| == |steps|
    ensures forall i: nat :: i < |steps| ==>
      var base := Base(steps, isApproval, steps[i]);
      Burst(steps, isApproval, maxRuns, outcomes)[i] == if i in batch then Ended(base, outcomes(i)) else base
  {
    hide Refreshed, Ended, Base, DistinctIds, Batch, Burst, FirstToRun;
    batch := Batch(Refreshed(steps, isApproval), maxRuns);
    BatchIsFirstToRun(steps, isApproval, maxRuns);
    BurstKeepsLength(steps, isApproval, maxRuns, outcomes);
    SomeFailIs(batch, outcomes);
    forall i: nat | i < |steps|
      ensures var base := Base(steps, isApproval, steps[i]);
        Burst(steps, isApproval, maxRuns, outcomes)[i] == if i in batch then Ended(base, outcomes(i)) else base
    {
      BurstAt(steps, isApproval, maxRuns, outcomes, i);
    }
  }

  lemma SomeFailIs(batch: seq<nat>, outcomes: nat -> StepOutcome)
    ensures SomeFail(batch, outcomes) <==> exists i :: i in batch && !outcomes(i).Reply?
  {
    if i :| i in batch && !outcomes(i).Reply? {
      var k :| 0 <= k < |batch| && batch[k] == i;
      assert !outcomes(batch[k]).Reply?;
    }
  }

  lemma BurstKeepsLength(steps: seq<PlanStep>, isApproval: ApprovalTest, maxRuns: int, outcomes: nat -> StepOutcome)
    ensures |Burst(steps, isApproval, maxRuns, outcomes)| == |steps|
  {
    RefreshedAt(steps, isApproval);
    hide Refreshed;
    var base := Refreshed(steps, isApproval);
    MarkAllKeepsGraph(base, BatchMarks(base, Batch(base, maxRuns), outcomes));
  }

  /** When no step is ready, what can run are failures that wait for an approval, and nothing else. */
  lemma OnlyApprovalsReopened(steps: seq<PlanStep>, isApproval: ApprovalTest, i: nat)
    requires NoneReady(steps) && i < |steps| && CanRun(steps, isApproval, i)
    ensures steps[i].status == Failed && isApproval(steps[i].result)
  {
    hide IsReady;
  }

  /** A burst leaves a failed step as it is, unless no step is ready and the failure waits for an approval. */
  lemma BurstLeavesFailures(steps: seq<PlanStep>, isApproval: ApprovalTest, maxRuns: int,
      outcomes: nat -> StepOutcome, i: nat)
    requires DistinctIds(steps) && i < |steps| && steps[i].status == Failed
    requires NoneReady(steps) ==> !isApproval(steps[i].result)
    ensures |Burst(steps, isApproval, maxRuns, outcomes)| == |steps|
    ensures Burst(steps, isApproval, maxRuns, outcomes)[i] == steps[i]
  {
    var batch := BurstExactly(steps, isApproval, maxRuns, outcomes);
    hide Burst, DistinctIds, Ended;
  }
}
