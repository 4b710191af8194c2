/** What every run of bursts, resumes and reopen operations keeps. */
module PlanRunsLaws {
  import opened Plan
  import opened PlanGraph
  import opened PlanRuns

  /** Completed, paused and failed steps have all their dependencies completed. */
  ghost predicate Settled(status: Status) {
    status == Completed || status == Status.Paused || status == Failed
  }

  ghost predicate Grounded(steps: seq<PlanStep>) {
    forall k :: 0 <= k < |steps| && Settled(steps[k].status) ==> DependenciesIn(steps[k], CompletedIds(steps))
  }

  ghost predicate Sound(steps: seq<PlanStep>) {
    DistinctIds(steps) && Grounded(steps)
  }

  /* ---- Marks ---- */

  /** Marking goes to the step with the id, when the ids are distinct. */
  lemma MarkedAt(steps: seq<PlanStep>, k: nat, status: Status, result: string)
    requires DistinctIds(steps) && k < |steps|
    ensures Marked(steps, steps[k].id, status, result) == steps[k := steps[k].(status := status, result := result)]
    ensures Find(steps, steps[k].id) == k
  {
    var f := Find(steps, steps[k].id);
    assert f <= k;
  }

  ghost predicate DistinctMarks(marks: seq<Mark>) {
    forall a, b :: 0 <= a < b < |marks| ==> marks[a].id != marks[b].id
  }

  /** The step after the marks: as its mark says, or unchanged when no mark names it. */
  ghost predicate FollowsMarks(before: PlanStep, after: PlanStep, marks: seq<Mark>) {
    && (forall m :: m in marks && m.id == before.id ==> after == before.(status := m.status, result := m.result))
    && ((forall m :: m in marks ==> m.id != before.id) ==> after == before)
  }

  lemma {:induction false} MarkAllAt(steps: seq<PlanStep>, marks: seq<Mark>, i: nat)
    requires DistinctIds(steps) && DistinctMarks(marks) && i < |steps|
    ensures SameGraph(steps, MarkAll(steps, marks)) && FollowsMarks(steps[i], MarkAll(steps, marks)[i], marks)
  {
    MarkAllKeepsGraph(steps, marks);
    if marks != [] {
      var n := |marks| - 1;
      var m, rest := marks[n], marks[..n];
      MarkAllAt(steps, rest, i);
      MarkAllKeepsGraph(steps, rest);
      var mid := MarkAll(steps, rest);
      assert marks == rest + [m];
      assert forall x :: x in rest ==> x.id != m.id;
      assert DistinctIds(mid);
      MarkedPoint(mid, m, i);
    }
  }

  lemma MarkedPoint(steps: seq<PlanStep>, m: Mark, i: nat)
    requires DistinctIds(steps) && i < |steps|
    ensures |Marked(steps, m.id, m.status, m.result)| == |steps|
    ensures Marked(steps, m.id, m.status, m.result)[i] ==
      if m.id == steps[i].id then steps[i].(status := m.status, result := m.result) else steps[i]
  {
    if m.id == steps[i].id {
      MarkedAt(steps, i, m.status, m.result);
    }
  }


  /** Marks of different steps commute: only which marks there are matters, not their order. */
  lemma MarksCommute(steps: seq<PlanStep>, a: seq<Mark>, b: seq<Mark>)
    requires DistinctIds(steps) && DistinctMarks(a) && DistinctMarks(b) && forall m :: m in a <==> m in b
    ensures MarkAll(steps, a) == MarkAll(steps, b)
  {
    hide MarkAll, DistinctIds, DistinctMarks;
    var x, y := MarkAll(steps, a), MarkAll(steps, b);
    MarkAllKeepsGraph(steps, a);
    MarkAllKeepsGraph(steps, b);
    forall i | 0 <= i < |steps|
      ensures x[i] == y[i]
    {
      hide SameGraph;
      MarkAllAt(steps, a, i);
      MarkAllAt(steps, b, i);
      if m :| m in a && m.id == steps[i].id {
        assert m in b;
      }
    }
  }

  /* ---- Bursts ---- */

  /** Each step at most once. */
  ghost predicate NoRepeats(batch: seq<nat>) {
    forall a, b :: 0 <= a < b < |batch| ==> batch[a] != batch[b]
  }

  lemma {:induction false} MarkComesFrom(steps: seq<PlanStep>, batch: seq<nat>, outcomes: nat -> StepOutcome, m: Mark)
    requires InRange(batch, |steps|)
    ensures m in BatchMarks(steps, batch, outcomes) <==>
      exists i :: i in batch && m in MarksOf(steps[i].id, outcomes(i))
  {
    hide MarksOf;
    if batch != [] {
      var k := |batch| - 1;
      MarkComesFrom(steps, batch[..k], outcomes, m);
      assert batch == batch[..k] + [batch[k]];
    }
  }

  lemma MarksOfStep(id: string, outcome: StepOutcome)
    ensures |MarksOf(id, outcome)| <= 1 && forall m :: m in MarksOf(id, outcome) ==> m.id == id
  {
  }

  lemma {:induction false} BatchMarksDistinct(steps: seq<PlanStep>, batch: seq<nat>, outcomes: nat -> StepOutcome)
    requires DistinctIds(steps) && InRange(batch, |steps|) && NoRepeats(batch)
    ensures DistinctMarks(BatchMarks(steps, batch, outcomes))
  {
    hide MarksOf, DistinctIds;
    if batch != [] {
      var k := |batch| - 1;
      MarksOfStep(steps[batch[k]].id, outcomes(batch[k]));
      var rest, last := BatchMarks(steps, batch[..k], outcomes), MarksOf(steps[batch[k]].id, outcomes(batch[k]));
      BatchMarksDistinct(steps, batch[..k], outcomes);
      forall m | m in rest
        ensures m.id != steps[batch[k]].id
      {
        EarlierMark(steps, batch, outcomes, m);
      }
      hide BatchMarks;
      assert forall a :: 0 <= a < |rest| ==> rest[a] in rest;
    }
  }

  lemma EarlierMark(steps: seq<PlanStep>, batch: seq<nat>, outcomes: nat -> StepOutcome, m: Mark)
    requires DistinctIds(steps) && InRange(batch, |steps|) && NoRepeats(batch) && batch != []
    requires m in BatchMarks(steps, batch[..|batch| - 1], outcomes)
    ensures m.id != steps[batch[|batch| - 1]].id
  {
    hide BatchMarks, MarksOf;
    var rest, last := batch[..|batch| - 1], batch[|batch| - 1];
    MarkComesFrom(steps, rest, outcomes, m);
    hide InRange;
    var i :| i in rest && m in MarksOf(steps[i].id, outcomes(i));
    MarksOfStep(steps[i].id, outcomes(i));
    var p :| 0 <= p < |rest| && rest[p] == i;
    assert batch[p] != last;
  }

  /** The steps of one burst can be recorded in any order: the plan after it is the same. */
  lemma BurstOrderIrrelevant(steps: seq<PlanStep>, batch: seq<nat>, order: seq<nat>, outcomes: nat -> StepOutcome)
    requires DistinctIds(steps) && InRange(batch, |steps|) && InRange(order, |steps|)
    requires NoRepeats(batch) && NoRepeats(order) && forall i :: i in batch <==> i in order
    ensures MarkAll(steps, BatchMarks(steps, batch, outcomes)) == MarkAll(steps, BatchMarks(steps, order, outcomes))
  {
    hide MarksOf, MarkAll, DistinctIds, NoRepeats, DistinctMarks, BatchMarks;
    BatchMarksDistinct(steps, batch, outcomes);
    BatchMarksDistinct(steps, order, outcomes);
    forall m
      ensures m in BatchMarks(steps, batch, outcomes) <==> m in BatchMarks(steps, order, outcomes)
    {
      MarkComesFrom(steps, batch, outcomes, m);
      MarkComesFrom(steps, order, outcomes, m);
    }
    MarksCommute(steps, BatchMarks(steps, batch, outcomes), BatchMarks(steps, order, outcomes));
  }

  lemma NotAmongCompleted(steps: seq<PlanStep>, j: nat)
    requires DistinctIds(steps) && j < |steps| && steps[j].status != Completed
    ensures steps[j].id !in CompletedIds(steps)
  {
    forall k | 0 <= k < |steps| && steps[k].status == Completed
      ensures steps[k].id != steps[j].id
    {
      assert k < j || j < k;
    }
  }

  /** Steps that are ready at the same time do not depend on each other. */
  lemma ReadyIndependent(steps: seq<PlanStep>, i: nat, j: nat)
    requires DistinctIds(steps) && i < |steps| && j < |steps|
    requires Ready(steps[i], CompletedIds(steps)) && Ready(steps[j], CompletedIds(steps))
    ensures !WaitsFor(steps, i, j)
  {
    NotAmongCompleted(steps, j);
    hide CompletedIds, DistinctIds;
  }

  /* ---- Soundness of single marks ---- */

  /** A new status for one step, the rest of the plan as before. */
  function Put(steps: seq<PlanStep>, k: nat, status: Status, result: string): seq<PlanStep>
    requires k < |steps|
  {
    steps[k := steps[k].(status := status, result := result)]
  }

  lemma CompletedAfter(steps: seq<PlanStep>, k: nat, status: Status, result: string)
    requires DistinctIds(steps) && k < |steps|
    ensures CompletedIds(Put(steps, k, status, result)) ==
      if status == Completed then CompletedIds(steps) + {steps[k].id} else CompletedIds(steps) - {steps[k].id}
  {
    var after := Put(steps, k, status, result);
    forall id
      ensures id in CompletedIds(after) <==>
        if id == steps[k].id then status == Completed else id in CompletedIds(steps)
    {
      if id == steps[k].id {
        assert forall i :: 0 <= i < |after| && after[i].id == id ==> i == k;
        if status == Completed {
          assert after[k].status == Completed && after[k].id == id;
        }
      } else {
        if i :| 0 <= i < |steps| && steps[i].status == Completed && steps[i].id == id {
          assert after[i].status == Completed && after[i].id == id;
        }
        if i :| 0 <= i < |after| && after[i].status == Completed && after[i].id == id {
          assert steps[i].status == Completed && steps[i].id == id;
        }
      }
    }
  }

  lemma PutKeepsIds(steps: seq<PlanStep>, k: nat, status: Status, result: string)
    requires k < |steps| && DistinctIds(steps)
    ensures DistinctIds(Put(steps, k, status, result)) && SameGraph(steps, Put(steps, k, status, result))
  {
  }

  /** A step whose dependencies are completed may take any status, unless it was completed before. */
  lemma PutSound(steps: seq<PlanStep>, k: nat, status: Status, result: string)
    requires Sound(steps) && k < |steps| && steps[k].status != Completed
    requires DependenciesIn(steps[k], CompletedIds(steps))
    ensures Sound(Put(steps, k, status, result))
    ensures CompletedIds(steps) <= CompletedIds(Put(steps, k, status, result))
  {
    var after := Put(steps, k, status, result);
    NotAmongCompleted(steps, k);
    CompletedAfter(steps, k, status, result);
    PutKeepsIds(steps, k, status, result);
    hide DistinctIds, CompletedIds;
    forall i | 0 <= i < |after| && Settled(after[i].status)
      ensures DependenciesIn(after[i], CompletedIds(after))
    {
      assert DependenciesIn(steps[i], CompletedIds(steps));
    }
  }

  lemma AppliedSound(steps: seq<PlanStep>, k: nat, outcome: StepOutcome)
    requires Sound(steps) && k < |steps| && steps[k].status != Completed
    requires DependenciesIn(steps[k], CompletedIds(steps))
    ensures var after := Applied(steps, steps[k].id, outcome);
      && Sound(after) && CompletedIds(steps) <= CompletedIds(after) && |after| == |steps|
      && forall i :: 0 <= i < |steps| && i != k ==> after[i] == steps[i]
  {
    hide CompletedIds, Grounded, Marked;
    match outcome
    case Reply(content) =>
      if content != "" {
        MarkedAt(steps, k, Completed, content);
        PutSound(steps, k, Completed, content);
      }
    case NeedsApproval(e) =>
      MarkedAt(steps, k, Status.Paused, PAUSED_MARKER + " " + e);
      PutSound(steps, k, Status.Paused, PAUSED_MARKER + " " + e);
    case Transient(e) =>
      MarkedAt(steps, k, Pending, RETRY_PREFIX + e);
      PutSound(steps, k, Pending, RETRY_PREFIX + e);
    case Fatal(e) =>
      MarkedAt(steps, k, Failed, e);
      PutSound(steps, k, Failed, e);
  }

  ghost predicate AllReady(steps: seq<PlanStep>, batch: seq<nat>) {
    && InRange(batch, |steps|)
    && forall k :: 0 <= k < |batch| ==> Ready(steps[batch[k]], CompletedIds(steps))
  }

  ghost predicate Untouched(base: seq<PlanStep>, after: seq<PlanStep>, batch: seq<nat>) {
    |after| == |base| && forall i :: 0 <= i < |base| && i !in batch ==> after[i] == base[i]
  }

  lemma {:induction false} BatchSound(base: seq<PlanStep>, batch: seq<nat>, outcomes: nat -> StepOutcome, n: nat)
    requires Sound(base) && AllReady(base, batch) && NoRepeats(batch) && n <= |batch|
    ensures var after := After(base, batch, outcomes, n);
      Sound(after) && CompletedIds(base) <= CompletedIds(after) && Untouched(base, after, batch[..n])
  {
    hide Sound, Applied, CompletedIds, SomeFail, Ready;
    if n == 0 {
      assert batch[..0] == [];
      NothingRun(base, outcomes);
    } else {
      hide After;
      var k := n - 1;
      BatchSound(base, batch, outcomes, k);
      AfterNext(base, batch, outcomes, k);
      assert batch[k] !in batch[..k];
      assert batch[..n] == batch[..k] + [batch[k]];
      ReadyStep(base, After(base, batch, outcomes, k), batch[k]);
      AppliedSound(After(base, batch, outcomes, k), batch[k], outcomes(batch[k]));
    }
  }

  lemma ReadyStep(base: seq<PlanStep>, mid: seq<PlanStep>, k: nat)
    requires k < |base| && Ready(base[k], CompletedIds(base))
    requires |mid| == |base| && mid[k] == base[k] && CompletedIds(base) <= CompletedIds(mid)
    ensures mid[k].status != Completed && DependenciesIn(mid[k], CompletedIds(mid))
  {
    hide CompletedIds;
  }

  lemma ReopenedSound(steps: seq<PlanStep>, isApproval: ApprovalTest, approvals: bool)
    requires Sound(steps)
    ensures Sound(FailedReopened(steps, isApproval, approvals))
    ensures SameGraph(steps, FailedReopened(steps, isApproval, approvals))
  {
    var after := FailedReopened(steps, isApproval, approvals);
    assert CompletedIds(after) == CompletedIds(steps) by {
      assert forall i :: 0 <= i < |steps| ==> (after[i].status == Completed <==> steps[i].status == Completed);
      assert forall i :: 0 <= i < |steps| ==> after[i].id == steps[i].id;
    }
    hide CompletedIds;
  }

  lemma BurstSound(steps: seq<PlanStep>, isApproval: ApprovalTest, maxRuns: int, outcomes: nat -> StepOutcome)
    requires Sound(steps)
    ensures Sound(Burst(steps, isApproval, maxRuns, outcomes))
    ensures SameGraph(steps, Burst(steps, isApproval, maxRuns, outcomes))
  {
    hide Sound, FailedReopened, MarkAll, BatchMarks, CompletedIds, Ready, ReadyIndices;
    var base := Refreshed(steps, isApproval);
    ReopenedSound(steps, isApproval, true);
    var batch := Batch(base, maxRuns);
    BatchSound(base, batch, outcomes, |batch|);
    assert batch[..|batch|] == batch;
    MarkAllKeepsGraph(base, BatchMarks(base, batch, outcomes));
  }

  /* ---- Resumes ---- */

  /** Some other settled step depends on the id. */
  ghost predicate HasSettledDependent(steps: seq<PlanStep>, k: nat) {
    exists i :: 0 <= i < |steps| && i != k && Settled(steps[i].status) && k < |steps| && steps[k].id in steps[i].dependencies
  }

  /** Exactly when a resume keeps the plan sound, whatever happened to the step meanwhile. */
  lemma ResumeSoundExactly(steps: seq<PlanStep>, k: nat, content: string, canned: bool)
    requires Sound(steps) && k < |steps|
    ensures Sound(ResumedPlan(steps, steps[k].id, content, canned)) <==>
      if canned then steps[k].status != Completed || !HasSettledDependent(steps, k)
      else DependenciesIn(steps[k], CompletedIds(steps) + {steps[k].id})
  {
    var status := if canned then Pending else Completed;
    MarkedAt(steps, k, status, content);
    CompletedAfter(steps, k, status, content);
    PutKeepsIds(steps, k, status, content);
    if steps[k].status != Completed {
      NotAmongCompleted(steps, k);
    } else {
      assert steps[k].id in CompletedIds(steps);
    }
    hide DistinctIds, CompletedIds, Marked;
    var after := Put(steps, k, status, content);
    if canned {
      if steps[k].status == Completed && HasSettledDependent(steps, k) {
        var i :| 0 <= i < |steps| && i != k && Settled(steps[i].status) && steps[k].id in steps[i].dependencies;
        assert after[i] == steps[i] && !DependenciesIn(after[i], CompletedIds(after));
      }
    } else {
      assert after[k].dependencies == steps[k].dependencies && Settled(after[k].status);
    }
    assert forall i :: 0 <= i < |steps| && i != k ==> after[i] == steps[i];
  }

  /* ---- Whole runs ---- */

  datatype Event =
    | BurstEvent(maxRuns: int, outcomes: nat -> StepOutcome)
    | ResumeEvent(id: string, content: string, canned: bool)
    | ReopenAllEvent
    | ReopenFailedEvent
    | ReopenApprovalEvent

  ghost function Next(steps: seq<PlanStep>, event: Event, isApproval: ApprovalTest): seq<PlanStep> {
    match event
    case BurstEvent(maxRuns, outcomes) => Burst(steps, isApproval, maxRuns, outcomes)
    case ResumeEvent(id, content, canned) => ResumedPlan(steps, id, content, canned)
    case ReopenAllEvent => AllReopened(steps)
    case ReopenFailedEvent => FailedReopened(steps, isApproval, false)
    case ReopenApprovalEvent => FailedReopened(steps, isApproval, true)
  }

  /** A resume comes for a step that still waits; every other event may come at any time. */
  ghost predicate InTime(steps: seq<PlanStep>, event: Event, isApproval: ApprovalTest) {
    event.ResumeEvent? ==>
      var k := Find(steps, event.id); k < |steps| && Waiting(steps[k], isApproval)
  }

  ghost predicate AllInTime(steps: seq<PlanStep>, events: seq<Event>, isApproval: ApprovalTest)
    decreases |events|
  {
    events == [] ||
    (InTime(steps, events[0], isApproval) && AllInTime(Next(steps, events[0], isApproval), events[1..], isApproval))
  }

  ghost function Run(steps: seq<PlanStep>, events: seq<Event>, isApproval: ApprovalTest): seq<PlanStep>
    decreases |events|
  {
    if events == [] then steps else Run(Next(steps, events[0], isApproval), events[1..], isApproval)
  }

  lemma AllReopenedSound(steps: seq<PlanStep>)
    requires DistinctIds(steps)
    ensures Sound(AllReopened(steps)) && SameGraph(steps, AllReopened(steps))
  {
    hide CompletedIds;
  }

  lemma ResumeSound(steps: seq<PlanStep>, id: string, content: string, canned: bool, isApproval: ApprovalTest)
    requires Sound(steps)
    requires var k := Find(steps, id); k < |steps| && Waiting(steps[k], isApproval)
    ensures Sound(ResumedPlan(steps, id, content, canned)) && SameGraph(steps, ResumedPlan(steps, id, content, canned))
  {
    hide CompletedIds, DistinctIds;
    var k := Find(steps, id);
    assert DependenciesIn(steps[k], CompletedIds(steps));
    ResumeSoundExactly(steps, k, content, canned);
    hide Sound, HasSettledDependent;
  }

  lemma EventSound(steps: seq<PlanStep>, event: Event, isApproval: ApprovalTest)
    requires Sound(steps) && InTime(steps, event, isApproval)
    ensures Sound(Next(steps, event, isApproval)) && SameGraph(steps, Next(steps, event, isApproval))
  {
    match event
    case BurstEvent(maxRuns, outcomes) => BurstSound(steps, isApproval, maxRuns, outcomes);
    case ResumeEvent(id, content, canned) => ResumeSound(steps, id, content, canned, isApproval);
    case ReopenAllEvent => AllReopenedSound(steps);
    case ReopenFailedEvent => ReopenedSound(steps, isApproval, false);
    case ReopenApprovalEvent => ReopenedSound(steps, isApproval, true);
  }

  /** Over every run from a sound plan: the graph never changes, and every completed, paused or failed
      step has all its dependencies completed. */
  lemma {:induction false} RunSound(steps: seq<PlanStep>, events: seq<Event>, isApproval: ApprovalTest)
    requires Sound(steps) && AllInTime(steps, events, isApproval)
    ensures Sound(Run(steps, events, isApproval)) && SameGraph(steps, Run(steps, events, isApproval))
    decreases |events|
  {
    hide Sound, Next, InTime;
    if events == [] {
      assert SameGraph(steps, steps);
    } else {
      var next := Next(steps, events[0], isApproval);
      EventSound(steps, events[0], isApproval);
      RunSound(next, events[1..], isApproval);
      SameGraphTransitive(steps, next, Run(next, events[1..], isApproval));
    }
  }

  lemma SameGraphTransitive(a: seq<PlanStep>, b: seq<PlanStep>, c: seq<PlanStep>)
    requires SameGraph(a, b) && SameGraph(b, c)
    ensures SameGraph(a, c)
  {
  }

  /** A plan with a repeated id: the first step waits for the last one, the others are ready. */
  function RepeatedPlan(): seq<PlanStep> {
    [PlanStep("task_2", ["y"], Pending, ""), PlanStep("task_2", [], Pending, ""), PlanStep("y", [], Pending, "")]
  }

  /** Repeated ids break the invariant in one burst: it runs the second step, the result is marked on the
      first, and that one waits for a step that is not completed. */
  lemma RepeatedIdBreaksBurst(isApproval: ApprovalTest, outcomes: nat -> StepOutcome)
    requires outcomes(1) == Reply("done")
    ensures !DistinctIds(RepeatedPlan()) && Grounded(RepeatedPlan())
    ensures !Grounded(Burst(RepeatedPlan(), isApproval, 1, outcomes))
  {
    var steps := RepeatedPlan();
    assert steps[0].id == steps[1].id;
    RepeatedPlanReady();
    assert Refreshed(steps, isApproval) == steps;
    MarkedAlone(steps, outcomes);
    hide MarkAll, BatchMarks, Batch, Refreshed;
    var after := Burst(steps, isApproval, 1, outcomes);
    assert after[0].status == Completed && "y" in after[0].dependencies;
    assert forall i :: 0 <= i < 3 && after[i].status == Completed ==> after[i].id != "y";
    assert !DependenciesIn(after[0], CompletedIds(after));
  }

  lemma RepeatedPlanReady()
    ensures ReadyIndices(RepeatedPlan()) != [] && Batch(RepeatedPlan(), 1) == [1]
  {
    var steps := RepeatedPlan();
    assert CompletedIds(steps) == {};
    assert "y" in steps[0].dependencies;
    assert !Ready(steps[0], {}) && Ready(steps[1], {});
    var ready := ReadyIndices(steps);
    hide ReadyUpTo, Ready;
    assert 1 in ready && 0 !in ready;
    var p :| 0 <= p < |ready| && ready[p] == 1;
    assert ready[0] in ready;
    assert forall a :: 0 < a < |ready| ==> ready[0] < ready[a];
  }

  lemma MarkedAlone(steps: seq<PlanStep>, outcomes: nat -> StepOutcome)
    requires |steps| > 1 && steps[0].id == steps[1].id && outcomes(1) == Reply("done")
    ensures MarkAll(steps, BatchMarks(steps, [1], outcomes)) == Put(steps, 0, Completed, "done")
  {
    var mark := Mark(steps[1].id, Completed, "done");
    assert [1][..0] == [] && [mark][..0] == [];
    assert MarksOf(steps[1].id, outcomes(1)) == [mark];
    assert BatchMarks(steps, [1], outcomes) == [] + [mark];
    assert Find(steps, steps[1].id) == 0;
  }

  /** A resume that comes after all steps were reopened breaks the invariant. */
  lemma LateResume() returns (steps: seq<PlanStep>)
    ensures |steps| == 2 && Sound(steps) && steps[1].status == Status.Paused
    ensures !Sound(Run(steps, [ReopenAllEvent, ResumeEvent(steps[1].id, "done", false)], _ => false))
  {
    steps := [PlanStep("a", [], Completed, "x"), PlanStep("b", ["a"], Status.Paused, "y")];
    assert steps[0].id in CompletedIds(steps);
    var open := AllReopened(steps);
    assert "a" !in CompletedIds(open) + {"b"};
    assert "a" in open[1].dependencies;
    AllReopenedSound(steps);
    ResumeSoundExactly(open, 1, "done", false);
    var events := [ReopenAllEvent, ResumeEvent("b", "done", false)];
    assert events[1..] == [events[1]] && events[1..][1..] == [];
    calc {
      Run(steps, events, _ => false);
      Run(open, [events[1]], _ => false);
      { assert [events[1]][1..] == []; }
      ResumedPlan(open, "b", "done", false);
    }
  }

  /* ---- Progress over runs ---- */

  ghost predicate KeepsCompleted(a: seq<PlanStep>, b: seq<PlanStep>) {
    |a| == |b| && forall i :: 0 <= i < |a| && a[i].status == Completed ==> b[i].status == Completed
  }

  lemma BurstKeepsCompleted(steps: seq<PlanStep>, isApproval: ApprovalTest, maxRuns: int, outcomes: nat -> StepOutcome)
    requires Sound(steps)
    ensures KeepsCompleted(steps, Burst(steps, isApproval, maxRuns, outcomes))
  {
    hide Sound, MarkAll, BatchMarks, CompletedIds, ReadyIndices;
    var base := Refreshed(steps, isApproval);
    ReopenedSound(steps, isApproval, true);
    var batch := Batch(base, maxRuns);
    BatchSound(base, batch, outcomes, |batch|);
    assert batch[..|batch|] == batch;
  }

  lemma EventKeepsCompleted(steps: seq<PlanStep>, event: Event, isApproval: ApprovalTest)
    requires Sound(steps) && InTime(steps, event, isApproval) && !event.ReopenAllEvent?
    ensures KeepsCompleted(steps, Next(steps, event, isApproval))
  {
    hide Sound, CompletedIds, Burst;
    match event
    case BurstEvent(maxRuns, outcomes) => BurstKeepsCompleted(steps, isApproval, maxRuns, outcomes);
    case _ =>
  }

  /** Unless all steps are reopened, the progress of a plan never falls. */
  lemma {:induction false} ProgressNeverFalls(steps: seq<PlanStep>, events: seq<Event>, isApproval: ApprovalTest)
    requires Sound(steps) && AllInTime(steps, events, isApproval)
    requires forall k :: 0 <= k < |events| ==> !events[k].ReopenAllEvent?
    ensures Percent(steps) <= Percent(Run(steps, events, isApproval))
    decreases |events|
  {
    hide Sound, Next, InTime, Percent;
    if events != [] {
      var next := Next(steps, events[0], isApproval);
      EventSound(steps, events[0], isApproval);
      EventKeepsCompleted(steps, events[0], isApproval);
      PercentGrows(steps, next);
      ProgressNeverFalls(next, events[1..], isApproval);
    }
  }

  /** A resumed run without a step id in its prompt is recorded for a step that still waits. */
  lemma FallbackInTime(steps: seq<PlanStep>, isApproval: ApprovalTest, content: string, canned: bool)
    requires DistinctIds(steps) && WaitingId(steps, isApproval) != ""
    ensures InTime(steps, ResumeEvent(WaitingId(steps, isApproval), content, canned), isApproval)
  {
    var k := FirstWaiting(steps, isApproval);
    assert Find(steps, steps[k].id) == k;
  }
}
