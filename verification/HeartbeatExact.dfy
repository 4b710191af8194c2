/** What a write, a run of the goal and a whole cycle leave in the row of a mission. */
module HeartbeatExact {
  import opened Plan
  import opened PlanExact
  import opened StallLog
  import opened Missions
  import opened Heartbeat
  import opened HeartbeatLaws

  /* ---- One write ---- */

  function Larger(a: int, b: int): int {
    if a < b then b else a
  }

  /** The progress a write brings: 100 when it completes the mission for the first time. */
  function Brings(t: Mission): int {
    if t.status == Done && !t.finished then 100 else t.progress
  }

  /** The operator takes the mission back to the start. */
  predicate TakenBack(row: Mission, t: Mission) {
    row.progress > 0 && Brings(t) == 0
  }

  /** The operator starts the mission again, from the start or after it was blocked, failed or cancelled. */
  predicate StartedAgain(row: Mission, t: Mission) {
    || TakenBack(row, t)
    || ((row.status == Blocked || row.status == Broken || row.status == Cancelled)
        && (t.status == Waiting || t.status == Running))
  }

  /** A step of the plan after the write. */
  function StepAfterWrite(row: Mission, t: Mission, isApproval: ApprovalTest, step: PlanStep): PlanStep {
    if TakenBack(row, t) then PlanStep(step.id, step.dependencies, Pending, "")
    else if StartedAgain(row, t) && step.status == Failed && !isApproval(step.result) then
      PlanStep(step.id, step.dependencies, Pending, step.result)
    else step
  }

  /** The whole row after a write: its status is as written, its counters are cleared by a new start only, and its plan
      is the written one, or else the old one, step by step. */
  lemma WriteExactly(row: Mission, t: Mission, isApproval: ApprovalTest)
    ensures var after := Updated(row, t, isApproval); var again := StartedAgain(row, t);
      && after.status == t.status && after.progress == Brings(t) && (after.finished <==> t.finished || t.status == Done)
      && after.failCount == (if again then 0 else t.failCount)
      && after.stalledCycles == (if again then 0 else t.stalledCycles)
      && match (if t.plan.Some? then t.plan else row.plan) {
           case None => after.plan == None
           case Some(steps) =>
             && after.plan.Some? && |after.plan.value| == |steps|
             && forall i :: 0 <= i < |steps| ==> after.plan.value[i] == StepAfterWrite(row, t, isApproval, steps[i])
         }
  {
  }

  /* ---- The plans a run of the goal writes ---- */

  /** The largest of the progress at the start and the percentages of the written plans. */
  ghost predicate IsFurthest(p: int, start: int, writes: seq<seq<PlanStep>>) {
    && start <= p && (forall k :: 0 <= k < |writes| ==> Percent(writes[k]) <= p)
    && (p == start || exists k :: 0 <= k < |writes| && p == Percent(writes[k]))
  }

  lemma WriteInCycle(row: Mission, steps: seq<PlanStep>, isApproval: ApprovalTest)
    requires InCycle(row) && row.progress <= 100
    ensures var after := Updated(row, Written(row, steps), isApproval);
      && InCycle(after) && after.plan == Some(steps) && (after.status == Done <==> AllCompleted(steps))
      && after.progress == Larger(row.progress, Percent(steps)) && after.progress <= 100
      && after.failCount == row.failCount && after.stalledCycles == row.stalledCycles
  {
    PercentRange(steps);
    hide AllCompleted, Percent;
  }

  /** The goal runs on a mission in progress and writes its plan: the row has the last plan, is done exactly when that
      one is completed, and shows the furthest progress of all the plans. */
  lemma {:induction false} WritesExactly(row: Mission, writes: seq<seq<PlanStep>>, isApproval: ApprovalTest)
    requires InCycle(row) && row.progress <= 100 && writes != []
    ensures var after, last := AfterWrites(row, writes, isApproval), writes[|writes| - 1];
      && InCycle(after) && after.plan == Some(last) && (after.status == Done <==> AllCompleted(last))
      && IsFurthest(after.progress, row.progress, writes) && after.progress <= 100
      && after.failCount == row.failCount && after.stalledCycles == row.stalledCycles
  {
    var k := |writes| - 1;
    var before := AfterWrites(row, writes[..k], isApproval);
    if k > 0 {
      WritesExactly(row, writes[..k], isApproval);
    } else {
      assert AfterWrites(row, writes[..0], isApproval) == row;
    }
    WriteInCycle(before, writes[k], isApproval);
    hide Updated, Written, AllCompleted, Percent, InCycle;
    FurthestGrows(before.progress, row.progress, writes, k);
  }

  lemma FurthestGrows(p: int, start: int, writes: seq<seq<PlanStep>>, k: nat)
    requires k + 1 == |writes| && IsFurthest(p, start, writes[..k])
    ensures IsFurthest(Larger(p, Percent(writes[k])), start, writes)
  {
    hide Percent;
    assert forall j :: 0 <= j < k ==> writes[..k][j] == writes[j];
  }

  /* ---- A whole cycle ---- */

  /** The mission of the cycle: running, with the plan of the row and the further progress of the two. */
  function Taken(row: Mission, now: Mission): Mission {
    Mission(Running, Larger(now.progress, row.progress), row.failCount, row.stalledCycles,
            if now.plan.Some? then now.plan else row.plan, row.finished)
  }

  lemma StartsUnchanged(row: Mission, isApproval: ApprovalTest)
    requires row.status == Waiting || row.status == Running
    ensures Updated(row, row.(status := Running), isApproval) == row.(status := Running)
  {
  }

  lemma TakenIs(row: Mission, now: Mission)
    ensures Adopted(row.(status := Running), now) == Taken(row, now)
  {
  }

  /** A cycle without a reply: what the goal wrote stays when there was none at all; a pause or a transient failure
      leaves the mission running, without counting; a fatal failure counts once more and blocks it at the third. */
  lemma CycleWithoutReply(row: Mission, writes: seq<seq<PlanStep>>, outcome: CycleOutcome, past: seq<Report>,
      isApproval: ApprovalTest)
    requires (row.status == Waiting || row.status == Running) && Safe(row) && !outcome.Answer?
    ensures var now := AfterWrites(row.(status := Running), writes, isApproval);
      var after, taken := Cycle(row, writes, outcome, past, isApproval), Taken(row, now);
      && (outcome == NoReply ==> after == now)
      && (outcome == ApprovalPause || outcome == TransientFailure ==> after == taken)
      && (outcome == FatalFailure ==>
        after == taken.(failCount := row.failCount + 1, status := if row.failCount + 1 >= 3 then Blocked else Running))
  {
    var t := row.(status := Running);
    StartsUnchanged(row, isApproval);
    WritesStayInCycle(t, writes, isApproval);
    var now := AfterWrites(t, writes, isApproval);
    TakenIs(row, now);
    hide AfterWrites;
    PersistsTaken(now, Taken(row, now), isApproval);
    PersistsTaken(now, FailedOnce(Taken(row, now)), isApproval);
    hide Persisted, Updated, Adopted;
  }

  lemma PersistsTaken(now: Mission, t: Mission, isApproval: ApprovalTest)
    requires !Stopped(now.status) && t.status != Done && now.progress <= t.progress
    requires now.plan.Some? ==> t.plan == now.plan
    ensures Persisted(now, t, isApproval) == t
  {
  }

  /** A reply never takes progress back: a mission that is not done afterwards shows the furthest of its own progress,
      its plan's percentage and, when nothing else decided, the percentage the reply reports. */
  lemma ReplyProgress(t: Mission, r: Reply)
    requires t.status == Running
    ensures var after := AfterReply(t, r);
      var own := if t.plan.Some? then Larger(t.progress, Percent(t.plan.value)) else t.progress;
      var silent := !BringsNothing(t, r) && !PlanOpen(t) && !r.claimsDone && !r.claimsBlocked;
      after.status != Done ==>
        after.progress == if silent && r.reported.Some? then Larger(own, r.reported.value) else own
  {
    hide AllCompleted, Percent;
  }

  /** A cycle with a reply writes the mission as the reply and the stall count left it. */
  lemma CycleWithReply(row: Mission, writes: seq<seq<PlanStep>>, r: Reply, past: seq<Report>, isApproval: ApprovalTest)
    requires (row.status == Waiting || row.status == Running) && Safe(row)
    ensures var now := AfterWrites(row.(status := Running), writes, isApproval);
      var after := Cycle(row, writes, Answer(r), past, isApproval);
      var last := StallTracked(AfterReply(Taken(row, now), r), past);
      && after.status == last.status && after.plan == last.plan
      && after.failCount == last.failCount && after.stalledCycles == last.stalledCycles
      && (after.finished <==> row.finished || last.status == Done)
      && (last.status != Done ==> after.progress == last.progress)
  {
    var t := row.(status := Running);
    StartsUnchanged(row, isApproval);
    WritesStayInCycle(t, writes, isApproval);
    var now := AfterWrites(t, writes, isApproval);
    TakenIs(row, now);
    var taken := Taken(row, now);
    hide AfterWrites, Streak, Stalled;
    ReplyDecides(taken, r);
    ReplyProgress(taken, r);
    hide AfterReply, BringsNothing;
    var last := StallTracked(AfterReply(taken, r), past);
    if last.status != Done {
      PersistsTaken(now, last, isApproval);
    } else {
      PersistsDone(now, last, isApproval);
    }
    hide Persisted;
  }

  lemma PersistsDone(now: Mission, t: Mission, isApproval: ApprovalTest)
    requires !Stopped(now.status) && t.status == Done && 0 < t.progress && (now.plan.Some? ==> t.plan == now.plan)
    ensures var after := Persisted(now, t, isApproval);
      && after.status == Done && after.plan == t.plan && after.finished
      && after.failCount == t.failCount && after.stalledCycles == t.stalledCycles
  {
  }
}
