/** One heartbeat cycle over a mission: what the run of the goal writes, and the transitions after it. */
module Heartbeat {
  import opened Plan
  import opened StallLog
  import opened Missions

  /** What the cycle reads from a reply: whether it is canned or empty, whether a deliverable was
      written, and which claims its text makes. */
  datatype Reply = Reply(canned: bool, wrote: bool, claimsDone: bool, verified: bool, claimsBlocked: bool,
      reported: Option<int>)

  /** How the run of the goal ends. */
  datatype CycleOutcome = ApprovalPause | TransientFailure | FatalFailure | NoReply | Answer(reply: Reply)

  /* ---- Specification ---- */

  /** A plan written to the mission while the goal runs. */
  function Written(t: Mission, steps: seq<PlanStep>): Mission {
    var t1 := t.(plan := Some(steps));
    if AllCompleted(steps) then
      if t.status != Cancelled && t.status != Blocked then t1.(status := Done, progress := 100) else t1
    else
      var t2 := if t.status == Done then t1.(status := Running, finished := false) else t1;
      if Percent(steps) > t2.progress then t2.(progress := Percent(steps)) else t2
  }

  function AfterWrites(row: Mission, writes: seq<seq<PlanStep>>, isApproval: ApprovalTest): Mission {
    if writes == [] then row
    else
      var before := AfterWrites(row, writes[..|writes| - 1], isApproval);
      Updated(before, Written(before, writes[|writes| - 1]), isApproval)
  }

  /** The plan and the progress of the table, when it is further. */
  function Adopted(t: Mission, row: Mission): Mission {
    t.(plan := if row.plan.Some? then row.plan else t.plan,
        progress := if row.progress > t.progress then row.progress else t.progress)
  }

  /** One more failure; the mission is blocked at the limit. */
  function FailedOnce(t: Mission): Mission {
    t.(failCount := t.failCount + 1, status := if t.failCount + 1 >= FAIL_LIMIT then Blocked else t.status)
  }

  function Finished(t: Mission): Mission {
    t.(status := Done, progress := 100, failCount := 0)
  }

  predicate PlanDone(t: Mission) {
    t.plan.Some? && AllCompleted(t.plan.value)
  }

  predicate PlanOpen(t: Mission) {
    t.plan.Some? && t.plan.value != [] && !PlanDone(t)
  }

  /** The transitions after a reply. */
  function AfterReply(task: Mission, r: Reply): Mission {
    var ahead := task.plan.Some? && Percent(task.plan.value) > task.progress;
    var t := if ahead then task.(progress := Percent(task.plan.value)) else task;
    var deliverableDone := !PlanOpen(t) && r.wrote;
    if r.canned && !PlanDone(t) && !deliverableDone && t.status != Done then FailedOnce(t.(status := Running))
    else if PlanOpen(t) then t.(status := Running)
    else if PlanDone(t) || t.status == Done then Finished(t)
    else if deliverableDone || (r.claimsDone && r.verified) then Finished(t)
    else if r.claimsDone then t.(status := Running)
    else if r.claimsBlocked then t.(status := Blocked)
    else if r.reported.Some? && r.reported.value > t.progress then t.(status := Running, progress := r.reported.value)
    else t.(status := Running)
  }

  /** The stall counter and, at the limit, the block. */
  function AfterStall(t: Mission, cycles: nat, escalate: bool): Mission {
    t.(stalledCycles := cycles, status := if escalate && t.status == Running then Blocked else t.status)
  }

  function StallTracked(t: Mission, past: seq<Report>): Mission {
    var values := Streak(past + [ReportOf(t.status, t.progress)]);
    AfterStall(t, Stalled(values), values != [] && Escalates(values, |values| - 1))
  }

  function Persisted(row: Mission, t: Mission, isApproval: ApprovalTest): Mission {
    Updated(row, Adopted(t, row), isApproval)
  }

  /** The row after the run of the goal has ended; `now` is the row, `t` the mission of the cycle. */
  function Concluded(now: Mission, t: Mission, outcome: CycleOutcome, past: seq<Report>,
      isApproval: ApprovalTest): Mission {
    match outcome
    case ApprovalPause => Persisted(now, t, isApproval)
    case TransientFailure => Persisted(now, t, isApproval)
    case FatalFailure => Persisted(now, FailedOnce(t), isApproval)
    case NoReply => now
    case Answer(r) => Persisted(now, StallTracked(AfterReply(t, r), past), isApproval)
  }

  /** The row after a cycle; `past` are the reports of the earlier cycles. */
  function Cycle(row: Mission, writes: seq<seq<PlanStep>>, outcome: CycleOutcome, past: seq<Report>,
      isApproval: ApprovalTest): Mission {
    var t := row.(status := Running);
    var now := AfterWrites(Updated(row, t, isApproval), writes, isApproval);
    Concluded(now, Adopted(t, now), outcome, past, isApproval)
  }

  /** The mission after the transitions of a reply, before the stall count. */
  function Replied(row: Mission, writes: seq<seq<PlanStep>>, r: Reply, isApproval: ApprovalTest): Mission {
    var t := row.(status := Running);
    AfterReply(Adopted(t, AfterWrites(Updated(row, t, isApproval), writes, isApproval)), r)
  }

  /** The reports after a cycle: only a cycle with a reply adds one. */
  function ReportsAfter(row: Mission, writes: seq<seq<PlanStep>>, outcome: CycleOutcome, past: seq<Report>,
      isApproval: ApprovalTest): seq<Report> {
    if !outcome.Answer? then past
    else
      var t := Replied(row, writes, outcome.reply, isApproval);
      past + [ReportOf(t.status, t.progress)]
  }

  /* ---- The cycle ---- */

  /** A running mission written back unchanged. */
  lemma UpdatedSame(row: Mission, isApproval: ApprovalTest)
    requires row.status == Running
    ensures Updated(row, row, isApproval) == row
  {
  }

  method RunGoal(table: TaskTable, id: string, writes: seq<seq<PlanStep>>, isApproval: ApprovalTest)
    requires id in table.rows
    modifies table
    ensures table.rows == old(table.rows)[id := AfterWrites(old(table.rows)[id], writes, isApproval)]
  {
    hide Updated, Written;
    for k := 0 to |writes|
      invariant table.rows == old(table.rows)[id := AfterWrites(old(table.rows)[id], writes[..k], isApproval)]
    {
      assert writes[..k + 1][..k] == writes[..k];
      table.UpdateTask(id, Written(table.rows[id], writes[k]), isApproval);
    }
    assert writes[..|writes|] == writes;
  }

  method PersistMissionTask(table: TaskTable, id: string, t: Mission, isApproval: ApprovalTest)
    requires id in table.rows
    modifies table
    ensures table.rows == old(table.rows)[id := Persisted(old(table.rows)[id], t, isApproval)]
  {
    hide Updated;
    table.UpdateTask(id, Adopted(t, table.rows[id]), isApproval);
  }

  method ApplyReply(task: Mission, r: Reply) returns (t: Mission)
    ensures t == AfterReply(task, r)
  {
    hide AllCompleted, Percent;
    t := task;
    var planDone := t.plan.Some? && AllCompleted(t.plan.value);
    var planOpen := t.plan.Some? && t.plan.value != [] && !planDone;
    if t.plan.Some? && Percent(t.plan.value) > t.progress {
      t := t.(progress := Percent(t.plan.value));
    }
    var deliverableDone := !planOpen && r.wrote;
    if r.canned && !planDone && !deliverableDone && t.status != Done {
      t := t.(status := Running, failCount := t.failCount + 1);
      if t.failCount >= FAIL_LIMIT {
        t := t.(status := Blocked);
      }
    } else if planOpen {
      t := t.(status := Running);
    } else if planDone || t.status == Done {
      t := t.(status := Done, progress := 100, failCount := 0);
    } else if deliverableDone || (r.claimsDone && r.verified) {
      t := t.(status := Done, progress := 100, failCount := 0);
    } else if r.claimsDone {
      t := t.(status := Running);
    } else if r.claimsBlocked {
      t := t.(status := Blocked);
    } else {
      t := t.(status := Running);
      if r.reported.Some? && r.reported.value > t.progress {
        t := t.(progress := r.reported.value);
      }
    }
  }

  method CountStall(tracker: StallTracker, id: string, task: Mission) returns (t: Mission)
    requires tracker.Valid()
    modifies tracker
    ensures tracker.Valid() && t == StallTracked(task, old(tracker.Reports(id)))
    ensures tracker.Reports(id) == old(tracker.Reports(id)) + [ReportOf(task.status, task.progress)]
  {
    hide StateOf, Stalled, Streak;
    var stalled, cycles := tracker.TrackTaskStall(id, task.status, task.progress);
    t := AfterStall(task, cycles, stalled);
  }

  /** The transitions after the run of the goal. */
  method Conclude(table: TaskTable, tracker: StallTracker, id: string, task: Mission, outcome: CycleOutcome,
      isApproval: ApprovalTest)
    requires id in table.rows && tracker.Valid()
    modifies table, tracker
    ensures table.rows ==
      old(table.rows)[id := Concluded(old(table.rows)[id], task, outcome, old(tracker.Reports(id)), isApproval)]
    ensures tracker.Valid()
    ensures tracker.Reports(id) == if outcome.Answer? then
        var t := AfterReply(task, outcome.reply); old(tracker.Reports(id)) + [ReportOf(t.status, t.progress)]
      else old(tracker.Reports(id))
  {
    hide Updated, AfterReply, StateOf, Stalled, Streak, Percent, Adopted, Persisted, FailedOnce, StallTracked;
    match outcome {
      case ApprovalPause =>
        PersistMissionTask(table, id, task, isApproval);
      case TransientFailure =>
        PersistMissionTask(table, id, task, isApproval);
      case FatalFailure =>
        PersistMissionTask(table, id, FailedOnce(task), isApproval);
      case NoReply =>
      case Answer(r) =>
        var t := ApplyReply(task, r);
        t := CountStall(tracker, id, t);
        PersistMissionTask(table, id, t, isApproval);
    }
  }

  /** A cycle for a selected mission, which is waiting or running. */
  method CheckCycle(table: TaskTable, tracker: StallTracker, id: string, writes: seq<seq<PlanStep>>,
      outcome: CycleOutcome, isApproval: ApprovalTest)
    requires id in table.rows && (table.rows[id].status == Waiting || table.rows[id].status == Running)
    requires tracker.Valid()
    modifies table, tracker
    ensures table.rows ==
      old(table.rows)[id := Cycle(old(table.rows)[id], writes, outcome, old(tracker.Reports(id)), isApproval)]
    ensures tracker.Valid()
    ensures tracker.Reports(id) == ReportsAfter(old(table.rows)[id], writes, outcome, old(tracker.Reports(id)),
        isApproval)
  {
    hide Updated, AfterWrites, AfterReply, StateOf, Stalled, Streak, Percent, Adopted, Concluded,
        StallTracker.Valid, StallTracker.Reports;
    var t := table.rows[id];
    if t.status == Waiting {
      t := t.(status := Running);
      table.UpdateTask(id, t, isApproval);
    } else {
      UpdatedSame(t, isApproval);
    }
    RunGoal(table, id, writes, isApproval);
    Conclude(table, tracker, id, Adopted(t, table.rows[id]), outcome, isApproval);
  }
}
