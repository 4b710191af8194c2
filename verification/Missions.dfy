/** Missions: the mission table with its operator reset, the stall tracker, and one heartbeat cycle. */
module Missions {
  import opened Plan
  import opened StallLog

  const FAIL_LIMIT: int := 3

  datatype MissionStatus = Waiting | Running | Done | Blocked | Broken | Cancelled | Other(text: string)

  datatype Option<T> = None | Some(value: T)

  /** A row of the mission table; `finished` says that a completion time is set. */
  datatype Mission = Mission(status: MissionStatus, progress: int, failCount: int, stalledCycles: int,
                             plan: Option<seq<PlanStep>>, finished: bool)

  /* ---- UpdateTask ---- */

  /** A mission written as completed for the first time is at 100 percent. */
  function Stamped(t: Mission): Mission {
    if t.status == Done && !t.finished then t.(finished := true, progress := 100) else t
  }

  predicate Stopped(status: MissionStatus) {
    status == Blocked || status == Broken || status == Cancelled
  }

  /** The progress goes back to zero. */
  predicate Rewinds(row: Mission, t: Mission) {
    row.progress > 0 && Stamped(t).progress == 0
  }

  /** The operator starts the mission again. */
  predicate IsReset(row: Mission, t: Mission) {
    Rewinds(row, t) || (Stopped(row.status) && (t.status == Waiting || t.status == Running))
  }

  function PlanAfter(row: Mission, t: Mission, isApproval: ApprovalTest): Option<seq<PlanStep>> {
    var plan := if t.plan.Some? then t.plan else row.plan;
    if plan.None? then plan
    else if Rewinds(row, t) then Some(AllReopened(plan.value))
    else if IsReset(row, t) then Some(FailedReopened(plan.value, isApproval, false))
    else plan
  }

  /** The row after `t` is written over `row`. */
  function Updated(row: Mission, t: Mission, isApproval: ApprovalTest): Mission {
    var s := Stamped(t);
    Mission(s.status, s.progress,
            if IsReset(row, t) then 0 else s.failCount, if IsReset(row, t) then 0 else s.stalledCycles,
            PlanAfter(row, t, isApproval), s.finished)
  }

  class TaskTable {
    var rows: map<string, Mission>

    constructor ()
      ensures rows == map[]
    {
      rows := map[];
    }

    method UpdateTask(id: string, task: Mission, isApproval: ApprovalTest)
      modifies this
      ensures rows == if id in old(rows) then old(rows)[id := Updated(old(rows)[id], task, isApproval)] else old(rows)
    {
      var t := task;
      if t.status == Done && !t.finished {
        t := t.(finished := true, progress := 100);
      }
      if id !in rows {
        return;
      }
      var row := rows[id];
      var rewinds := row.progress > 0 && t.progress == 0;
      var isReset := rewinds || (Stopped(row.status) && (t.status == Waiting || t.status == Running));
      if isReset {
        t := t.(failCount := 0, stalledCycles := 0);
      }
      if t.plan.None? {
        t := t.(plan := row.plan);
      }
      if t.plan.Some? {
        var plan := new TaskPlan(t.plan.value);
        if rewinds {
          plan.ReopenAllSteps();
        } else if isReset {
          var _ := plan.ReopenFailed(isApproval, false);
        }
        t := t.(plan := Some(plan.steps));
      }
      rows := rows[id := t];
    }
  }

  /* ---- The stall tracker ---- */

  datatype StallState = StallState(lastProgress: int, stalledCycles: nat, notified: bool)

  /** What the tracker must remember about a mission, none when its streak is empty. */
  function StateOf(values: seq<int>): Option<StallState> {
    if values == [] then None else Some(StallState(High(values), Stalled(values), Stalled(values) >= STALL_LIMIT))
  }

  function ReportOf(status: MissionStatus, progress: int): Report {
    if status == Running then Progress(progress) else NotInProgress
  }

  lemma StreakGrows(reports: seq<Report>, r: Report)
    ensures Streak(reports + [r]) == if r.Progress? then Streak(reports) + [r.value] else []
  {
    assert (reports + [r])[..|reports|] == reports;
  }

  /** The state after one more progress report. */
  function Bumped(state: StallState, v: int): StallState {
    if v == 0 || v > state.lastProgress then StallState(v, 0, false)
    else state.(stalledCycles := state.stalledCycles + 1,
        notified := state.notified || state.stalledCycles + 1 >= STALL_LIMIT)
  }

  lemma StateGrows(values: seq<int>, v: int)
    ensures StateOf(values + [v]) ==
      Some(Bumped(if StateOf(values).Some? then StateOf(values).value else StallState(0, 0, false), v))
  {
    assert (values + [v])[..|values|] == values;
  }

  class StallTracker {
    var states: map<string, StallState>
    ghost var reports: map<string, seq<Report>>

    ghost function Reports(id: string): seq<Report>
      reads this
    {
      if id in reports then reports[id] else []
    }

    /** Every remembered state says what the reports say. */
    ghost predicate Valid()
      reads this
    {
      forall id :: (if id in states then Some(states[id]) else None) == StateOf(Streak(Reports(id)))
    }

    constructor ()
      ensures Valid() && reports == map[]
    {
      states, reports := map[], map[];
    }

    method TrackTaskStall(id: string, status: MissionStatus, progress: int) returns (escalate: bool, cycles: nat)
      requires Valid()
      modifies this
      ensures Valid() && reports == old(reports)[id := old(Reports(id)) + [ReportOf(status, progress)]]
      ensures var values := Streak(Reports(id));
        cycles == Stalled(values) && (escalate <==> values != [] && Escalates(values, |values| - 1))
    {
      hide Stalled, High, Streak;
      ghost var before := Reports(id);
      StreakGrows(before, ReportOf(status, progress));
      reports := reports[id := before + [ReportOf(status, progress)]];
      if status != Running {
        states := states - {id};
        assert StateOf([]) == None;
        NothingStalled();
        return false, 0;
      }
      StateGrows(Streak(before), progress);
      var state := if id in states then states[id] else StallState(0, 0, false);
      if progress == 0 || progress > state.lastProgress {
        state := StallState(progress, 0, false);
      } else {
        state := state.(stalledCycles := state.stalledCycles + 1);
      }
      cycles := state.stalledCycles;
      escalate := false;
      if state.stalledCycles >= STALL_LIMIT && !state.notified {
        state := state.(notified := true);
        escalate := true;
      }
      states := states[id := state];
      ghost var values := Streak(before) + [progress];
      assert values[..|values|] == values;
    }
  }

  lemma NothingStalled()
    ensures Stalled([]) == 0
  {
  }
}
