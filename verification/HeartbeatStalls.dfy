/** Stalled missions over whole runs: when a cycle blocks a mission for stalling, and when it never will
    because the tracker's count outlives the restart of the mission. */
module HeartbeatStalls {
  import opened Plan
  import opened StallLog
  import opened Missions
  import opened Heartbeat
  import opened HeartbeatLaws

  /** The progress values the tracker still knows. */
  function Values(s: State): seq<int> {
    Streak(s.reports)
  }

  /** The report of `v` would not restart the count. */
  predicate NoAdvance(values: seq<int>, v: int) {
    v != 0 && v <= High(values)
  }

  lemma StalledSnoc(values: seq<int>, v: int)
    ensures Stalled(values + [v]) == if NoAdvance(values, v) then Stalled(values) + 1 else 0
    ensures NoAdvance(values, v) ==> High(values + [v]) == High(values)
    ensures var all := values + [v]; Escalates(all, |all| - 1) <==> Stalled(all) == STALL_LIMIT
  {
    var all := values + [v];
    assert all[..|values|] == values && all[..|all|] == all;
  }

  /* ---- One cycle ---- */

  lemma TrackedStall(t: Mission, past: seq<Report>)
    ensures var after, values := StallTracked(t, past), Streak(past);
      var stalls := t.status == Running && NoAdvance(values, t.progress) && Stalled(values) == STALL_LIMIT - 1;
      && after.status == (if stalls then Blocked else t.status)
      && after.stalledCycles == (if t.status == Running && NoAdvance(values, t.progress) then Stalled(values) + 1 else 0)
      && after == t.(status := after.status, stalledCycles := after.stalledCycles)
  {
    StreakGrows(past, ReportOf(t.status, t.progress));
    StalledSnoc(Streak(past), t.progress);
    NothingStalled();
    hide Streak, Stalled, High, Escalates, NoAdvance;
  }

  lemma PersistKeepsProgress(row: Mission, t: Mission, isApproval: ApprovalTest)
    requires !Stopped(row.status) && row.progress <= t.progress && t.status != Done
    ensures var after := Persisted(row, t, isApproval);
      after.status == t.status && after.progress == t.progress && after.stalledCycles == t.stalledCycles
  {
  }

  /** Exactly when a cycle with a reply blocks a mission for stalling, in terms of the reports before it:
      the reply leaves it running, its progress is neither zero nor a new high, and the count stands one
      below the limit.  The row then carries the tracker's count, whatever it carried before. */
  lemma StallBlocksExactly(s: State, writes: seq<seq<PlanStep>>, r: Reply, isApproval: ApprovalTest)
    requires (s.row.status == Waiting || s.row.status == Running) && Safe(s.row)
    ensures var t := Replied(s.row, writes, r, isApproval);
      var after := Cycle(s.row, writes, Answer(r), s.reports, isApproval);
      var count, idle := Stalled(Values(s)), t.status == Running && NoAdvance(Values(s), t.progress);
      && after.status == (if idle && count == STALL_LIMIT - 1 then Blocked else t.status)
      && (t.status != Done ==> after.progress == t.progress)
      && (t.status != Done ==> after.stalledCycles == (if idle then count + 1 else 0))
  {
    var t0 := s.row.(status := Running);
    assert InCycle(Updated(s.row, t0, isApproval));
    WritesStayInCycle(Updated(s.row, t0, isApproval), writes, isApproval);
    var now := AfterWrites(Updated(s.row, t0, isApproval), writes, isApproval);
    var t := AfterReply(Adopted(t0, now), r);
    ReplyDecides(Adopted(t0, now), r);
    assert now.progress <= Adopted(t0, now).progress;
    hide Updated, AfterWrites, AfterReply, BringsNothing, PlanDone, PlanOpen;
    TrackedStall(t, s.reports);
    PersistKeeps(now, StallTracked(t, s.reports), isApproval);
    hide StallTracked, NoAdvance, Adopted, Persisted, Streak;
    if t.status != Done {
      PersistKeepsProgress(now, StallTracked(t, s.reports), isApproval);
    }
  }

  /* ---- Runs of cycles without advance ---- */

  /** A cycle whose reply leaves the mission running, at a progress that is neither zero nor a new high. */
  ghost predicate IdleCycle(s: State, e: Event, isApproval: ApprovalTest) {
    e.CycleEvent? && e.outcome.Answer? &&
    var t := Replied(s.row, e.writes, e.outcome.reply, isApproval);
    t.status == Running && NoAdvance(Values(s), t.progress)
  }

  ghost predicate AllIdle(s: State, events: seq<Event>, isApproval: ApprovalTest)
    decreases |events|
  {
    events == [] || (IdleCycle(s, events[0], isApproval) && AllIdle(Next(s, events[0], isApproval), events[1..], isApproval))
  }

  lemma IdleStep(s: State, e: Event, isApproval: ApprovalTest)
    requires (s.row.status == Waiting || s.row.status == Running) && Safe(s.row) && IdleCycle(s, e, isApproval)
    ensures var next := Next(s, e, isApproval); var count := Stalled(Values(s));
      && Safe(next.row) && Stalled(Values(next)) == count + 1 && next.row.stalledCycles == count + 1
      && next.row.status == if count == STALL_LIMIT - 1 then Blocked else Running
  {
    hide Cycle, Replied, Streak, Stalled, High, Safe;
    StallBlocksExactly(s, e.writes, e.outcome.reply, isApproval);
    CycleCounts(s.row, e.writes, e.outcome, s.reports, isApproval);
    var v := Replied(s.row, e.writes, e.outcome.reply, isApproval).progress;
    StreakGrows(s.reports, Progress(v));
    StalledSnoc(Values(s), v);
  }

  /** For every run of such cycles: it ends with a block exactly when the count stood below the limit before
      and has reached it; a count at or above the limit only goes on, and the row shows it. */
  lemma {:induction false} IdleRun(s: State, events: seq<Event>, isApproval: ApprovalTest)
    requires Safe(s.row) && AllEnabled(s, events, isApproval) && AllIdle(s, events, isApproval) && events != []
    ensures var end, count := Run(s, events, isApproval).row, Stalled(Values(s));
      && (end.status == Blocked <==> count < STALL_LIMIT && count + |events| >= STALL_LIMIT)
      && (end.status == Blocked || end.status == Running) && end.stalledCycles == count + |events|
    decreases |events|
  {
    hide Next, NoAdvance, Replied, Safe, Stalled, Values;
    var next := Next(s, events[0], isApproval);
    IdleStep(s, events[0], isApproval);
    if |events| > 1 {
      assert Enabled(next, events[1..][0]);
      IdleRun(next, events[1..], isApproval);
    } else {
      assert events[1..] == [] && Run(next, [], isApproval) == next;
    }
  }

  /** An operator restarts a mission.  The counter of the row is cleared, the tracker's is not: later idle
      cycles block the mission exactly when the tracker's count was still below the limit before the restart. */
  lemma RestartedIdleRun(s: State, task: Mission, events: seq<Event>, isApproval: ApprovalTest)
    requires IsReset(s.row, task) && (task.status == Waiting || task.status == Running)
    requires var restarted := Next(s, WriteEvent(task), isApproval);
      AllEnabled(restarted, events, isApproval) && AllIdle(restarted, events, isApproval) && events != []
    ensures var restarted := Next(s, WriteEvent(task), isApproval);
      var end, count := Run(restarted, events, isApproval).row, Stalled(Values(s));
      && restarted.row.stalledCycles == 0 && end.stalledCycles == count + |events|
      && (end.status == Blocked <==> count < STALL_LIMIT && count + |events| >= STALL_LIMIT)
  {
    WriteSafeExactly(s.row, task, isApproval);
    ResetExactly(s.row, task, isApproval);
    hide Updated, AllEnabled, AllIdle, Run, Stalled;
    IdleRun(Next(s, WriteEvent(task), isApproval), events, isApproval);
  }

  /* ---- A restart after which the mission never escalates again ---- */

  const PLAIN := CycleEvent([], Answer(Reply(false, false, false, false, false, None)))

  /** A mission without a plan at 10 percent. */
  function AtTen(status: MissionStatus, stalledCycles: int): Mission {
    Mission(status, 10, 0, stalledCycles, None, false)
  }

  function Plain(n: nat): seq<Event> {
    if n == 0 then [] else [PLAIN] + Plain(n - 1)
  }

  lemma PlainReply(c: int, past: seq<Report>, isApproval: ApprovalTest)
    ensures var row := AtTen(Running, c);
      && Replied(row, [], PLAIN.outcome.reply, isApproval) == row
      && Cycle(row, [], PLAIN.outcome, past, isApproval) == Persisted(row, StallTracked(row, past), isApproval)
  {
    hide StallTracked, Persisted, Updated;
    UpdatedSame(AtTen(Running, c), isApproval);
  }

  lemma PersistAtTen(c: int, status: MissionStatus, k: int, isApproval: ApprovalTest)
    requires status == Running || status == Blocked
    ensures Persisted(AtTen(Running, c), AtTen(status, k), isApproval) == AtTen(status, k)
  {
  }

  /** A cycle with a plain reply reports 10 percent and sets the tracker's count. */
  lemma PlainCycle(s: State, c: int, isApproval: ApprovalTest)
    requires s.row == AtTen(Running, c)
    ensures var next := Next(s, PLAIN, isApproval); var values := Values(s) + [10];
      && next.reports == s.reports + [Progress(10)] && Values(next) == values
      && next.row == AtTen(if Stalled(values) == STALL_LIMIT then Blocked else Running, Stalled(values))
      && (IdleCycle(s, PLAIN, isApproval) <==> NoAdvance(Values(s), 10))
  {
    PlainReply(c, s.reports, isApproval);
    TrackedStall(s.row, s.reports);
    StreakGrows(s.reports, Progress(10));
    StalledSnoc(Values(s), 10);
    hide Streak, Stalled, High, Escalates, NoAdvance, StallTracked, Cycle, Replied, Persisted, AfterReply;
    var after := StallTracked(s.row, s.reports);
    PersistAtTen(c, after.status, after.stalledCycles, isApproval);
  }

  /** Four plain cycles of a mission that has just reached 10 percent end with the block. */
  lemma PlainCyclesBlock(isApproval: ApprovalTest)
    ensures var end := Run(State(AtTen(Running, 0), []), Plain(4), isApproval);
      end.row == AtTen(Blocked, 3) && Values(end) == [10, 10, 10, 10] && Stalled(Values(end)) == 3 && High(Values(end)) == 10
  {
    var s0 := State(AtTen(Running, 0), []);
    var s1 := Next(s0, PLAIN, isApproval);
    var s2 := Next(s1, PLAIN, isApproval);
    var s3 := Next(s2, PLAIN, isApproval);
    var s4 := Next(s3, PLAIN, isApproval);
    FourTens();
    hide Next, Stalled, High, IdleCycle;
    assert Values(s0) == [];
    hide Values;
    PlainCycle(s0, 0, isApproval);
    assert Values(s1) == [10];
    PlainCycle(s1, 0, isApproval);
    assert Values(s2) == [10, 10];
    PlainCycle(s2, 1, isApproval);
    assert Values(s3) == [10, 10, 10];
    PlainCycle(s3, 2, isApproval);
    assert Values(s4) == [10, 10, 10, 10];
    PlainRun(s0, 3, isApproval);
    PlainRun(s1, 2, isApproval);
    PlainRun(s2, 1, isApproval);
    PlainRun(s3, 0, isApproval);
    assert Run(s4, Plain(0), isApproval) == s4;
  }

  lemma PlainRun(s: State, n: nat, isApproval: ApprovalTest)
    ensures var next := Next(s, PLAIN, isApproval);
      && Run(s, Plain(n + 1), isApproval) == Run(next, Plain(n), isApproval)
      && (AllEnabled(s, Plain(n + 1), isApproval) <==> Enabled(s, PLAIN) && AllEnabled(next, Plain(n), isApproval))
      && (AllIdle(s, Plain(n + 1), isApproval) <==> IdleCycle(s, PLAIN, isApproval) && AllIdle(next, Plain(n), isApproval))
  {
    hide Next, Enabled, IdleCycle;
    assert Plain(n + 1)[1..] == Plain(n) && Plain(n + 1)[0] == PLAIN;
  }

  lemma FourTens()
    ensures Stalled([10]) == 0 && Stalled([10] + [10]) == 1
    ensures Stalled([10, 10] + [10]) == 2 && Stalled([10, 10, 10] + [10]) == 3
    ensures High([10, 10, 10, 10]) == 10 && [] + [10] == [10]
  {
    StalledSnoc([], 10);
    StalledSnoc([10], 10);
    StalledSnoc([10, 10], 10);
    StalledSnoc([10, 10, 10], 10);
    assert [] + [10] == [10] && [10] + [10] == [10, 10] && [10, 10] + [10] == [10, 10, 10];
    assert [10, 10, 10] + [10] == [10, 10, 10, 10];
  }

  lemma PlainStep(s: State, c: int, isApproval: ApprovalTest)
    requires s.row == AtTen(Running, c) && High(Values(s)) == 10 && Stalled(Values(s)) >= STALL_LIMIT
    ensures var next, count := Next(s, PLAIN, isApproval), Stalled(Values(s));
      && Enabled(s, PLAIN) && IdleCycle(s, PLAIN, isApproval)
      && next.row == AtTen(Running, count + 1) && High(Values(next)) == 10 && Stalled(Values(next)) == count + 1
  {
    PlainCycle(s, c, isApproval);
    StalledSnoc(Values(s), 10);
    hide Next, IdleCycle, Values, Stalled, High;
  }

  /** From a count at the limit, any number of plain cycles can follow, and none blocks the mission. */
  lemma {:induction false} PlainForever(s: State, c: int, n: nat, isApproval: ApprovalTest)
    requires s.row == AtTen(Running, c) && High(Values(s)) == 10 && Stalled(Values(s)) >= STALL_LIMIT
    ensures AllEnabled(s, Plain(n), isApproval) && AllIdle(s, Plain(n), isApproval)
    ensures Run(s, Plain(n), isApproval).row == if n > 0 then AtTen(Running, Stalled(Values(s)) + n) else s.row
    decreases n
  {
    hide *;
    if n == 0 {
      PlainNone(s, isApproval);
    } else {
      PlainStep(s, c, isApproval);
      PlainForever(Next(s, PLAIN, isApproval), Stalled(Values(s)) + 1, n - 1, isApproval);
      PlainRun(s, n - 1, isApproval);
    }
  }

  lemma PlainNone(s: State, isApproval: ApprovalTest)
    ensures AllEnabled(s, Plain(0), isApproval) && AllIdle(s, Plain(0), isApproval) && Run(s, Plain(0), isApproval) == s
  {
  }

  /** The operator sets the blocked mission back to running. */
  lemma RestartAtTen(blocked: State, isApproval: ApprovalTest)
    requires blocked.row == AtTen(Blocked, 3)
    ensures blocked.row.status == Blocked && IsReset(blocked.row, blocked.row.(status := Running))
    ensures Next(blocked, WriteEvent(blocked.row.(status := Running)), isApproval) ==
      State(AtTen(Running, 0), blocked.reports)
  {
  }

  /** A mission that the daemon blocked for stalling and the operator restarted: however many cycles without
      advance follow, none blocks it again, and the counter the restart cleared comes back. */
  lemma RestartNeverEscalates(n: nat, isApproval: ApprovalTest)
    requires n > 0
    ensures var blocked := Run(State(AtTen(Running, 0), []), Plain(4), isApproval);
      var restarted := Next(blocked, WriteEvent(blocked.row.(status := Running)), isApproval);
      && blocked.row.status == Blocked && IsReset(blocked.row, blocked.row.(status := Running))
      && restarted.row == AtTen(Running, 0)
      && AllEnabled(restarted, Plain(n), isApproval) && AllIdle(restarted, Plain(n), isApproval)
      && Run(restarted, Plain(n), isApproval).row == AtTen(Running, 3 + n)
  {
    assert STALL_LIMIT == 3;
    hide *;
    var blocked := Run(State(AtTen(Running, 0), []), Plain(4), isApproval);
    var restarted := Next(blocked, WriteEvent(blocked.row.(status := Running)), isApproval);
    PlainCyclesBlock(isApproval);
    RestartAtTen(blocked, isApproval);
    SameValues(restarted, blocked);
    PlainForever(restarted, 0, n, isApproval);
  }

  lemma SameValues(a: State, b: State)
    requires a.reports == b.reports
    ensures Values(a) == Values(b)
  {
  }
}
