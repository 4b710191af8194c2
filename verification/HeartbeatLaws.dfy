/** What every run of heartbeat cycles and operator writes keeps about the fail counter of a mission. */
module HeartbeatLaws {
  import opened Plan
  import opened StallLog
  import opened Missions
  import opened Heartbeat

  /* ---- The operator reset ---- */

  /** In the row, a restart clears both counters; a rewind to zero reopens every step, any other restart exactly the
      failed steps that do not wait for an approval; and without a restart nothing of the kind happens. */
  lemma ResetExactly(row: Mission, t: Mission, isApproval: ApprovalTest)
    ensures var after := Updated(row, t, isApproval); var plan := if t.plan.Some? then t.plan else row.plan;
      && (IsReset(row, t) ==> after.failCount == 0 && after.stalledCycles == 0)
      && (!IsReset(row, t) ==> after.failCount == t.failCount && after.stalledCycles == t.stalledCycles && after.plan == plan)
      && (after.plan.Some? <==> plan.Some?)
      && (plan.Some? ==> |after.plan.value| == |plan.value|)
      && (plan.Some? && IsReset(row, t) ==> forall i :: 0 <= i < |plan.value| ==>
        after.plan.value[i] ==
          if Rewinds(row, t) then plan.value[i].(status := Pending, result := "")
          else if plan.value[i].status == Failed && !isApproval(plan.value[i].result) then plan.value[i].(status := Pending)
          else plan.value[i])
  {
  }

  /* ---- The fail counter ---- */

  /** A mission that can still be run has failed less than three times. */
  predicate Safe(m: Mission) {
    (m.status == Waiting || m.status == Running || m.status == Done) ==> m.failCount < FAIL_LIMIT
  }

  /** The state of a mission while its cycle runs. */
  predicate InCycle(m: Mission) {
    !Stopped(m.status) && m.failCount < FAIL_LIMIT
  }

  /** The plan writes of a cycle leave the fail counter alone. */
  lemma {:induction false} WritesStayInCycle(row: Mission, writes: seq<seq<PlanStep>>, isApproval: ApprovalTest)
    requires InCycle(row)
    ensures InCycle(AfterWrites(row, writes, isApproval))
    ensures AfterWrites(row, writes, isApproval).failCount == row.failCount
  {
    hide AllCompleted, Percent;
    if writes != [] {
      WritesStayInCycle(row, writes[..|writes| - 1], isApproval);
    }
  }

  /** The copy of the mission that the drain loaded at its start says what the row says. */
  predicate CopyOf(copy: Mission, row: Mission) {
    row == copy.(finished := row.finished) && (row.finished <==> copy.finished || row.status == Done)
  }

  /** A burst writes its plan to the row as it stands, and the drain writes the same plan again from its own
      copy: the second write changes nothing, and the copy keeps saying what the row says. */
  lemma DrainWriteChangesNothing(row: Mission, copy: Mission, steps: seq<PlanStep>, isApproval: ApprovalTest)
    requires !Stopped(row.status) && CopyOf(copy, row)
    ensures var after := Updated(row, Written(row, steps), isApproval);
      Updated(after, Written(copy, steps), isApproval) == after && CopyOf(Written(copy, steps), after)
  {
    hide AllCompleted, Percent;
  }

  /** What a cycle writes back is never taken for a restart by the operator. */
  lemma PersistKeeps(row: Mission, t: Mission, isApproval: ApprovalTest)
    requires !Stopped(row.status)
    ensures !IsReset(row, Adopted(t, row))
    ensures Persisted(row, t, isApproval).failCount == t.failCount && Persisted(row, t, isApproval).status == t.status
  {
  }

  /** The failures a reply or an error adds. */
  predicate FailsAgain(before: Mission, after: Mission) {
    after.failCount == before.failCount + 1 && (after.failCount >= FAIL_LIMIT ==> after.status == Blocked)
  }

  /** The reply brings nothing: canned or empty, without a finished plan and without a deliverable. */
  predicate BringsNothing(t: Mission, r: Reply) {
    r.canned && !PlanDone(t) && (PlanOpen(t) || !r.wrote)
  }

  /** When a reply completes a running mission, blocks it or counts as a failure.  An open plan is never
      completed by a reply, whatever it writes or claims; progress never falls. */
  lemma ReplyDecides(t: Mission, r: Reply)
    requires t.status == Running
    ensures var after := AfterReply(t, r); var nothing := BringsNothing(t, r);
      && (after.status == Done <==>
        PlanDone(t) || (!PlanOpen(t) && (r.wrote || (!r.canned && r.claimsDone && r.verified))))
      && (after.status == Blocked <==>
        if nothing then t.failCount + 1 >= FAIL_LIMIT
        else !PlanOpen(t) && !PlanDone(t) && !r.wrote && !r.claimsDone && r.claimsBlocked)
      && (after.status == Running || after.status == Done || after.status == Blocked)
      && after.failCount == (if nothing then t.failCount + 1 else if after.status == Done then 0 else t.failCount)
      && (after.status == Done ==> after.progress == 100)
      && (after.status != Done ==> t.progress <= after.progress)
      && after.plan == t.plan && after.finished == t.finished
  {
    hide AllCompleted, Percent;
  }

  lemma ReplyCounts(t: Mission, r: Reply, past: seq<Report>)
    requires t.status == Running && t.failCount < FAIL_LIMIT
    ensures var after := StallTracked(AfterReply(t, r), past);
      && Safe(after)
      && (FailsAgain(t, after) || after.failCount == t.failCount || (after.status == Done && after.failCount == 0))
      && (after.status == Running || after.status == Blocked || after.status == Done)
  {
    ReplyDecides(t, r);
    hide AfterReply, BringsNothing, Streak, Stalled;
  }

  /** One cycle: a mission that can be run again afterwards has failed less than three times; a failed
      run counts once and blocks the mission at the third; and the counter falls only with completion. */
  lemma CycleCounts(row: Mission, writes: seq<seq<PlanStep>>, outcome: CycleOutcome, past: seq<Report>,
      isApproval: ApprovalTest)
    requires row.status == Waiting || row.status == Running
    requires Safe(row)
    ensures var after := Cycle(row, writes, outcome, past, isApproval);
      && Safe(after)
      && (outcome == FatalFailure ==>
        FailsAgain(row, after) && (after.failCount < FAIL_LIMIT ==> after.status == Running))
      && (FailsAgain(row, after) || after.failCount == row.failCount || (after.status == Done && after.failCount == 0))
  {
    var t := row.(status := Running);
    assert InCycle(Updated(row, t, isApproval)) && Updated(row, t, isApproval).failCount == row.failCount;
    WritesStayInCycle(Updated(row, t, isApproval), writes, isApproval);
    var now := AfterWrites(Updated(row, t, isApproval), writes, isApproval);
    var t1 := Adopted(t, now);
    assert t1.status == Running && t1.failCount == row.failCount;
    hide Updated, AfterWrites, Adopted, AfterReply, StallTracked, Persisted, IsReset;
    match outcome
    case ApprovalPause => PersistKeeps(now, t1, isApproval);
    case TransientFailure => PersistKeeps(now, t1, isApproval);
    case FatalFailure => PersistKeeps(now, FailedOnce(t1), isApproval);
    case NoReply =>
    case Answer(r) =>
      ReplyCounts(t1, r, past);
      PersistKeeps(now, StallTracked(AfterReply(t1, r), past), isApproval);
  }

  /* ---- Operator writes ---- */

  /** A restart, or a write whose own fail counter is below the limit or whose status stops the mission. */
  predicate SafeWrite(row: Mission, t: Mission) {
    IsReset(row, t) || t.failCount < FAIL_LIMIT || (t.status != Waiting && t.status != Running && t.status != Done)
  }

  /** Exactly which writes over any row leave a mission that waits, runs or is done below the limit. */
  lemma WriteSafeExactly(row: Mission, t: Mission, isApproval: ApprovalTest)
    ensures Safe(Updated(row, t, isApproval)) <==> SafeWrite(row, t)
  {
    ResetExactly(row, t, isApproval);
  }

  /* ---- Whole runs ---- */

  /** A cycle, any write of an operator, or a new start of the daemon, which forgets all reports. */
  datatype Event = CycleEvent(writes: seq<seq<PlanStep>>, outcome: CycleOutcome) | WriteEvent(task: Mission) | DaemonStart

  datatype State = State(row: Mission, reports: seq<Report>)

  /** Cycles take missions that wait or run; everything else can happen at any time. */
  predicate Enabled(s: State, e: Event) {
    e.CycleEvent? ==> s.row.status == Waiting || s.row.status == Running
  }

  function Next(s: State, e: Event, isApproval: ApprovalTest): State {
    match e
    case CycleEvent(writes, outcome) =>
      State(Cycle(s.row, writes, outcome, s.reports, isApproval),
            ReportsAfter(s.row, writes, outcome, s.reports, isApproval))
    case WriteEvent(t) => State(Updated(s.row, t, isApproval), s.reports)
    case DaemonStart => s.(reports := [])
  }

  ghost predicate AllEnabled(s: State, events: seq<Event>, isApproval: ApprovalTest)
    decreases |events|
  {
    events == [] || (Enabled(s, events[0]) && AllEnabled(Next(s, events[0], isApproval), events[1..], isApproval))
  }

  /** Every operator write of the run is a safe one. */
  ghost predicate WritesSafe(s: State, events: seq<Event>, isApproval: ApprovalTest)
    decreases |events|
  {
    events == [] ||
    ((events[0].WriteEvent? ==> SafeWrite(s.row, events[0].task)) &&
     WritesSafe(Next(s, events[0], isApproval), events[1..], isApproval))
  }

  ghost function Run(s: State, events: seq<Event>, isApproval: ApprovalTest): State
    decreases |events|
  {
    if events == [] then s else Run(Next(s, events[0], isApproval), events[1..], isApproval)
  }

  /** Over every run of cycles, daemon starts and safe writes: a mission that waits or runs has failed less
      than three times. */
  lemma {:induction false} RunSafe(s: State, events: seq<Event>, isApproval: ApprovalTest)
    requires Safe(s.row) && AllEnabled(s, events, isApproval) && WritesSafe(s, events, isApproval)
    ensures Safe(Run(s, events, isApproval).row)
    decreases |events|
  {
    hide Cycle, ReportsAfter, Updated, Safe;
    if events != [] {
      match events[0] {
        case CycleEvent(writes, outcome) => CycleCounts(s.row, writes, outcome, s.reports, isApproval);
        case WriteEvent(t) => WriteSafeExactly(s.row, t, isApproval);
        case DaemonStart =>
      }
      RunSafe(Next(s, events[0], isApproval), events[1..], isApproval);
    }
  }

  /** The number of events of the run that raise the fail counter. */
  ghost function Failures(s: State, events: seq<Event>, isApproval: ApprovalTest): nat
    decreases |events|
  {
    if events == [] then 0
    else
      var next := Next(s, events[0], isApproval);
      (if next.row.failCount > s.row.failCount then 1 else 0) + Failures(next, events[1..], isApproval)
  }

  lemma {:induction false} NoMoreCycles(s: State, events: seq<Event>, isApproval: ApprovalTest)
    requires s.row.status != Waiting && s.row.status != Running && AllEnabled(s, events, isApproval)
    requires forall k :: 0 <= k < |events| ==> !events[k].WriteEvent?
    ensures Failures(s, events, isApproval) == 0
    decreases |events|
  {
    if events != [] {
      assert !events[0].WriteEvent?;
      NoMoreCycles(Next(s, events[0], isApproval), events[1..], isApproval);
    }
  }

  /** Without a write by the operator, at most as many cycles fail, with an error or with a reply that
      brings nothing, as are left to the limit. */
  lemma {:induction false} FailuresAreBounded(s: State, events: seq<Event>, isApproval: ApprovalTest)
    requires Safe(s.row) && s.row.failCount >= 0 && AllEnabled(s, events, isApproval)
    requires forall k :: 0 <= k < |events| ==> !events[k].WriteEvent?
    ensures Failures(s, events, isApproval) == 0 || Failures(s, events, isApproval) <= FAIL_LIMIT - s.row.failCount
    decreases |events|
  {
    hide Cycle, ReportsAfter, Updated;
    if events != [] {
      var e, next := events[0], Next(s, events[0], isApproval);
      assert !e.WriteEvent?;
      if e.CycleEvent? {
        CycleCounts(s.row, e.writes, e.outcome, s.reports, isApproval);
      }
      if next.row.status == Done {
        NoMoreCycles(next, events[1..], isApproval);
      } else {
        FailuresAreBounded(next, events[1..], isApproval);
      }
    }
  }

  /** An operator who writes a blocked mission as completed and then as running does not clear the counter. */
  lemma CompletedByHandKeepsCounter(isApproval: ApprovalTest)
    ensures var blocked := Mission(Blocked, 10, 3, 0, None, false);
      var done := Updated(blocked, blocked.(status := Done), isApproval);
      var again := Updated(done, done.(status := Running), isApproval);
      again.status == Running && again.failCount == 3
  {
  }
}
