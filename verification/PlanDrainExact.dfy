/** When a pulse stops. */
module PlanDrainExact {
  import opened Plan
  import opened PlanRuns
  import opened PlanRunsExact
  import opened PlanDrain

  /* ---- Reasons to stop ---- */

  /** The step at `i` is the first one that is ready. */
  ghost predicate FirstInLine(steps: seq<PlanStep>, i: nat) {
    i < |steps| && IsReady(steps, steps[i]) && forall j :: 0 <= j < i ==> !IsReady(steps, steps[j])
  }

  lemma FirstReadyIs(steps: seq<PlanStep>, i: nat)
    requires FirstInLine(steps, i)
    ensures FirstReady(steps) == steps[i].id && !NoneReady(steps)
  {
    var ready := ReadyIndices(steps);
    forall j | 0 <= j <= i
      ensures Ready(steps[j], CompletedIds(steps)) <==> IsReady(steps, steps[j])
    {
      ReadyIs(steps, steps[j]);
    }
    hide IsReady, Ready, CompletedIds, ReadyUpTo;
    assert i in ready;
    assert ready[0] in ready;
    var p :| 0 <= p < |ready| && ready[p] == i;
    assert ready[0] == i;
  }

  lemma NothingInLine(steps: seq<PlanStep>)
    requires NoneReady(steps)
    ensures FirstReady(steps) == ""
  {
    NoneReadyIs(steps);
  }

  lemma SomethingInLine(steps: seq<PlanStep>) returns (i: nat)
    requires !NoneReady(steps)
    ensures FirstInLine(steps, i)
  {
    hide IsReady;
    i := 0;
    while !IsReady(steps, steps[i])
      invariant i < |steps| && !NoneReady(steps) && forall j :: 0 <= j < i ==> !IsReady(steps, steps[j])
      decreases |steps| - i
    {
      i := i + 1;
    }
  }

  /** The id of the first step in line, none when no step is ready. */
  ghost predicate InLine(steps: seq<PlanStep>, id: string) {
    if NoneReady(steps) then id == "" else exists i: nat :: FirstInLine(steps, i) && steps[i].id == id
  }

  lemma InLineIs(steps: seq<PlanStep>, id: string)
    ensures InLine(steps, id) <==> FirstReady(steps) == id
  {
    hide IsReady, FirstReady, NoneReady;
    if NoneReady(steps) {
      NothingInLine(steps);
    } else {
      var i := SomethingInLine(steps);
      FirstReadyIs(steps, i);
      if InLine(steps, id) {
        var j: nat :| FirstInLine(steps, j) && steps[j].id == id;
        FirstReadyIs(steps, j);
      }
    }
  }

  /** One step with an id is first in line in all three plans. */
  ghost predicate SameInLine(a: seq<PlanStep>, b: seq<PlanStep>, c: seq<PlanStep>) {
    exists id :: id != "" && InLine(a, id) && InLine(b, id) && InLine(c, id)
  }

  /** A pulse stops after burst `m` exactly when a step of that burst failed or was interrupted, every step is completed,
      the reply was canned, no step is ready, the same step was first in line before the last two bursts and still
      is, or it was the eighth burst. */
  lemma StopsExactly(steps: seq<PlanStep>, pulse: Pulse, m: nat)
    requires m > 0
    ensures Stops(steps, pulse, m) <==>
      || BurstFails(Bursts(steps, pulse, m - 1), pulse.isApproval, pulse.maxRuns, pulse.outcomes(m - 1))
      || (Bursts(steps, pulse, m) != [] && forall s :: s in Bursts(steps, pulse, m) ==> s.status == Completed)
      || pulse.canned(m - 1)
      || NoneReady(Bursts(steps, pulse, m))
      || (m >= 2 && SameInLine(Bursts(steps, pulse, m - 2), Bursts(steps, pulse, m - 1), Bursts(steps, pulse, m)))
      || m == 8
  {
    hide BurstFails, Bursts;
    var now := Bursts(steps, pulse, m);
    NoneReadyIs(now);
    AllCompletedIs(now);
    hide NoneReady, ReadyIndices, AllCompleted;
    if m >= 2 {
      SameInLineIs(Bursts(steps, pulse, m - 2), Bursts(steps, pulse, m - 1), now);
    }
    hide SameInLine, FirstReady;
  }

  lemma AllCompletedIs(steps: seq<PlanStep>)
    ensures AllCompleted(steps) <==> steps != [] && forall s :: s in steps ==> s.status == Completed
  {
    if AllCompleted(steps) {
      forall s | s in steps
        ensures s.status == Completed
      {
        var k :| 0 <= k < |steps| && steps[k] == s;
      }
    }
  }

  lemma SameInLineIs(a: seq<PlanStep>, b: seq<PlanStep>, c: seq<PlanStep>)
    ensures SameInLine(a, b, c) <==> FirstReady(c) != "" && FirstReady(a) == FirstReady(c) && FirstReady(b) == FirstReady(c)
  {
    hide InLine, FirstReady;
    forall id
      ensures InLine(a, id) <==> FirstReady(a) == id
      ensures InLine(b, id) <==> FirstReady(b) == id
      ensures InLine(c, id) <==> FirstReady(c) == id
    {
      InLineIs(a, id);
      InLineIs(b, id);
      InLineIs(c, id);
    }
    if FirstReady(c) != "" && FirstReady(a) == FirstReady(c) && FirstReady(b) == FirstReady(c) {
      assert InLine(a, FirstReady(c)) && InLine(b, FirstReady(c)) && InLine(c, FirstReady(c));
    }
  }
}
