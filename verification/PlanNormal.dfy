/** `normalizePlanSteps`: cleaning the steps a model proposes. */
module PlanNormal {
  import opened Plan
  import opened PlanGraph
  import opened PlanExecution
  import opened PlanExecutionLaws
  import PlanRuns
  import PlanRunsLaws

  const MAX_STEPS: nat := 5

  datatype RawStep = RawStep(id: string, title: string, description: string, dependencies: seq<string>, result: string)

  /** Trimming and collapsing of white space. */
  type Collapse = string -> string

  /* ---- Specification ---- */

  function TaskId(n: nat): (id: string)
    requires 1 <= n <= MAX_STEPS
    ensures id != ""
    ensures |id| == 6 && id[5] as int == '0' as int + n
  {
    "task_" + [('0' as int + n) as char]
  }

  predicate HasText(step: RawStep, collapse: Collapse) {
    collapse(step.description) != "" || collapse(step.title) != ""
  }

  function Ids(steps: seq<PlanStep>): (ids: seq<string>)
    ensures |ids| == |steps| && forall i :: 0 <= i < |steps| ==> ids[i] == steps[i].id
  {
    seq(|steps|, i requires 0 <= i < |steps| => steps[i].id)
  }

  function IdFor(proposed: string, taken: seq<string>): string
    requires |taken| < MAX_STEPS
  {
    if proposed == "" || proposed in taken then TaskId(|taken| + 1) else proposed
  }

  /** Collapsed dependencies, without empty ones, repeats and the step itself. */
  function CleanDeps(deps: seq<string>, id: string, collapse: Collapse): seq<string> {
    if deps == [] then []
    else
      var rest, d := CleanDeps(deps[..|deps| - 1], id, collapse), collapse(deps[|deps| - 1]);
      if d == "" || d == id || d in rest then rest else rest + [d]
  }

  function Known(deps: seq<string>, ids: seq<string>): seq<string> {
    if deps == [] then []
    else
      var rest, d := Known(deps[..|deps| - 1], ids), deps[|deps| - 1];
      if d in ids then rest + [d] else rest
  }

  /** The first five steps with a text, before unknown dependencies are dropped. */
  function Gathered(raw: seq<RawStep>, collapse: Collapse): (out: seq<PlanStep>)
    ensures |out| <= MAX_STEPS
  {
    if raw == [] then []
    else
      var out, step := Gathered(raw[..|raw| - 1], collapse), raw[|raw| - 1];
      if |out| >= MAX_STEPS || !HasText(step, collapse) then out
      else
        var id := IdFor(collapse(step.id), Ids(out));
        out + [PlanStep(id, CleanDeps(step.dependencies, id, collapse), Pending, step.result)]
  }

  function KnownOnly(steps: seq<PlanStep>): (out: seq<PlanStep>)
    ensures |out| == |steps|
    ensures forall i :: 0 <= i < |steps| ==> out[i] == steps[i].(dependencies := Known(steps[i].dependencies, Ids(steps)))
  {
    seq(|steps|, i requires 0 <= i < |steps| => steps[i].(dependencies := Known(steps[i].dependencies, Ids(steps))))
  }

  function Normalized(raw: seq<RawStep>, collapse: Collapse): seq<PlanStep> {
    KnownOnly(Gathered(raw, collapse))
  }

  /* ---- The loops ---- */

  method CleanDependencies(deps: seq<string>, id: string, collapse: Collapse) returns (clean: seq<string>)
    ensures clean == CleanDeps(deps, id, collapse)
  {
    clean := [];
    for i := 0 to |deps|
      invariant clean == CleanDeps(deps[..i], id, collapse)
    {
      assert deps[..i + 1][..i] == deps[..i];
      var dep := collapse(deps[i]);
      if dep == "" || dep == id || dep in clean {
        continue;
      }
      clean := clean + [dep];
    }
    assert deps[..|deps|] == deps;
  }

  method FilterKnown(deps: seq<string>, ids: seq<string>) returns (filtered: seq<string>)
    ensures filtered == Known(deps, ids)
  {
    filtered := [];
    for i := 0 to |deps|
      invariant filtered == Known(deps[..i], ids)
    {
      assert deps[..i + 1][..i] == deps[..i];
      if deps[i] in ids {
        filtered := filtered + [deps[i]];
      }
    }
    assert deps[..|deps|] == deps;
  }

  lemma {:induction false} GatheredFull(raw: seq<RawStep>, collapse: Collapse, n: nat)
    requires n <= |raw| && |Gathered(raw[..n], collapse)| == MAX_STEPS
    ensures Gathered(raw, collapse) == Gathered(raw[..n], collapse)
  {
    if n < |raw| {
      assert raw[..|raw| - 1][..n] == raw[..n];
      GatheredFull(raw[..|raw| - 1], collapse, n);
    } else {
      assert raw[..n] == raw;
    }
  }

  method Gather(raw: seq<RawStep>, collapse: Collapse) returns (out: seq<PlanStep>)
    ensures out == Gathered(raw, collapse)
  {
    hide CleanDeps, HasText, IdFor;
    out := [];
    for i := 0 to |raw|
      invariant out == Gathered(raw[..i], collapse)
    {
      assert raw[..i + 1][..i] == raw[..i];
      if |out| >= MAX_STEPS {
        GatheredFull(raw, collapse, i);
        return;
      }
      var step := raw[i];
      if !HasText(step, collapse) {
        continue;
      }
      var id := IdFor(collapse(step.id), Ids(out));
      var deps := CleanDependencies(step.dependencies, id, collapse);
      out := out + [PlanStep(id, deps, Pending, step.result)];
    }
    assert raw[..|raw|] == raw;
  }

  method NormalizePlanSteps(raw: seq<RawStep>, collapse: Collapse) returns (out: seq<PlanStep>)
    ensures out == Normalized(raw, collapse)
  {
    hide Gathered, Known;
    out := Gather(raw, collapse);
    ghost var gathered := out;
    var ids := Ids(out);
    for i := 0 to |out|
      invariant |out| == |gathered|
      invariant forall j :: i <= j < |out| ==> out[j] == gathered[j]
      invariant forall j :: 0 <= j < i ==> out[j] == KnownOnly(gathered)[j]
    {
      var deps := FilterKnown(out[i].dependencies, ids);
      out := out[i := out[i].(dependencies := deps)];
    }
  }

  /* ---- Dependencies ---- */

  ghost predicate NoRepeats(s: seq<string>) {
    s == [] || (NoRepeats(s[..|s| - 1]) && s[|s| - 1] !in s[..|s| - 1])
  }

  lemma {:induction false} CleanDepsAreClean(deps: seq<string>, id: string, collapse: Collapse)
    ensures id !in CleanDeps(deps, id, collapse) && NoRepeats(CleanDeps(deps, id, collapse))
  {
    if deps != [] {
      CleanDepsAreClean(deps[..|deps| - 1], id, collapse);
      var rest, d := CleanDeps(deps[..|deps| - 1], id, collapse), collapse(deps[|deps| - 1]);
      assert (rest + [d])[..|rest|] == rest;
    }
  }

  lemma {:induction false} KnownKeeps(deps: seq<string>, ids: seq<string>)
    ensures forall d :: d in Known(deps, ids) <==> d in deps && d in ids
    ensures NoRepeats(deps) ==> NoRepeats(Known(deps, ids))
  {
    if deps != [] {
      KnownKeeps(deps[..|deps| - 1], ids);
      var rest, d := Known(deps[..|deps| - 1], ids), deps[|deps| - 1];
      assert deps == deps[..|deps| - 1] + [d];
      assert (rest + [d])[..|rest|] == rest;
    }
  }

  lemma {:induction false} GatheredIsClean(raw: seq<RawStep>, collapse: Collapse, i: nat)
    requires i < |Gathered(raw, collapse)|
    ensures var step := Gathered(raw, collapse)[i];
      step.status == Pending && step.id !in step.dependencies && NoRepeats(step.dependencies)
  {
    hide IdFor, HasText, CleanDeps, NoRepeats;
    var k := |raw| - 1;
    var out := Gathered(raw[..k], collapse);
    if i < |out| {
      GatheredIsClean(raw[..k], collapse, i);
    } else {
      CleanDepsAreClean(raw[k].dependencies, IdFor(collapse(raw[k].id), Ids(out)), collapse);
    }
  }

  /** A normalized plan is pending, depends on known steps only, and no step depends on itself or twice
      on the same step. */
  lemma NormalizedShape(raw: seq<RawStep>, collapse: Collapse)
    ensures var out := Normalized(raw, collapse);
      && |out| <= MAX_STEPS && AllPending(out) && KnownDependencies(out)
      && forall i :: 0 <= i < |out| ==> out[i].id !in out[i].dependencies && NoRepeats(out[i].dependencies)
  {
    hide Gathered, Known, NoRepeats;
    var gathered, out := Gathered(raw, collapse), Normalized(raw, collapse);
    forall i | 0 <= i < |out|
      ensures out[i].status == Pending && out[i].id !in out[i].dependencies && NoRepeats(out[i].dependencies)
      ensures forall d :: d in out[i].dependencies ==> d in Ids(gathered)
    {
      GatheredIsClean(raw, collapse, i);
      KnownKeeps(gathered[i].dependencies, Ids(gathered));
    }
    forall i, d | 0 <= i < |out| && d in out[i].dependencies
      ensures exists j :: 0 <= j < |out| && out[j].id == d
    {
      var j :| 0 <= j < |gathered| && Ids(gathered)[j] == d;
      assert out[j].id == d;
    }
  }

  /* ---- Ids ---- */

  /** The collapsed ids of the steps that are kept. */
  function ProposedIds(raw: seq<RawStep>, collapse: Collapse): (ids: seq<string>)
    ensures |ids| <= MAX_STEPS
  {
    if raw == [] then []
    else
      var ids, step := ProposedIds(raw[..|raw| - 1], collapse), raw[|raw| - 1];
      if |ids| >= MAX_STEPS || !HasText(step, collapse) then ids else ids + [collapse(step.id)]
  }

  /** The ids the steps get for the proposed ones. */
  function Assigned(proposed: seq<string>): (ids: seq<string>)
    requires |proposed| <= MAX_STEPS
    ensures |ids| == |proposed|
  {
    if proposed == [] then []
    else
      var k := |proposed| - 1;
      Assigned(proposed[..k]) + [IdFor(proposed[k], Assigned(proposed[..k]))]
  }

  lemma {:induction false} IdsAreAssigned(raw: seq<RawStep>, collapse: Collapse)
    ensures Ids(Gathered(raw, collapse)) == Assigned(ProposedIds(raw, collapse))
  {
    hide IdFor, HasText, CleanDeps;
    if raw != [] {
      var k := |raw| - 1;
      IdsAreAssigned(raw[..k], collapse);
      var ids := ProposedIds(raw[..k], collapse);
      assert (ids + [collapse(raw[k].id)])[..|ids|] == ids;
    }
  }

  /** No step that falls back to `task_n` finds that id proposed by an earlier step. */
  ghost predicate NoClash(proposed: seq<string>)
    requires |proposed| <= MAX_STEPS
  {
    proposed == [] ||
    var k := |proposed| - 1;
    && NoClash(proposed[..k])
    && (proposed[k] == "" || proposed[k] in Assigned(proposed[..k]) ==> TaskId(k + 1) !in proposed[..k])
  }

  lemma {:induction false} WhereAssigned(proposed: seq<string>, n: nat)
    requires |proposed| < n <= MAX_STEPS
    ensures TaskId(n) in Assigned(proposed) <==> TaskId(n) in proposed
  {
    if proposed != [] {
      var k := |proposed| - 1;
      WhereAssigned(proposed[..k], n);
      assert TaskId(n) != TaskId(k + 1);
      assert proposed == proposed[..k] + [proposed[k]];
    }
  }

  lemma {:induction false} AssignedDistinct(proposed: seq<string>)
    requires |proposed| <= MAX_STEPS
    ensures NoRepeats(Assigned(proposed)) <==> NoClash(proposed)
  {
    hide TaskId;
    if proposed != [] {
      var k := |proposed| - 1;
      AssignedDistinct(proposed[..k]);
      WhereAssigned(proposed[..k], k + 1);
      var ids, id := Assigned(proposed[..k]), IdFor(proposed[k], Assigned(proposed[..k]));
      assert (ids + [id])[..k] == ids;
    }
  }

  lemma {:induction false} RepeatsAreEqual(s: seq<string>)
    ensures NoRepeats(s) <==> forall i, j :: 0 <= i < j < |s| ==> s[i] != s[j]
  {
    if s != [] {
      var k := |s| - 1;
      RepeatsAreEqual(s[..k]);
      if s[k] in s[..k] {
        var i :| 0 <= i < k && s[..k][i] == s[k];
        assert s[i] == s[k];
      }
      assert forall i :: 0 <= i < k ==> s[..k][i] == s[i] && s[i] in s[..k];
    }
  }

  /** Exactly when the ids of a normalized plan are distinct. */
  lemma NormalizedDistinct(raw: seq<RawStep>, collapse: Collapse)
    ensures DistinctIds(Normalized(raw, collapse)) <==> NoClash(ProposedIds(raw, collapse))
  {
    hide Gathered, Known, NoRepeats, NoClash, Assigned, ProposedIds;
    var gathered := Gathered(raw, collapse);
    IdsAreAssigned(raw, collapse);
    AssignedDistinct(ProposedIds(raw, collapse));
    RepeatsAreEqual(Ids(gathered));
    assert forall i :: 0 <= i < |gathered| ==> Normalized(raw, collapse)[i].id == Ids(gathered)[i];
  }

  lemma RepeatClashes()
    ensures !NoClash([TaskId(2), TaskId(2)])
  {
    hide TaskId;
    var ids := [TaskId(2), TaskId(2)];
    assert ids[..1] == [TaskId(2)] && [TaskId(2)][..0] == [];
    assert Assigned([TaskId(2)]) == [TaskId(2)];
  }

  lemma ProposedTwice(step: RawStep, collapse: Collapse)
    requires HasText(step, collapse)
    ensures ProposedIds([step, step], collapse) == [collapse(step.id), collapse(step.id)]
  {
    hide HasText;
    var raw := [step, step];
    assert raw[..1] == [step] && [step][..0] == [];
    assert ProposedIds([step], collapse) == [collapse(step.id)];
  }

  /** Two steps that both propose `task_2` keep the same id. */
  lemma RepeatedTaskId(collapse: Collapse, text: string) returns (raw: seq<RawStep>)
    requires collapse(text) != "" && collapse("task_2") == "task_2"
    ensures |raw| == 2 && !DistinctIds(Normalized(raw, collapse))
  {
    hide NoClash, Normalized, ProposedIds, DistinctIds;
    var step := RawStep("task_2", text, "", [], "");
    raw := [step, step];
    ProposedTwice(step, collapse);
    assert TaskId(2) == "task_2";
    RepeatClashes();
    NormalizedDistinct(raw, collapse);
  }

  /** Of a normalized plan with distinct ids, an executor that never fails runs every step unless the
      dependencies form a cycle. */
  lemma NormalizedVerdict(raw: seq<RawStep>, collapse: Collapse, after: seq<PlanStep>, outcomes: nat -> Outcome,
                          verdict: Verdict, trace: seq<nat>)
    requires Execution(Normalized(raw, collapse), after, outcomes, verdict, trace)
    requires NoClash(ProposedIds(raw, collapse)) && Normalized(raw, collapse) != [] && forall k :: outcomes(k).Ok?
    ensures verdict == (if Acyclic(Normalized(raw, collapse)) then Done else Deadlock)
    ensures verdict == Done ==> |trace| == |Normalized(raw, collapse)|
  {
    hide Execution, Normalized, NoClash, ProposedIds, Acyclic;
    NormalizedShape(raw, collapse);
    NormalizedDistinct(raw, collapse);
    PendingPlanVerdict(Normalized(raw, collapse), after, outcomes, verdict, trace);
  }

  /** One more step with a text: the id it gets and its dependencies. */
  lemma GatheredSnoc(raw: seq<RawStep>, step: RawStep, collapse: Collapse, out: seq<PlanStep>, taken: seq<string>,
                     id: string)
    requires Gathered(raw, collapse) == out && Ids(out) == taken && |out| < MAX_STEPS && HasText(step, collapse)
    requires id == IdFor(collapse(step.id), taken)
    ensures var all := out + [PlanStep(id, CleanDeps(step.dependencies, id, collapse), Pending, step.result)];
      Gathered(raw + [step], collapse) == all && Ids(all) == taken + [id]
  {
    hide HasText, IdFor, CleanDeps;
    assert (raw + [step])[..|raw|] == raw;
  }

  lemma OneDependency(d: string, id: string, collapse: Collapse, ids: seq<string>)
    requires collapse(d) == d && d != "" && d != id && d in ids
    ensures CleanDeps([d], id, collapse) == [d] && Known([d], ids) == [d]
    ensures CleanDeps([], id, collapse) == [] && Known([], ids) == []
  {
    assert [d][..0] == [];
  }

  /** Two steps that propose `t`, the first of which waits for `y`, and a step that proposes `y`. */
  function Three(t: string, y: string, text: string): seq<RawStep> {
    [RawStep(t, text, "", [y], ""), RawStep(t, text, "", [], ""), RawStep(y, text, "", [], "")]
  }

  lemma ThreeIds(t: string, y: string, text: string, collapse: Collapse)
    requires t == TaskId(2) && y != t && y != ""
    ensures Gathered([], collapse) == [] && Ids([]) == []
    ensures IdFor(t, []) == t && IdFor(t, [t]) == t && IdFor(y, [t, t]) == y
    ensures var a, b, c := RawStep(t, text, "", [y], ""), RawStep(t, text, "", [], ""), RawStep(y, text, "", [], "");
      Three(t, y, text) == [a, b] + [c]
  {
    hide TaskId;
  }

  lemma GatheredThree(t: string, y: string, text: string, collapse: Collapse)
    requires t == TaskId(2) && y != t && y != "" && collapse(t) == t && collapse(y) == y && collapse(text) != ""
    ensures Gathered(Three(t, y, text), collapse) ==
      [PlanStep(t, [y], Pending, ""), PlanStep(t, [], Pending, ""), PlanStep(y, [], Pending, "")]
  {
    var a, b, c := RawStep(t, text, "", [y], ""), RawStep(t, text, "", [], ""), RawStep(y, text, "", [], "");
    var p, q := PlanStep(t, [y], Pending, ""), PlanStep(t, [], Pending, "");
    assert HasText(a, collapse) && HasText(b, collapse) && HasText(c, collapse);
    ThreeIds(t, y, text, collapse);
    OneDependency(y, t, collapse, [y]);
    OneDependency(t, y, collapse, [t]);
    hide *;
    assert [] + [a] == [a] && [a] + [b] == [a, b];
    GatheredSnoc([], a, collapse, [], [], t);
    assert [] + [p] == [p] && [] + [t] == [t];
    GatheredSnoc([a], b, collapse, [p], [t], t);
    assert [p] + [q] == [p, q] && [t] + [t] == [t, t];
    GatheredSnoc([a, b], c, collapse, [p, q], [t, t], y);
  }

  lemma NormalizedThree(t: string, y: string, text: string, collapse: Collapse)
    requires t == TaskId(2) && y != t && y != "" && collapse(t) == t && collapse(y) == y && collapse(text) != ""
    ensures Normalized(Three(t, y, text), collapse) == Gathered(Three(t, y, text), collapse)
  {
    GatheredThree(t, y, text, collapse);
    var steps := [PlanStep(t, [y], Pending, ""), PlanStep(t, [], Pending, ""), PlanStep(y, [], Pending, "")];
    assert Ids(steps) == [t, t, y];
    OneDependency(y, t, collapse, [t, t, y]);
    hide Gathered, TaskId, Known;
  }

  /** The plan with a repeated id whose burst breaks the invariant is a normalized one. */
  lemma RepeatedPlanIsNormalized(collapse: Collapse, text: string) returns (raw: seq<RawStep>)
    requires collapse(text) != "" && collapse("task_2") == "task_2" && collapse("y") == "y"
    ensures Normalized(raw, collapse) == PlanRunsLaws.RepeatedPlan()
  {
    var t := "task_2";
    assert TaskId(2) == t && t != "y";
    raw := Three(t, "y", text);
    hide Normalized, TaskId, Gathered, Three;
    GatheredThree(t, "y", text, collapse);
    NormalizedThree(t, "y", text, collapse);
  }

  /** A normalized plan with distinct ids is sound, and stays so over every run of bursts, resumes that come
      in time and reopen operations. */
  lemma NormalizedRunSound(raw: seq<RawStep>, collapse: Collapse, events: seq<PlanRunsLaws.Event>, isApproval: ApprovalTest)
    requires NoClash(ProposedIds(raw, collapse))
    requires PlanRunsLaws.AllInTime(Normalized(raw, collapse), events, isApproval)
    ensures var steps := Normalized(raw, collapse); var after := PlanRunsLaws.Run(steps, events, isApproval);
      PlanRunsLaws.Sound(steps) && PlanRunsLaws.Sound(after) && PlanRuns.SameGraph(steps, after)
  {
    hide Normalized, NoClash, ProposedIds, KnownDependencies, PlanRunsLaws.AllInTime, PlanRunsLaws.Run;
    NormalizedShape(raw, collapse);
    NormalizedDistinct(raw, collapse);
    hide DistinctIds;
    PlanRunsLaws.RunSound(Normalized(raw, collapse), events, isApproval);
  }
}
