/** What a normalised plan is made of, step by step. */
module PlanNormalExact {
  import opened Plan
  import opened Picking
  import opened PlanNormal

  /* ---- Dependencies ---- */

  /** The first dependency that collapses to `d`; the length when there is none. */
  ghost function FirstOf(deps: seq<string>, d: string, collapse: Collapse): (n: nat)
    ensures n <= |deps|
  {
    if deps == [] then 0
    else
      var k := |deps| - 1;
      var n := FirstOf(deps[..k], d, collapse);
      if n < k || collapse(deps[k]) == d then n else |deps|
  }

  lemma {:induction false} FirstOfIsFirst(deps: seq<string>, d: string, collapse: Collapse)
    ensures var n := FirstOf(deps, d, collapse);
      (n < |deps| ==> collapse(deps[n]) == d) && forall j :: 0 <= j < n ==> collapse(deps[j]) != d
  {
    if deps != [] {
      FirstOfIsFirst(deps[..|deps| - 1], d, collapse);
    }
  }

  /** Each dependency stands where it was named first. */
  ghost predicate InOrder(out: seq<string>, deps: seq<string>, collapse: Collapse) {
    forall a, b :: 0 <= a < b < |out| ==> FirstOf(deps, out[a], collapse) < FirstOf(deps, out[b], collapse)
  }

  /** Some dependency collapses to `d`. */
  ghost predicate Names(deps: seq<string>, d: string, collapse: Collapse) {
    exists k :: 0 <= k < |deps| && collapse(deps[k]) == d
  }

  lemma {:induction false} CleanDepsExactly(deps: seq<string>, id: string, collapse: Collapse)
    ensures forall d :: d in CleanDeps(deps, id, collapse) <==> d != "" && d != id && FirstOf(deps, d, collapse) < |deps|
    ensures InOrder(CleanDeps(deps, id, collapse), deps, collapse)
  {
    if deps != [] {
      CleanDepsExactly(deps[..|deps| - 1], id, collapse);
    }
  }

  lemma {:induction false} KnownExactly(deps: seq<string>, ids: seq<string>, all: seq<string>, collapse: Collapse)
    requires InOrder(deps, all, collapse)
    ensures forall d :: d in Known(deps, ids) <==> d in deps && d in ids
    ensures InOrder(Known(deps, ids), all, collapse)
  {
    if deps != [] {
      var k := |deps| - 1;
      KnownExactly(deps[..k], ids, all, collapse);
      hide FirstOf;
      forall x | x in deps[..k]
        ensures FirstOf(all, x, collapse) < FirstOf(all, deps[k], collapse)
      {
        var j :| 0 <= j < k && deps[j] == x;
      }
      assert deps == deps[..k] + [deps[k]];
    }
  }

  lemma NamesExactly(deps: seq<string>, d: string, collapse: Collapse)
    ensures Names(deps, d, collapse) <==> FirstOf(deps, d, collapse) < |deps|
  {
    FirstOfIsFirst(deps, d, collapse);
  }

  /* ---- Steps ---- */

  /** A proposed step has a title or a description. */
  ghost predicate Says(step: RawStep, collapse: Collapse) {
    collapse(step.title) != "" || collapse(step.description) != ""
  }

  /** The steps at `ps` are the first five that say something. */
  ghost predicate FirstFive(raw: seq<RawStep>, collapse: Collapse, ps: seq<nat>) {
    && Places(ps, |raw|) && |ps| <= 5
    && (forall i :: i in ps ==> i < |raw| && Says(raw[i], collapse))
    && (forall i: nat :: i < |raw| && Says(raw[i], collapse) && i !in ps ==>
      |ps| == 5 && forall k :: 0 <= k < 5 ==> ps[k] < i)
  }

  /** None of the first `k` steps has the id. */
  ghost predicate Free(out: seq<PlanStep>, k: nat, id: string)
    requires k <= |out|
  {
    forall j :: 0 <= j < k ==> out[j].id != id
  }

  /** Step `k` has its proposed id, unless that is empty or used by a step in front of it. */
  ghost predicate IdAt(out: seq<PlanStep>, k: nat, proposed: string)
    requires k < |out|
  {
    if proposed != "" && Free(out, k, proposed) then out[k].id == proposed
    else k < 5 && out[k].id == "task_" + ["12345"[k]]
  }

  ghost predicate GatheredAt(out: seq<PlanStep>, k: nat, step: RawStep, collapse: Collapse)
    requires k < |out|
  {
    && IdAt(out, k, collapse(step.id))
    && out[k].status == Pending && out[k].result == step.result
    && out[k].dependencies == CleanDeps(step.dependencies, out[k].id, collapse)
  }

  lemma GatheredOne(out: seq<PlanStep>, step: RawStep, collapse: Collapse)
    requires |out| < 5
    ensures var id := IdFor(collapse(step.id), Ids(out));
      var last := PlanStep(id, CleanDeps(step.dependencies, id, collapse), Pending, step.result);
      GatheredAt(out + [last], |out|, step, collapse)
  {
    hide CleanDeps;
    var proposed := collapse(step.id);
    var id := IdFor(proposed, Ids(out));
    var after := out + [PlanStep(id, CleanDeps(step.dependencies, id, collapse), Pending, step.result)];
    FreeMeans(out, after, proposed);
    hide Free;
    assert TaskId(|out| + 1) == "task_" + ["12345"[|out|]];
  }

  lemma FreeMeans(out: seq<PlanStep>, after: seq<PlanStep>, id: string)
    requires out <= after
    ensures Free(after, |out|, id) <==> id !in Ids(out)
  {
    if id in Ids(out) {
      var j :| 0 <= j < |out| && Ids(out)[j] == id;
      assert after[j].id == id;
    }
    assert forall j :: 0 <= j < |out| ==> after[j].id == Ids(out)[j];
  }

  lemma GatheredStays(out: seq<PlanStep>, last: PlanStep, k: nat, step: RawStep, collapse: Collapse)
    requires k < |out| && GatheredAt(out, k, step, collapse)
    ensures GatheredAt(out + [last], k, step, collapse)
  {
    hide CleanDeps;
    assert forall j :: 0 <= j <= k ==> (out + [last])[j] == out[j];
  }

  lemma FirstFiveGrows(raw: seq<RawStep>, collapse: Collapse, ps: seq<nat>, n: nat)
    requires n + 1 == |raw| && FirstFive(raw[..n], collapse, ps)
    ensures FirstFive(raw, collapse, if |ps| < 5 && Says(raw[n], collapse) then ps + [n] else ps)
  {
    assert forall i :: 0 <= i < n ==> raw[..n][i] == raw[i];
  }

  lemma {:induction false} GatheredExactly(raw: seq<RawStep>, collapse: Collapse) returns (ps: seq<nat>)
    ensures FirstFive(raw, collapse, ps) && |Gathered(raw, collapse)| == |ps|
    ensures forall k :: 0 <= k < |ps| ==> GatheredAt(Gathered(raw, collapse), k, raw[ps[k]], collapse)
  {
    ps := [];
    if raw != [] {
      var n := |raw| - 1;
      ps := GatheredExactly(raw[..n], collapse);
      var before := Gathered(raw[..n], collapse);
      FirstFiveGrows(raw, collapse, ps, n);
      hide CleanDeps, GatheredAt, FirstFive, IdFor;
      if |ps| < 5 && Says(raw[n], collapse) {
        GatheredOne(before, raw[n], collapse);
        var after := Gathered(raw, collapse);
        assert after == before + [after[|before|]];
        hide *;
        forall k | 0 <= k < |before|
          ensures ps[k] < n && GatheredAt(after, k, raw[ps[k]], collapse)
        {
          assert raw[..n][ps[k]] == raw[ps[k]];
          GatheredStays(before, after[|before|], k, raw[ps[k]], collapse);
        }
        ps := ps + [n];
      }
    }
  }

  /** The dependencies of a step: those it names, without empty ones and itself, that are ids of the plan; each once,
      in the order in which they are named first. */
  ghost predicate DependenciesAre(out: seq<PlanStep>, k: nat, deps: seq<string>, collapse: Collapse)
    requires k < |out|
  {
    && (forall d :: d in out[k].dependencies <==>
      d != "" && d != out[k].id && Names(deps, d, collapse) && exists j :: 0 <= j < |out| && out[j].id == d)
    && InOrder(out[k].dependencies, deps, collapse)
  }

  lemma KnownDependenciesAre(out: seq<PlanStep>, k: nat, before: seq<PlanStep>, deps: seq<string>, collapse: Collapse)
    requires k < |before| && out == KnownOnly(before) && before[k].dependencies == CleanDeps(deps, before[k].id, collapse)
    ensures DependenciesAre(out, k, deps, collapse)
  {
    var clean := CleanDeps(deps, before[k].id, collapse);
    CleanDepsExactly(deps, before[k].id, collapse);
    KnownExactly(clean, Ids(before), deps, collapse);
    hide CleanDeps, Known, InOrder, FirstOf;
    forall d {:trigger Names(deps, d, collapse)}
      ensures Names(deps, d, collapse) <==> FirstOf(deps, d, collapse) < |deps|
      ensures d in Ids(before) <==> exists j :: 0 <= j < |out| && out[j].id == d
    {
      NamesExactly(deps, d, collapse);
      hide Names;
      assert d in Ids(before) ==> exists j :: 0 <= j < |before| && Ids(before)[j] == d;
      assert forall j :: 0 <= j < |out| ==> out[j].id == Ids(before)[j];
    }
    hide Names;
  }

  /** A normalised plan consists of the first five proposed steps that say something: each pending, with its own
      result, its proposed id when that is free, and the dependencies it names that are steps of the plan. */
  lemma NormalizedExactly(raw: seq<RawStep>, collapse: Collapse) returns (ps: seq<nat>)
    ensures FirstFive(raw, collapse, ps) && |Normalized(raw, collapse)| == |ps|
    ensures forall k :: 0 <= k < |ps| ==>
      var out := Normalized(raw, collapse);
      && IdAt(out, k, collapse(raw[ps[k]].id))
      && out[k].status == Pending && out[k].result == raw[ps[k]].result
      && DependenciesAre(out, k, raw[ps[k]].dependencies, collapse)
  {
    ps := GatheredExactly(raw, collapse);
    assert forall k :: 0 <= k < |ps| ==> ps[k] < |raw|;
    var before, out := Gathered(raw, collapse), Normalized(raw, collapse);
    hide FirstFive, Gathered, DependenciesAre, CleanDeps;
    forall k | 0 <= k < |ps|
      ensures IdAt(out, k, collapse(raw[ps[k]].id)) && out[k].status == Pending && out[k].result == raw[ps[k]].result
      ensures DependenciesAre(out, k, raw[ps[k]].dependencies, collapse)
    {
      assert GatheredAt(before, k, raw[ps[k]], collapse);
      assert forall j :: 0 <= j < |out| ==> out[j].id == before[j].id;
      KnownDependenciesAre(out, k, before, raw[ps[k]].dependencies, collapse);
    }
  }
}
