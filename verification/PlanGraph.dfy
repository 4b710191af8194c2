/** The dependency graph of a plan: cycles, and sets of steps that wait for each other. */
module PlanGraph {
  import opened Plan

  /** Step `i` waits for step `j`. */
  ghost predicate WaitsFor(steps: seq<PlanStep>, i: int, j: int) {
    && 0 <= i < |steps| && 0 <= j < |steps|
    && steps[j].id in steps[i].dependencies
  }

  ghost predicate IsWalk(steps: seq<PlanStep>, walk: seq<nat>) {
    forall k :: 0 <= k < |walk| - 1 ==> WaitsFor(steps, walk[k], walk[k + 1])
  }

  ghost predicate IsCycle(steps: seq<PlanStep>, walk: seq<nat>) {
    |walk| >= 2 && walk[0] == walk[|walk| - 1] && IsWalk(steps, walk)
  }

  ghost predicate Acyclic(steps: seq<PlanStep>) {
    forall walk :: !IsCycle(steps, walk)
  }

  /** Every step of `stuck` waits for a step of `stuck`. */
  ghost predicate MutuallyStuck(steps: seq<PlanStep>, stuck: set<nat>) {
    forall i :: i in stuck ==> exists j :: j in stuck && WaitsFor(steps, i, j)
  }

  /* ---- Stuck steps form a cycle ---- */

  ghost predicate Inside(walk: seq<nat>, stuck: set<nat>) {
    forall k :: 0 <= k < |walk| ==> walk[k] in stuck
  }

  lemma WalkCons(steps: seq<PlanStep>, stuck: set<nat>, start: nat, rest: seq<nat>)
    requires IsWalk(steps, rest) && rest != [] && WaitsFor(steps, start, rest[0])
    requires start in stuck && Inside(rest, stuck)
    ensures IsWalk(steps, [start] + rest) && Inside([start] + rest, stuck)
  {
    hide WaitsFor;
    var walk := [start] + rest;
    forall k | 0 <= k < |walk| - 1
      ensures WaitsFor(steps, walk[k], walk[k + 1])
    {
      assert walk[k + 1] == rest[k] && (k > 0 ==> walk[k] == rest[k - 1]);
    }
  }

  lemma NextStuck(steps: seq<PlanStep>, stuck: set<nat>, i: nat) returns (j: nat)
    requires MutuallyStuck(steps, stuck) && i in stuck
    ensures j in stuck && WaitsFor(steps, i, j)
  {
    hide WaitsFor;
    j :| j in stuck && WaitsFor(steps, i, j);
  }

  /** A walk of `length` edges inside a stuck set. */
  lemma {:induction false} LongWalk(steps: seq<PlanStep>, stuck: set<nat>, start: nat,
      length: nat) returns (walk: seq<nat>)
    requires MutuallyStuck(steps, stuck) && start in stuck
    ensures |walk| == length + 1 && walk[0] == start && IsWalk(steps, walk) && Inside(walk, stuck)
    decreases length
  {
    walk := [start];
    assert IsWalk(steps, walk) && Inside(walk, stuck);
    hide *;
    if length > 0 {
      var next := NextStuck(steps, stuck, start);
      var rest := LongWalk(steps, stuck, next, length - 1);
      WalkCons(steps, stuck, start, rest);
      walk := [start] + rest;
    }
  }

  /** More positions than values: two positions agree. */
  lemma {:induction false} Pigeonhole(s: seq<nat>, values: set<nat>) returns (i: nat, j: nat)
    requires |s| > |values| && Inside(s, values)
    ensures i < j < |s| && s[i] == s[j]
  {
    var last := s[|s| - 1];
    if k :| 0 <= k < |s| - 1 && s[k] == last {
      i, j := k, |s| - 1;
    } else {
      i, j := Pigeonhole(s[..|s| - 1], values - {last});
    }
  }

  lemma LoopIsCycle(steps: seq<PlanStep>, walk: seq<nat>, i: nat, j: nat) returns (cycle: seq<nat>)
    requires IsWalk(steps, walk) && i < j < |walk| && walk[i] == walk[j]
    ensures IsCycle(steps, cycle) && |cycle| > 0 && cycle[0] == walk[i]
  {
    hide WaitsFor;
    cycle := walk[i..j + 1];
    forall k | 0 <= k < |cycle| - 1
      ensures WaitsFor(steps, cycle[k], cycle[k + 1])
    {
      assert cycle[k] == walk[i + k] && cycle[k + 1] == walk[i + k + 1];
    }
  }

  lemma StuckMeansCycle(steps: seq<PlanStep>, stuck: set<nat>) returns (cycle: seq<nat>)
    requires MutuallyStuck(steps, stuck) && stuck != {}
    ensures IsCycle(steps, cycle) && |cycle| > 0 && cycle[0] in stuck
  {
    hide WaitsFor, IsWalk, MutuallyStuck, IsCycle;
    var start :| start in stuck;
    var walk := LongWalk(steps, stuck, start, |stuck|);
    var i, j := Pigeonhole(walk, stuck);
    cycle := LoopIsCycle(steps, walk, i, j);
  }

  /* ---- An order excludes cycles ---- */

  /** Each step stands in `order` behind the steps it waits for, as far as these stand in it. */
  ghost predicate Ordered(steps: seq<PlanStep>, order: seq<nat>) {
    forall a, b :: 0 <= a < |order| && 0 <= b < |order| && WaitsFor(steps, order[a], order[b]) ==> b < a
  }

  lemma {:induction false} WalkGoesBack(steps: seq<PlanStep>, order: seq<nat>, walk: seq<nat>, places: seq<nat>)
    requires Ordered(steps, order) && IsWalk(steps, walk) && |places| == |walk| >= 1
    requires forall k :: 0 <= k < |walk| ==> places[k] < |order| && order[places[k]] == walk[k]
    ensures places[|places| - 1] <= places[0] - (|walk| - 1)
  {
    if |walk| > 1 {
      assert WaitsFor(steps, walk[0], walk[1]);
      WalkGoesBack(steps, order, walk[1..], places[1..]);
    }
  }

  ghost function PlaceOf(order: seq<nat>, x: nat): (p: nat)
    requires x in order
    ensures p < |order| && order[p] == x
  {
    var p :| 0 <= p < |order| && order[p] == x; p
  }

  lemma OrderExcludesCycle(steps: seq<PlanStep>, order: seq<nat>, walk: seq<nat>)
    requires Ordered(steps, order) && forall k :: 0 <= k < |walk| ==> walk[k] in order
    ensures !IsCycle(steps, walk)
  {
    if IsCycle(steps, walk) {
      var places := seq(|walk|, k requires 0 <= k < |walk| => PlaceOf(order, walk[k]));
      WalkGoesBack(steps, order, walk, places);
    }
  }
}
