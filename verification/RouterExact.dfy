/** The cascade and its counters, said without the router's own terms. */
module RouterExact {
  import opened Picking
  import opened RouterLog
  import opened Router
  import opened RouterLaws

  /* ---- The targets ---- */

  /** The target leads to the local provider. */
  predicate IsLocal(target: string) {
    target == "ollama" || "ollama/" <= target
  }

  lemma {:induction false} BeforeSlashIs(id: string, w: string)
    requires '/' !in w
    ensures BeforeSlash(id) == w <==> id == w || w + "/" <= id
  {
    if w == "" {
      assert (w + "/")[0] == '/';
    } else if id != "" {
      assert w == [w[0]] + w[1..] && w + "/" == [w[0]] + (w[1..] + "/");
      assert id == [id[0]] + id[1..];
      assert w[0] in w && forall c :: c in w[1..] ==> c in w;
      BeforeSlashIs(id[1..], w[1..]);
      assert w + "/" <= id <==> w[0] == id[0] && w[1..] + "/" <= id[1..] by { PrefixCons(w + "/", id); }
    }
  }

  lemma PrefixCons(a: string, b: string)
    requires a != "" && b != ""
    ensures a <= b <==> a[0] == b[0] && a[1..] <= b[1..]
  {
    if a[0] == b[0] && a[1..] <= b[1..] {
      assert a == [a[0]] + a[1..] && b == [b[0]] + b[1..];
    }
  }

  /** The cascade is tried in its own order; without one it is the default provider, if that is a real one.  The local
      provider is the last target when it is registered and no target leads to it. */
  lemma TargetsExactly(cascade: seq<string>, defaultId: string, providers: set<string>)
    ensures var targets := Targets(cascade, defaultId, providers);
      var order := if cascade != [] then cascade else if defaultId in {"", "local-stub"} then [] else [defaultId];
      targets == if "ollama" in providers && (forall t :: t in order ==> !IsLocal(t)) then order + ["ollama"] else order
  {
    var order := if cascade != [] then cascade else if defaultId in {"", "local-stub"} then [] else [defaultId];
    forall t | t in order
      ensures BeforeSlash(t) == OLLAMA <==> IsLocal(t)
    {
      BeforeSlashIs(t, OLLAMA);
    }
    hide BeforeSlash, IsLocal;
    assert order + [] == order;
  }

  /* ---- When a target is tried ---- */

  lemma {:induction false} OfExactly(log: seq<Call>, id: string) returns (ps: seq<nat>)
    ensures Picks(log, ps, Of(log, id))
    ensures forall i: nat :: i < |log| ==> (i in ps <==> log[i].id == id)
  {
    ps := [];
    PicksNothing(log);
    if log != [] {
      var k := |log| - 1;
      ps := OfExactly(log[..k], id);
      assert log == log[..k] + [log[k]];
      PicksSnoc(log[..k], log[k], ps, Of(log[..k], id), log);
      hide Picks;
      if log[k].id == id {
        ps := ps + [k];
      }
    }
  }

  /** The provider's breaker holds: its last three calls failed, less than a minute ago. */
  ghost predicate Holds(calls: seq<Call>, now: int) {
    var n := |calls|;
    n >= 3 && calls[n - 1].failed && calls[n - 2].failed && calls[n - 3].failed && now < calls[n - 1].at + 60 * 1000
  }

  lemma OpenIsHolds(calls: seq<Call>, now: int)
    ensures Open(calls, now) <==> Holds(calls, now)
  {
    var n := TrailingFailures(calls);
    hide TrailingFailures;
    if |calls| >= 3 && n < 3 {
      assert !calls[|calls| - n - 1].failed;
    }
  }

  /** A target is tried unless it is the stub, leads to no provider, or its breaker holds. */
  lemma EligibleExactly(log: seq<Call>, target: string, now: int, env: Env) returns (own: seq<Call>, ps: seq<nat>)
    ensures Picks(log, ps, own) && forall i: nat :: i < |log| ==> (i in ps <==> log[i].id == target)
    ensures Eligible(log, target, now, env) <==> target != "local-stub" && env.resolves(target) && !Holds(own, now)
  {
    own := Of(log, target);
    ps := OfExactly(log, target);
    OpenIsHolds(own, now);
    hide Picks, Of, Open, Holds;
  }

  /* ---- What a cascade reports ---- */

  /** The `j`-th call reports the `n + j`-th answer. */
  ghost predicate Reports(call: Call, kind: string, env: Env, n: nat) {
    && call.kind == (if kind == "" then "general" else kind)
    && call.latencyMs == env.reply(n).latencyMs && call.at == env.reply(n).at
    && (call.failed <==> !env.reply(n).ok)
  }

  /** A cascade succeeds with the target of its last call when that was answered, and every answer before was an error;
      it fails when every call was answered by an error, or none was made. */
  lemma CascadeReports(log: seq<Call>, targets: seq<string>, kind: string, env: Env)
    ensures var calls := Cascade(log, targets, kind, env, 0, 0);
      && (forall j :: 0 <= j < |calls| ==> Reports(calls[j], kind, env, j))
      && (forall j :: 0 <= j < |calls| - 1 ==> !env.reply(j).ok)
      && OutcomeOf(calls) == if calls != [] && env.reply(|calls| - 1).ok then Success(calls[|calls| - 1].id) else AllFailed
  {
    CascadeRecorded(log, targets, kind, env, 0, 0);
    hide Cascade;
    var calls := Cascade(log, targets, kind, env, 0, 0);
    forall j | 0 <= j < |calls|
      ensures Reports(calls[j], kind, env, j)
    {
      assert calls[j] == Entry(calls[j].id, kind, env, 0 + j);
    }
    forall j | 0 <= j < |calls| - 1
      ensures !env.reply(j).ok
    {
      assert Reports(calls[j], kind, env, j) && calls[j].failed;
    }
  }

  /** Before a cascade gives up on the last target, it has called it twice. */
  lemma {:induction false} LastTargetTwice(log: seq<Call>, targets: seq<string>, kind: string, env: Env, i: nat, n: nat)
    requires i <= |targets|
    requires var calls, places := Cascade(log, targets, kind, env, i, n), RouterLaws.Places(log, targets, kind, env, i, n);
      !Succeeded(calls) && |targets| - 1 in places
    ensures var places := RouterLaws.Places(log, targets, kind, env, i, n);
      |places| >= 2 && places[|places| - 1] == places[|places| - 2] == |targets| - 1
    decreases |targets| - i
  {
    CascadeStep(log, targets, kind, env, i, n);
    PlacesStep(log, targets, kind, env, i, n);
    var calls := Visit(targets, kind, env, i, n);
    hide Eligible, Cascade, RouterLaws.Places, Visit, Succeeded, RETRIES;
    if !Eligible(log, targets[i], env.askedAt(i), env) {
      LastTargetTwice(log, targets, kind, env, i + 1, n);
    } else {
      var rest := Cascade(log + calls, targets, kind, env, i + 1, n + |calls|);
      var places := RouterLaws.Places(log + calls, targets, kind, env, i + 1, n + |calls|);
      assert !Succeeded(calls);
      FailedVisit(targets, kind, env, i, n);
      if i == |targets| - 1 {
        NoPlaces(log + calls, targets, kind, env, n + |calls|);
      } else {
        FailedRest(calls, rest);
        LastTargetTwice(log + calls, targets, kind, env, i + 1, n + |calls|);
      }
    }
  }

  lemma NoPlaces(log: seq<Call>, targets: seq<string>, kind: string, env: Env, n: nat)
    ensures RouterLaws.Places(log, targets, kind, env, |targets|, n) == []
  {
  }

  lemma FailedRest(calls: seq<Call>, rest: seq<Call>)
    requires !Succeeded(calls + rest)
    ensures !Succeeded(rest)
  {
  }

  lemma FailedVisit(targets: seq<string>, kind: string, env: Env, i: nat, n: nat)
    requires i < |targets| && !Succeeded(Visit(targets, kind, env, i, n))
    ensures |Visit(targets, kind, env, i, n)| == if i == |targets| - 1 then 2 else 1
  {
    hide Entry;
    var t := targets[i];
    assert Attempts(t, kind, env, n + 1, 0) == [] && Attempts(t, kind, env, n + 2, 0) == [];
    assert Attempts(t, kind, env, n + 1, 1) == [Entry(t, kind, env, n + 1)];
  }

  /* ---- The counters ---- */

  ghost function EndedAt(calls: seq<Call>, failed: bool): set<nat> {
    set i: nat | i < |calls| && calls[i].failed == failed
  }

  lemma EndedGrows(calls: seq<Call>, failed: bool)
    requires calls != []
    ensures var k := |calls| - 1;
      |EndedAt(calls, failed)| == |EndedAt(calls[..k], failed)| + if calls[k].failed == failed then 1 else 0
  {
    var k := |calls| - 1;
    var before, all := EndedAt(calls[..k], failed), EndedAt(calls, failed);
    forall i: nat
      ensures i in all <==> i in before || (i == k && calls[k].failed == failed)
      ensures k !in before
    {
      assert i < k ==> calls[..k][i] == calls[i];
    }
    hide EndedAt;
    assert all == if calls[k].failed == failed then before + {k} else before;
  }

  lemma {:induction false} CountIsSize(calls: seq<Call>)
    ensures CountFailed(calls) == |EndedAt(calls, true)| && |calls| - CountFailed(calls) == |EndedAt(calls, false)|
  {
    if calls != [] {
      CountIsSize(calls[..|calls| - 1]);
      EndedGrows(calls, true);
      EndedGrows(calls, false);
      hide EndedAt;
    }
  }

  lemma {:induction false} OfKindExactly(calls: seq<Call>, kind: string) returns (ps: seq<nat>)
    ensures Picks(calls, ps, OfKind(calls, kind))
    ensures forall i: nat :: i < |calls| ==> (i in ps <==> calls[i].kind == kind)
  {
    ps := [];
    PicksNothing(calls);
    if calls != [] {
      var k := |calls| - 1;
      ps := OfKindExactly(calls[..k], kind);
      assert calls == calls[..k] + [calls[k]];
      PicksSnoc(calls[..k], calls[k], ps, OfKind(calls[..k], kind), calls);
      hide Picks;
      if calls[k].kind == kind {
        ps := ps + [k];
      }
    }
  }

  lemma NewestAt(calls: seq<Call>)
    ensures var l := Newest(Latencies(calls));
      && |l| == (if |calls| < 50 then |calls| else 50)
      && forall k :: 0 <= k < |l| ==> l[k] == calls[|calls| - |l| + k].latencyMs
  {
  }

  /** The metrics of a provider after its calls: how many there were, how many failed, the newest fifty latencies in
      order, and the same numbers for the calls of any one kind. */
  lemma MetricsExactly(m: Metrics, calls: seq<Call>, kind: string) returns (own: seq<Call>, ps: seq<nat>)
    requires MetricsFit(m, calls)
    ensures m.totalCalls == |calls| && m.totalFailures == |EndedAt(calls, true)|
    ensures |m.latencies| == if |calls| < 50 then |calls| else 50
    ensures forall k :: 0 <= k < |m.latencies| ==> m.latencies[k] == calls[|calls| - |m.latencies| + k].latencyMs
    ensures Picks(calls, ps, own) && forall i: nat :: i < |calls| ==> (i in ps <==> calls[i].kind == kind)
    ensures kind in m.kinds <==> own != []
    ensures kind in m.kinds ==>
      m.kinds[kind] == KindStats(|own|, |EndedAt(own, false)|, |EndedAt(own, true)|)
  {
    own := OfKind(calls, kind);
    ps := OfKindExactly(calls, kind);
    CountIsSize(calls);
    CountIsSize(own);
    NewestAt(calls);
    hide Latencies, Newest, Picks, OfKind, CountFailed, EndedAt;
  }
}
