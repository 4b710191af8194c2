/** What every cascade guarantees. */
module RouterLaws {
  import opened RouterLog
  import opened Router

  /** The position of the target of each call. */
  function Places(log: seq<Call>, targets: seq<string>, kind: string, env: Env, i: nat, n: nat): (places: seq<nat>)
    requires i <= |targets|
    decreases |targets| - i
  {
    if i == |targets| then []
    else if !Eligible(log, targets[i], env.askedAt(i), env) then Places(log, targets, kind, env, i + 1, n)
    else
      var calls := Visit(targets, kind, env, i, n);
      var here := seq(|calls|, _ => i);
      if Succeeded(calls) then here
      else here + Places(log + calls, targets, kind, env, i + 1, n + |calls|)
  }

  lemma VisitShape(targets: seq<string>, kind: string, env: Env, i: nat, n: nat)
    requires i < |targets|
    ensures var calls := Visit(targets, kind, env, i, n);
      && 1 <= |calls| <= (if i == |targets| - 1 then 2 else 1)
      && (forall j :: 0 <= j < |calls| ==> calls[j] == Entry(targets[i], kind, env, n + j))
      && (forall j :: 0 <= j < |calls| - 1 ==> calls[j].failed)
  {
    AttemptsId(targets[i], kind, env, n, if i == |targets| - 1 then RETRIES else 1);
    hide Attempts, Entry;
  }

  lemma PlacesStep(log: seq<Call>, targets: seq<string>, kind: string, env: Env, i: nat, n: nat)
    requires i < |targets|
    ensures var calls := Visit(targets, kind, env, i, n);
      Places(log, targets, kind, env, i, n) ==
        if !Eligible(log, targets[i], env.askedAt(i), env) then Places(log, targets, kind, env, i + 1, n)
        else if Succeeded(calls) then seq(|calls|, _ => i)
        else seq(|calls|, _ => i) + Places(log + calls, targets, kind, env, i + 1, n + |calls|)
  {
    hide Visit, Eligible, Succeeded;
  }

  /* ---- Every call is recorded once, and the first success ends the cascade ---- */

  /** The calls are the provider calls number `n`, `n + 1`, ...; all but the last one failed; there is at
      most one more than targets. */
  ghost predicate Recorded(calls: seq<Call>, kind: string, env: Env, n: nat, targets: nat) {
    && |calls| <= (if targets == 0 then 0 else targets + 1)
    && (forall j :: 0 <= j < |calls| ==> calls[j] == Entry(calls[j].id, kind, env, n + j))
    && (forall j :: 0 <= j < |calls| - 1 ==> calls[j].failed)
  }

  lemma RecordedAppend(a: seq<Call>, b: seq<Call>, kind: string, env: Env, n: nat, targets: nat)
    requires Recorded(a, kind, env, n, 1) && a != [] && a[|a| - 1].failed
    requires targets > 0 ==> |a| == 1
    requires Recorded(b, kind, env, n + |a|, targets)
    ensures Recorded(a + b, kind, env, n, targets + 1)
  {
    hide Entry;
    var c := a + b;
    forall j | 0 <= j < |c|
      ensures c[j] == Entry(c[j].id, kind, env, n + j)
    {
      assert j >= |a| ==> c[j] == b[j - |a|];
    }
  }

  lemma VisitRecorded(targets: seq<string>, kind: string, env: Env, i: nat, n: nat)
    requires i < |targets|
    ensures var calls := Visit(targets, kind, env, i, n);
      && Recorded(calls, kind, env, n, 1) && Recorded(calls, kind, env, n, |targets| - i)
      && calls != [] && (i < |targets| - 1 ==> |calls| == 1)
      && (!Succeeded(calls) ==> calls[|calls| - 1].failed)
  {
    VisitShape(targets, kind, env, i, n);
    hide Visit, Entry;
  }

  lemma NothingRecorded(log: seq<Call>, targets: seq<string>, kind: string, env: Env, n: nat)
    ensures Recorded(Cascade(log, targets, kind, env, |targets|, n), kind, env, n, 0)
  {
    NothingLeft(log, targets, kind, env, n);
  }

  lemma {:induction false} CascadeRecorded(log: seq<Call>, targets: seq<string>, kind: string, env: Env, i: nat, n: nat)
    requires i <= |targets|
    ensures Recorded(Cascade(log, targets, kind, env, i, n), kind, env, n, |targets| - i)
    decreases |targets| - i
  {
    hide *;
    if i == |targets| {
      NothingRecorded(log, targets, kind, env, n);
    } else {
      CascadeStep(log, targets, kind, env, i, n);
      var calls := Visit(targets, kind, env, i, n);
      VisitRecorded(targets, kind, env, i, n);
      if !Eligible(log, targets[i], env.askedAt(i), env) {
        CascadeRecorded(log, targets, kind, env, i + 1, n);
        RecordedMore(Cascade(log, targets, kind, env, i + 1, n), kind, env, n, |targets| - i - 1);
      } else if !Succeeded(calls) {
        CascadeRecorded(log + calls, targets, kind, env, i + 1, n + |calls|);
        RecordedAppend(calls, Cascade(log + calls, targets, kind, env, i + 1, n + |calls|), kind, env, n,
            |targets| - i - 1);
      }
    }
  }

  lemma RecordedMore(calls: seq<Call>, kind: string, env: Env, n: nat, targets: nat)
    requires Recorded(calls, kind, env, n, targets)
    ensures Recorded(calls, kind, env, n, targets + 1)
  {
    hide Entry;
  }

  /* ---- Which targets are called ---- */

  /** The calls go to the targets at the given positions, in order; only the last target is called twice,
      and each target is eligible when the cascade reaches it. */
  ghost predicate Visited(log: seq<Call>, calls: seq<Call>, places: seq<nat>, targets: seq<string>, env: Env, i: nat) {
    |places| == |calls| && forall j :: 0 <= j < |calls| ==> VisitedAt(log, calls, places, targets, env, i, j)
  }

  ghost predicate VisitedAt(log: seq<Call>, calls: seq<Call>, places: seq<nat>, targets: seq<string>, env: Env,
      i: nat, j: nat)
    requires j < |calls| == |places|
  {
    && i <= places[j] < |targets| && calls[j].id == targets[places[j]]
    && (j > 0 ==> places[j - 1] < places[j] || (places[j - 1] == places[j] == |targets| - 1 && j == |calls| - 1))
    && (j == 0 || places[j - 1] != places[j] ==>
      Eligible(log + calls[..j], targets[places[j]], env.askedAt(places[j]), env))
  }

  /** The targets before position `end` that were not called were not eligible when reached. */
  ghost predicate Skipped(log: seq<Call>, calls: seq<Call>, places: seq<nat>, targets: seq<string>, env: Env, p: nat) {
    exists m: nat ::
      && m <= |calls| == |places| && p < |targets|
      && (forall j :: 0 <= j < m ==> places[j] < p) && (forall j :: m <= j < |calls| ==> p < places[j])
      && !Eligible(log + calls[..m], targets[p], env.askedAt(p), env)
  }

  lemma LogSplit(log: seq<Call>, a: seq<Call>, b: seq<Call>, j: nat)
    requires |a| <= j <= |a| + |b|
    ensures log + (a + b)[..j] == (log + a) + b[..j - |a|]
  {
    assert (a + b)[..j] == a + b[..j - |a|];
    Regroup(log, a, b[..j - |a|]);
  }

  /** The calls of one visit, to an eligible target. */
  ghost predicate OneVisit(log: seq<Call>, a: seq<Call>, targets: seq<string>, env: Env, i: nat) {
    && i < |targets| && 1 <= |a| <= 2 && (i < |targets| - 1 ==> |a| == 1)
    && (forall j :: 0 <= j < |a| ==> a[j].id == targets[i])
    && Eligible(log, targets[i], env.askedAt(i), env)
  }

  lemma VisitedAlone(log: seq<Call>, a: seq<Call>, targets: seq<string>, env: Env, i: nat)
    requires OneVisit(log, a, targets, env, i)
    ensures Visited(log, a, seq(|a|, _ => i), targets, env, i)
  {
    hide Eligible;
    assert log + a[..0] == log;
  }

  lemma VisitedAppend(log: seq<Call>, a: seq<Call>, b: seq<Call>, places: seq<nat>, targets: seq<string>,
      env: Env, i: nat)
    requires OneVisit(log, a, targets, env, i) && Visited(log + a, b, places, targets, env, i + 1)
    ensures Visited(log, a + b, seq(|a|, _ => i) + places, targets, env, i)
  {
    hide Eligible;
    var calls, all := a + b, seq(|a|, _ => i) + places;
    if b != [] {
      assert VisitedAt(log + a, b, places, targets, env, i + 1, 0);
    }
    hide Visited;
    forall j | 0 <= j < |calls|
      ensures VisitedAt(log, calls, all, targets, env, i, j)
    {
      if j >= |a| {
        LogSplit(log, a, b, j);
        VisitedHas(log + a, b, places, targets, env, i + 1, j - |a|);
      } else {
        assert log + calls[..0] == log;
      }
    }
    VisitedAll(log, calls, all, targets, env, i);
  }

  lemma VisitedHas(log: seq<Call>, calls: seq<Call>, places: seq<nat>, targets: seq<string>, env: Env, i: nat, j: nat)
    requires Visited(log, calls, places, targets, env, i) && j < |calls|
    ensures |places| == |calls| && VisitedAt(log, calls, places, targets, env, i, j)
  {
  }

  lemma VisitedAll(log: seq<Call>, calls: seq<Call>, places: seq<nat>, targets: seq<string>, env: Env, i: nat)
    requires |places| == |calls| && forall j :: 0 <= j < |calls| ==> VisitedAt(log, calls, places, targets, env, i, j)
    ensures Visited(log, calls, places, targets, env, i)
  {
  }

  lemma VisitedMore(log: seq<Call>, calls: seq<Call>, places: seq<nat>, targets: seq<string>, env: Env, i: nat)
    requires Visited(log, calls, places, targets, env, i + 1)
    ensures Visited(log, calls, places, targets, env, i)
  {
    hide Eligible;
    forall j | 0 <= j < |calls|
      ensures VisitedAt(log, calls, places, targets, env, i, j)
    {
      assert VisitedAt(log, calls, places, targets, env, i + 1, j);
    }
  }

  lemma VisitIsOne(log: seq<Call>, targets: seq<string>, kind: string, env: Env, i: nat, n: nat)
    requires i < |targets| && Eligible(log, targets[i], env.askedAt(i), env)
    ensures OneVisit(log, Visit(targets, kind, env, i, n), targets, env, i)
  {
    VisitShape(targets, kind, env, i, n);
    hide Eligible, Visit;
  }

  lemma {:induction false} CascadeVisited(log: seq<Call>, targets: seq<string>, kind: string, env: Env, i: nat, n: nat)
    requires i <= |targets|
    ensures Visited(log, Cascade(log, targets, kind, env, i, n), Places(log, targets, kind, env, i, n), targets, env, i)
    decreases |targets| - i
  {
    if i < |targets| {
      CascadeStep(log, targets, kind, env, i, n);
      PlacesStep(log, targets, kind, env, i, n);
      var calls := Visit(targets, kind, env, i, n);
      hide Eligible, Attempts, Cascade, Places, Entry, Succeeded, Open, Of, Visited, OneVisit;
      if !Eligible(log, targets[i], env.askedAt(i), env) {
        CascadeVisited(log, targets, kind, env, i + 1, n);
        VisitedMore(log, Cascade(log, targets, kind, env, i + 1, n), Places(log, targets, kind, env, i + 1, n),
            targets, env, i);
      } else {
        VisitIsOne(log, targets, kind, env, i, n);
        if Succeeded(calls) {
          VisitedAlone(log, calls, targets, env, i);
        } else {
          CascadeVisited(log + calls, targets, kind, env, i + 1, n + |calls|);
          VisitedAppend(log, calls, Cascade(log + calls, targets, kind, env, i + 1, n + |calls|),
                        Places(log + calls, targets, kind, env, i + 1, n + |calls|), targets, env, i);
        }
      }
    }
  }

  /* ---- Which targets are not called ---- */

  lemma SkippedAppend(log: seq<Call>, a: seq<Call>, b: seq<Call>, places: seq<nat>, targets: seq<string>,
      env: Env, i: nat, p: nat)
    requires i < p && Skipped(log + a, b, places, targets, env, p)
    ensures Skipped(log, a + b, seq(|a|, _ => i) + places, targets, env, p)
  {
    hide Eligible;
    var m: nat :| m <= |b| == |places| && p < |targets|
      && (forall j :: 0 <= j < m ==> places[j] < p) && (forall j :: m <= j < |b| ==> p < places[j])
      && !Eligible(log + a + b[..m], targets[p], env.askedAt(p), env);
    LogSplit(log, a, b, |a| + m);
    var all := seq(|a|, _ => i) + places;
    assert !Eligible(log + (a + b)[..|a| + m], targets[p], env.askedAt(p), env);
    assert forall j :: 0 <= j < |a| + m ==> all[j] < p;
    assert forall j :: |a| + m <= j < |a + b| ==> p < all[j];
  }

  /** The place is behind every target that could still matter to the cascade. */
  ghost predicate Missed(calls: seq<Call>, places: seq<nat>, p: nat) {
    && |places| == |calls| && p !in places
    && (Succeeded(calls) ==> p < places[|places| - 1])
  }

  lemma MissedRest(a: seq<Call>, b: seq<Call>, places: seq<nat>, i: nat, p: nat)
    requires a != [] && |places| == |b| && Missed(a + b, seq(|a|, _ => i) + places, p)
    ensures p != i && Missed(b, places, p)
  {
    var all := seq(|a|, _ => i) + places;
    assert all[0] == i;
    assert forall x :: x in places ==> x in all;
    if b != [] {
      assert all[|all| - 1] == places[|places| - 1] && (a + b)[|a + b| - 1] == b[|b| - 1];
    }
  }

  lemma MissedAlone(a: seq<Call>, i: nat, p: nat)
    requires Missed(a, seq(|a|, _ => i), p) && Succeeded(a)
    ensures p < i
  {
  }

  lemma SkippedHere(log: seq<Call>, calls: seq<Call>, places: seq<nat>, targets: seq<string>, env: Env, p: nat)
    requires p < |targets| && !Eligible(log, targets[p], env.askedAt(p), env)
    requires Visited(log, calls, places, targets, env, p + 1)
    ensures Skipped(log, calls, places, targets, env, p)
  {
    hide Eligible;
    assert log + calls[..0] == log;
    forall j | 0 <= j < |calls|
      ensures p < places[j]
    {
      assert VisitedAt(log, calls, places, targets, env, p + 1, j);
    }
  }

  /** A cascade that ends with a success has tried, before the successful target, every target that was
      eligible when reached; one that fails has tried every such target of the list. */
  lemma {:induction false} CascadeSkipped(log: seq<Call>, targets: seq<string>, kind: string, env: Env, i: nat,
      n: nat, p: nat)
    requires i <= p < |targets|
    requires Missed(Cascade(log, targets, kind, env, i, n), Places(log, targets, kind, env, i, n), p)
    ensures Skipped(log, Cascade(log, targets, kind, env, i, n), Places(log, targets, kind, env, i, n), targets, env, p)
    decreases |targets| - i
  {
    CascadeStep(log, targets, kind, env, i, n);
    PlacesStep(log, targets, kind, env, i, n);
    var calls := Visit(targets, kind, env, i, n);
    hide Eligible, Attempts, Cascade, Places, Entry, Succeeded, Open, Of, OneVisit, Missed, Skipped, VisitedAt;
    if !Eligible(log, targets[i], env.askedAt(i), env) {
      if p == i {
        CascadeVisited(log, targets, kind, env, i + 1, n);
        SkippedHere(log, Cascade(log, targets, kind, env, i + 1, n), Places(log, targets, kind, env, i + 1, n),
            targets, env, p);
      } else {
        CascadeSkipped(log, targets, kind, env, i + 1, n, p);
      }
    } else {
      VisitShape(targets, kind, env, i, n);
      if Succeeded(calls) {
        MissedAlone(calls, i, p);
      } else {
        var rest := Cascade(log + calls, targets, kind, env, i + 1, n + |calls|);
        var places := Places(log + calls, targets, kind, env, i + 1, n + |calls|);
        CascadeVisited(log + calls, targets, kind, env, i + 1, n + |calls|);
        MissedRest(calls, rest, places, i, p);
        CascadeSkipped(log + calls, targets, kind, env, i + 1, n + |calls|, p);
        SkippedAppend(log, calls, rest, places, targets, env, i, p);
      }
    }
  }
}
