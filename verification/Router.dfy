/** The cascade router: its counters, its circuit breaker and the cascade over the providers. */
module Router {
  import opened RouterLog

  const LOCAL_STUB := "local-stub"
  const OLLAMA := "ollama"
  const RETRIES: nat := 2

  /** A provider's answer to one call: how long it took and when the result is recorded. */
  datatype Reply = Reply(ok: bool, latencyMs: int, at: int)

  /** The surroundings of one cascade: whether a target leads to a provider, the clock when the breaker
      of the `i`-th target is asked, and the answer to the `n`-th provider call. */
  datatype Env = Env(resolves: string -> bool, askedAt: nat -> int, reply: nat -> Reply)

  datatype Outcome = Success(target: string) | AllFailed

  /* ---- Specification of the cascade over the log ---- */

  predicate Eligible(log: seq<Call>, target: string, now: int, env: Env) {
    target != LOCAL_STUB && !Open(Of(log, target), now) && env.resolves(target)
  }

  function Kind(kind: string): string {
    if kind == "" then GENERAL else kind
  }

  /** The entry for the `n`-th provider call. */
  function Entry(target: string, kind: string, env: Env, n: nat): Call {
    var r := env.reply(n);
    Call(target, Kind(kind), r.latencyMs, !r.ok, r.at)
  }

  /** The calls to one target: up to `left` ones, until one succeeds. */
  function Attempts(target: string, kind: string, env: Env, n: nat, left: nat): (calls: seq<Call>)
    decreases left
  {
    if left == 0 then []
    else
      var call := Entry(target, kind, env, n);
      if call.failed then [call] + Attempts(target, kind, env, n + 1, left - 1) else [call]
  }

  predicate Succeeded(calls: seq<Call>) {
    calls != [] && !calls[|calls| - 1].failed
  }

  function OutcomeOf(calls: seq<Call>): Outcome {
    if Succeeded(calls) then Success(calls[|calls| - 1].id) else AllFailed
  }

  /** The calls of one visit: to the `i`-th target, one or, at the end of the list, up to two. */
  function Visit(targets: seq<string>, kind: string, env: Env, i: nat, n: nat): (calls: seq<Call>)
    requires i < |targets|
  {
    Attempts(targets[i], kind, env, n, if i == |targets| - 1 then RETRIES else 1)
  }

  /** The targets from `i` on, tried in order, when `n` calls have been made before: the new calls. */
  function Cascade(log: seq<Call>, targets: seq<string>, kind: string, env: Env, i: nat, n: nat): (calls: seq<Call>)
    requires i <= |targets|
    decreases |targets| - i
  {
    if i == |targets| then []
    else if !Eligible(log, targets[i], env.askedAt(i), env) then Cascade(log, targets, kind, env, i + 1, n)
    else
      var calls := Visit(targets, kind, env, i, n);
      if Succeeded(calls) then calls
      else calls + Cascade(log + calls, targets, kind, env, i + 1, n + |calls|)
  }

  /** The part of a target before the first slash. */
  function BeforeSlash(id: string): string {
    if id == "" || id[0] == '/' then "" else [id[0]] + BeforeSlash(id[1..])
  }

  /** The last resort: the local provider, unless the cascade names it. */
  function LastResort(cascade: seq<string>, providers: set<string>): seq<string> {
    if OLLAMA in providers && forall i :: 0 <= i < |cascade| ==> BeforeSlash(cascade[i]) != OLLAMA then [OLLAMA] else []
  }

  function Targets(cascade: seq<string>, defaultId: string, providers: set<string>): seq<string> {
    var order := if cascade == [] && defaultId != "" && defaultId != LOCAL_STUB then [defaultId] else cascade;
    order + LastResort(order, providers)
  }

  /* ---- The object ---- */

  lemma NoMetrics()
    ensures MetricsFit(Metrics(0, 0, [], map[]), [])
  {
    assert Latencies([]) == [];
  }

  /** One more call in the metrics of its provider. */
  function Measured(m: Metrics, call: Call): Metrics {
    var s := if call.kind in m.kinds then m.kinds[call.kind] else KindStats(0, 0, 0);
    Metrics(m.totalCalls + 1, if call.failed then m.totalFailures + 1 else m.totalFailures,
            Newest(m.latencies + [call.latencyMs]), m.kinds[call.kind := Counted(s, call.failed)])
  }

  lemma MeasuredFits(m: Metrics, calls: seq<Call>, call: Call)
    requires MetricsFit(m, calls)
    ensures MetricsFit(Measured(m, call), calls + [call])
  {
    CountsGrow(calls, call);
    NewestGrows(calls, call);
    KindsFitGrows(m.kinds, calls, call);
    hide KindsFit, Counted, CountFailed, Newest, Latencies;
  }

  /** The fields about one provider say what its calls say. */
  ghost predicate Fits(count: nat, tripped: bool, until: int, m: Metrics, calls: seq<Call>) {
    && count == TrailingFailures(calls)
    && (tripped <==> count >= THRESHOLD)
    && (tripped ==> until == LastAt(calls) + HOLD_MS)
    && MetricsFit(m, calls)
  }

  function CountOf(failures: map<string, nat>, id: string): nat {
    if id in failures then failures[id] else 0
  }

  function UntilOf(trippedUntil: map<string, int>, id: string): int {
    if id in trippedUntil then trippedUntil[id] else 0
  }

  function MetricsOf(metrics: map<string, Metrics>, id: string): Metrics {
    if id in metrics then metrics[id] else Metrics(0, 0, [], map[])
  }

  ghost predicate Agrees(failures: map<string, nat>, trippedUntil: map<string, int>, metrics: map<string, Metrics>,
                         log: seq<Call>, id: string) {
    Fits(CountOf(failures, id), id in trippedUntil, UntilOf(trippedUntil, id), MetricsOf(metrics, id), Of(log, id))
  }

  ghost predicate Consistent(failures: map<string, nat>, trippedUntil: map<string, int>, metrics: map<string, Metrics>,
                             log: seq<Call>) {
    forall id :: Agrees(failures, trippedUntil, metrics, log, id)
  }

  /** The failure counter after a call. */
  function NextCount(failures: map<string, nat>, call: Call): nat {
    if call.failed then CountOf(failures, call.id) + 1 else 0
  }

  /** The trip times after a call. */
  function NextTrips(trippedUntil: map<string, int>, call: Call, count: nat): map<string, int> {
    if !call.failed then trippedUntil - {call.id}
    else if count >= THRESHOLD then trippedUntil[call.id := call.at + HOLD_MS]
    else trippedUntil
  }

  lemma CallFits(count: nat, tripped: bool, until: int, m: Metrics, calls: seq<Call>, call: Call, trips: bool, next: int)
    requires Fits(count, tripped, until, m, calls)
    requires var n := if call.failed then count + 1 else 0; trips <==> n >= THRESHOLD
    requires trips ==> next == call.at + HOLD_MS
    ensures Fits(if call.failed then count + 1 else 0, trips, next, Measured(m, call), calls + [call])
  {
    CountsGrow(calls, call);
    MeasuredFits(m, calls, call);
    hide TrailingFailures, MetricsFit, Measured;
  }

  lemma CallAgrees(failures: map<string, nat>, trippedUntil: map<string, int>, metrics: map<string, Metrics>,
      log: seq<Call>, call: Call)
    requires Agrees(failures, trippedUntil, metrics, log, call.id)
    ensures var count := NextCount(failures, call);
      Agrees(failures[call.id := count], NextTrips(trippedUntil, call, count),
             metrics[call.id := Measured(MetricsOf(metrics, call.id), call)], log + [call], call.id)
  {
    var id := call.id;
    var count := NextCount(failures, call);
    var trips := NextTrips(trippedUntil, call, count);
    OfGrows(log, call, id);
    assert id in trips <==> count >= THRESHOLD;
    hide Fits, Measured, Of, TrailingFailures;
    CallFits(CountOf(failures, id), id in trippedUntil, UntilOf(trippedUntil, id), MetricsOf(metrics, id),
             Of(log, id), call, id in trips, UntilOf(trips, id));
  }

  lemma CallConsistent(failures: map<string, nat>, trippedUntil: map<string, int>,
      metrics: map<string, Metrics>, log: seq<Call>, call: Call)
    requires Consistent(failures, trippedUntil, metrics, log)
    ensures var count := NextCount(failures, call);
      Consistent(failures[call.id := count], NextTrips(trippedUntil, call, count),
                 metrics[call.id := Measured(MetricsOf(metrics, call.id), call)], log + [call])
  {
    hide Measured, NextCount, Fits, Of;
    assert Agrees(failures, trippedUntil, metrics, log, call.id);
    CallAgrees(failures, trippedUntil, metrics, log, call);
    var count := NextCount(failures, call);
    var f, t := failures[call.id := count], NextTrips(trippedUntil, call, count);
    var m, l := metrics[call.id := Measured(MetricsOf(metrics, call.id), call)], log + [call];
    forall id
      ensures Agrees(f, t, m, l, id)
    {
      if id != call.id {
        assert Agrees(failures, trippedUntil, metrics, log, id);
        OfGrows(log, call, id);
      }
    }
  }

  lemma RegisterConsistent(failures: map<string, nat>, trippedUntil: map<string, int>,
      metrics: map<string, Metrics>, log: seq<Call>, id: string)
    requires Consistent(failures, trippedUntil, metrics, log) && id !in metrics
    ensures Consistent(failures, trippedUntil, metrics[id := Metrics(0, 0, [], map[])], log)
  {
    NoMetrics();
    hide MetricsFit, Of, TrailingFailures;
    var m := metrics[id := Metrics(0, 0, [], map[])];
    forall x
      ensures Agrees(failures, trippedUntil, m, log, x)
    {
      assert Agrees(failures, trippedUntil, metrics, log, x);
    }
  }

  class ModelCascadeRouter {
    var providers: set<string>
    var defaultId: string
    var failures: map<string, nat>
    var trippedUntil: map<string, int>
    var metrics: map<string, Metrics>
    ghost var log: seq<Call>

    ghost predicate Valid()
      reads this
    {
      Consistent(failures, trippedUntil, metrics, log)
    }

    constructor ()
      ensures Valid() && log == [] && providers == {} && defaultId == ""
    {
      providers, defaultId := {}, "";
      failures, trippedUntil, metrics := map[], map[], map[];
      log := [];
    }

    method RegisterProvider(id: string)
      requires Valid()
      modifies this
      ensures Valid() && log == old(log) && providers == old(providers) + {id}
      ensures defaultId ==
        if old(defaultId) == "" || (old(defaultId) == LOCAL_STUB && id != LOCAL_STUB) then id else old(defaultId)
    {
      hide Consistent;
      providers := providers + {id};
      if id !in metrics {
        RegisterConsistent(failures, trippedUntil, metrics, log, id);
        metrics := metrics[id := Metrics(0, 0, [], map[])];
      }
      if defaultId == "" || (defaultId == LOCAL_STUB && id != LOCAL_STUB) {
        defaultId := id;
      }
    }

    method ProviderTripped(id: string, now: int) returns (tripped: bool)
      requires Valid()
      ensures tripped <==> Open(Of(log, id), now)
    {
      assert Agrees(failures, trippedUntil, metrics, log, id);
      tripped := id in trippedUntil && now < trippedUntil[id];
    }

    /** Records one finished call: the log grows by it, and the counters still say what the log says. */
    method RecordProviderResult(id: string, kind: string, latencyMs: int, failed: bool, at: int)
      requires Valid()
      modifies this`failures, this`trippedUntil, this`metrics, this`log
      ensures Valid() && log == old(log) + [Call(id, Kind(kind), latencyMs, failed, at)]
    {
      hide Consistent;
      var call := Call(id, Kind(kind), latencyMs, failed, at);
      var met := MetricsOf(metrics, id);
      var ts := if call.kind in met.kinds then met.kinds[call.kind] else KindStats(0, 0, 0);
      CallConsistent(failures, trippedUntil, metrics, log, call);
      log := log + [call];
      met := met.(totalCalls := met.totalCalls + 1, latencies := met.latencies + [latencyMs]);
      if |met.latencies| > MAX_SAMPLES {
        met := met.(latencies := met.latencies[|met.latencies| - MAX_SAMPLES..]);
      }
      if !failed {
        ts := ts.(calls := ts.calls + 1, successes := ts.successes + 1);
        metrics := metrics[id := met.(kinds := met.kinds[call.kind := ts])];
        failures := failures[id := 0];
        trippedUntil := trippedUntil - {id};
        return;
      }
      ts := ts.(calls := ts.calls + 1, failures := ts.failures + 1);
      metrics := metrics[id := met.(kinds := met.kinds[call.kind := ts], totalFailures := met.totalFailures + 1)];
      failures := failures[id := (if id in failures then failures[id] else 0) + 1];
      if failures[id] >= THRESHOLD {
        trippedUntil := trippedUntil[id := at + HOLD_MS];
      }
    }

    /** Calls one provider up to `attempts` times, until it succeeds. */
    method CallProvider(target: string, kind: string, env: Env, n: nat, attempts: nat) returns (ok: bool, made: nat)
      requires Valid() && attempts > 0
      modifies this`failures, this`trippedUntil, this`metrics, this`log
      ensures Valid() && log == old(log) + Attempts(target, kind, env, n, attempts)
      ensures ok <==> Succeeded(Attempts(target, kind, env, n, attempts))
      ensures made == |Attempts(target, kind, env, n, attempts)|
    {
      hide Consistent;
      ok, made := false, 0;
      while made < attempts
        invariant Valid() && made <= attempts
        invariant log + Attempts(target, kind, env, n + made, attempts - made) ==
          old(log) + Attempts(target, kind, env, n, attempts)
        invariant |log| == |old(log)| + made
        invariant made > 0 ==> log[|log| - 1].failed
      {
        var reply := env.reply(n + made);
        ghost var rest := Attempts(target, kind, env, n + made + 1, attempts - made - 1);
        ghost var before := log;
        RecordProviderResult(target, kind, reply.latencyMs, !reply.ok, reply.at);
        made := made + 1;
        if reply.ok {
          return true, made;
        }
        assert before + ([log[|log| - 1]] + rest) == log + rest;
      }
    }

    method LastResortIds(cascade: seq<string>) returns (extra: seq<string>)
      ensures extra == LastResort(cascade, providers)
    {
      hide BeforeSlash;
      var seen := false;
      for i := 0 to |cascade|
        invariant seen <==> exists j :: 0 <= j < i && BeforeSlash(cascade[j]) == OLLAMA
      {
        if BeforeSlash(cascade[i]) == OLLAMA {
          seen := true;
        }
      }
      extra := if !seen && OLLAMA in providers then [OLLAMA] else [];
    }

    /** Tries one target: `done` when a call succeeds. */
    method TryTarget(targets: seq<string>, kind: string, env: Env, i: nat, n: nat) returns (done: bool, made: nat)
      requires Valid() && i < |targets|
      modifies this`failures, this`trippedUntil, this`metrics, this`log
      ensures Valid()
      ensures var all := Cascade(old(log), targets, kind, env, i, n);
        if done then log == old(log) + all && OutcomeOf(all) == Success(targets[i])
        else
          var rest := Cascade(log, targets, kind, env, i + 1, n + made);
          log + rest == old(log) + all && OutcomeOf(rest) == OutcomeOf(all)
    {
      assert RETRIES > 0;
      hide *;
      var target := targets[i];
      EligibleIs(log, target, env.askedAt(i), env);
      TargetTried(log, targets, kind, env, i, n);
      if target == LOCAL_STUB {
        return false, 0;
      }
      var tripped := ProviderTripped(target, env.askedAt(i));
      if tripped || !env.resolves(target) {
        return false, 0;
      }
      done, made := CallProvider(target, kind, env, n, if i == |targets| - 1 then RETRIES else 1);
    }

    /** Tries the targets in order. */
    method TryTargets(targets: seq<string>, kind: string, env: Env) returns (outcome: Outcome)
      requires Valid()
      modifies this`failures, this`trippedUntil, this`metrics, this`log
      ensures Valid() && log == old(log) + Cascade(old(log), targets, kind, env, 0, 0)
      ensures outcome == OutcomeOf(Cascade(old(log), targets, kind, env, 0, 0))
    {
      hide Consistent, Open, Attempts, Of, OutcomeOf, Succeeded, Cascade;
      ghost var all := Cascade(log, targets, kind, env, 0, 0);
      ghost var start := log;
      var n := 0;
      for i := 0 to |targets|
        invariant Valid() && log + Cascade(log, targets, kind, env, i, n) == start + all
        invariant OutcomeOf(all) == OutcomeOf(Cascade(log, targets, kind, env, i, n))
      {
        var done, made := TryTarget(targets, kind, env, i, n);
        if done {
          return Success(targets[i]);
        }
        n := n + made;
      }
      NothingLeft(log, targets, kind, env, n);
      return AllFailed;
    }

    /** Runs the cascade; every provider call is recorded. */
    method CompleteWithCascade(cascade: seq<string>, kind: string, env: Env) returns (outcome: Outcome)
      requires Valid()
      modifies this`failures, this`trippedUntil, this`metrics, this`log
      ensures Valid()
      ensures var calls := Cascade(old(log), Targets(cascade, defaultId, providers), kind, env, 0, 0);
        log == old(log) + calls && outcome == OutcomeOf(calls)
    {
      hide Consistent, Cascade, OutcomeOf, LastResort;
      var order := if cascade == [] && defaultId != "" && defaultId != LOCAL_STUB then [defaultId] else cascade;
      var extra := LastResortIds(order);
      outcome := TryTargets(order + extra, kind, env);
    }
  }

  lemma Regroup(a: seq<Call>, b: seq<Call>, c: seq<Call>)
    ensures a + (b + c) == a + b + c
  {
  }

  lemma LastEntry(calls: seq<Call>, target: string, kind: string, env: Env, n: nat)
    requires Succeeded(calls) && forall j :: 0 <= j < |calls| ==> calls[j] == Entry(target, kind, env, n + j)
    ensures OutcomeOf(calls) == Success(target)
  {
  }

  lemma OutcomeOfRest(calls: seq<Call>, rest: seq<Call>)
    requires !Succeeded(calls)
    ensures OutcomeOf(calls + rest) == OutcomeOf(rest)
  {
  }

  lemma NothingLeft(log: seq<Call>, targets: seq<string>, kind: string, env: Env, n: nat)
    ensures Cascade(log, targets, kind, env, |targets|, n) == [] && OutcomeOf([]) == AllFailed
  {
  }

  /** What one target adds to a cascade. */
  lemma TargetTried(log: seq<Call>, targets: seq<string>, kind: string, env: Env, i: nat, n: nat)
    requires i < |targets|
    ensures var all := Cascade(log, targets, kind, env, i, n);
      if !Eligible(log, targets[i], env.askedAt(i), env) then all == Cascade(log, targets, kind, env, i + 1, n)
      else
        var calls := Attempts(targets[i], kind, env, n, if i == |targets| - 1 then RETRIES else 1);
        if Succeeded(calls) then all == calls && OutcomeOf(all) == Success(targets[i])
        else
          var rest := Cascade(log + calls, targets, kind, env, i + 1, n + |calls|);
          log + calls + rest == log + all && OutcomeOf(rest) == OutcomeOf(all)
  {
    hide *;
    CascadeStep(log, targets, kind, env, i, n);
    VisitIs(targets, kind, env, i, n);
    var calls := Visit(targets, kind, env, i, n);
    AttemptsId(targets[i], kind, env, n, if i == |targets| - 1 then RETRIES else 1);
    if Succeeded(calls) {
      LastEntry(calls, targets[i], kind, env, n);
    } else {
      var rest := Cascade(log + calls, targets, kind, env, i + 1, n + |calls|);
      Regroup(log, calls, rest);
      OutcomeOfRest(calls, rest);
    }
  }

  lemma EligibleIs(log: seq<Call>, target: string, now: int, env: Env)
    ensures Eligible(log, target, now, env) <==> target != LOCAL_STUB && !Open(Of(log, target), now) && env.resolves(target)
  {
  }

  lemma VisitIs(targets: seq<string>, kind: string, env: Env, i: nat, n: nat)
    requires i < |targets|
    ensures Visit(targets, kind, env, i, n) ==
      Attempts(targets[i], kind, env, n, if i == |targets| - 1 then RETRIES else 1)
  {
    hide Attempts;
  }

  /** One target of a cascade. */
  lemma CascadeStep(log: seq<Call>, targets: seq<string>, kind: string, env: Env, i: nat, n: nat)
    requires i < |targets|
    ensures var calls := Visit(targets, kind, env, i, n);
      Cascade(log, targets, kind, env, i, n) ==
        if !Eligible(log, targets[i], env.askedAt(i), env) then Cascade(log, targets, kind, env, i + 1, n)
        else if Succeeded(calls) then calls
        else calls + Cascade(log + calls, targets, kind, env, i + 1, n + |calls|)
  {
    hide Visit, Eligible, Succeeded;
  }

  lemma {:induction false} AttemptsId(target: string, kind: string, env: Env, n: nat, left: nat)
    ensures var calls := Attempts(target, kind, env, n, left);
      && |calls| <= left && (left > 0 ==> calls != [])
      && (forall j :: 0 <= j < |calls| ==> calls[j] == Entry(target, kind, env, n + j))
      && (forall j :: 0 <= j < |calls| - 1 ==> calls[j].failed)
    decreases left
  {
    if left > 0 {
      AttemptsId(target, kind, env, n + 1, left - 1);
    }
  }
}
