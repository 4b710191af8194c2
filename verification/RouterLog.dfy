/** The history of provider calls, and what the router's counters must say about it. */
module RouterLog {

  const THRESHOLD: nat := 3
  const HOLD_MS: int := 60000
  const MAX_SAMPLES: nat := 50
  const GENERAL := "general"

  /** One finished provider call; `at` is the clock when its result is recorded, in milliseconds. */
  datatype Call = Call(id: string, kind: string, latencyMs: int, failed: bool, at: int)

  datatype KindStats = KindStats(calls: nat, successes: nat, failures: nat)

  datatype Metrics = Metrics(totalCalls: nat, totalFailures: nat, latencies: seq<int>, kinds: map<string, KindStats>)

  /** The calls of one provider, in order. */
  function Of(log: seq<Call>, id: string): seq<Call> {
    if log == [] then []
    else
      var k := |log| - 1;
      if log[k].id == id then Of(log[..k], id) + [log[k]] else Of(log[..k], id)
  }

  function CountFailed(calls: seq<Call>): (n: nat)
    ensures n <= |calls|
  {
    if calls == [] then 0
    else CountFailed(calls[..|calls| - 1]) + (if calls[|calls| - 1].failed then 1 else 0)
  }

  /** The calls of one kind. */
  function OfKind(calls: seq<Call>, kind: string): seq<Call> {
    if calls == [] then []
    else
      var k := |calls| - 1;
      if calls[k].kind == kind then OfKind(calls[..k], kind) + [calls[k]] else OfKind(calls[..k], kind)
  }

  function Latencies(calls: seq<Call>): (l: seq<int>)
    ensures |l| == |calls|
  {
    seq(|calls|, i requires 0 <= i < |calls| => calls[i].latencyMs)
  }

  function Newest(samples: seq<int>): seq<int> {
    if |samples| > MAX_SAMPLES then samples[|samples| - MAX_SAMPLES..] else samples
  }

  /** The length of the run of failures the calls end with. */
  function TrailingFailures(calls: seq<Call>): (n: nat)
    ensures n <= |calls|
    ensures forall i :: |calls| - n <= i < |calls| ==> calls[i].failed
    ensures n < |calls| ==> !calls[|calls| - n - 1].failed
  {
    if calls == [] || !calls[|calls| - 1].failed then 0 else 1 + TrailingFailures(calls[..|calls| - 1])
  }

  /** When the last call was recorded. */
  function LastAt(calls: seq<Call>): int {
    if calls == [] then 0 else calls[|calls| - 1].at
  }

  /* ---- What the fields must say ---- */

  function StatsOf(calls: seq<Call>): KindStats {
    KindStats(|calls|, |calls| - CountFailed(calls), CountFailed(calls))
  }

  /** The statistics of a kind after one more call of it. */
  function Counted(s: KindStats, failed: bool): KindStats {
    if failed then KindStats(s.calls + 1, s.successes, s.failures + 1)
    else KindStats(s.calls + 1, s.successes + 1, s.failures)
  }

  /** The per-kind statistics; a kind without calls has no entry. */
  ghost predicate KindsFit(kinds: map<string, KindStats>, calls: seq<Call>) {
    forall k :: (k in kinds <==> OfKind(calls, k) != []) && (k in kinds ==> kinds[k] == StatsOf(OfKind(calls, k)))
  }

  ghost predicate MetricsFit(m: Metrics, calls: seq<Call>) {
    && m.totalCalls == |calls|
    && m.totalFailures == CountFailed(calls)
    && m.latencies == Newest(Latencies(calls))
    && KindsFit(m.kinds, calls)
  }

  /** Whether the breaker is open for calls with this history. */
  predicate Open(calls: seq<Call>, now: int) {
    TrailingFailures(calls) >= THRESHOLD && now < LastAt(calls) + HOLD_MS
  }

  /* ---- Kinds add up ---- */

  function KindTotal(calls: seq<Call>, kinds: seq<string>): KindStats {
    if kinds == [] then KindStats(0, 0, 0)
    else
      var rest, s := KindTotal(calls, kinds[1..]), StatsOf(OfKind(calls, kinds[0]));
      KindStats(rest.calls + s.calls, rest.successes + s.successes, rest.failures + s.failures)
  }

  ghost predicate DistinctKinds(kinds: seq<string>) {
    kinds == [] || (kinds[0] !in kinds[1..] && DistinctKinds(kinds[1..]))
  }

  lemma {:induction false} NoCallsNoTotal(kinds: seq<string>)
    ensures KindTotal([], kinds) == KindStats(0, 0, 0)
  {
    if kinds != [] {
      NoCallsNoTotal(kinds[1..]);
    }
  }

  lemma {:induction false} TotalGrows(calls: seq<Call>, last: Call, kinds: seq<string>)
    requires DistinctKinds(kinds)
    ensures KindTotal(calls + [last], kinds) ==
      if last.kind in kinds then Counted(KindTotal(calls, kinds), last.failed) else KindTotal(calls, kinds)
  {
    hide OfKind, StatsOf;
    if kinds != [] {
      TotalGrows(calls, last, kinds[1..]);
      KindGrows(calls, last, kinds[0]);
    }
  }

  lemma KindGrows(calls: seq<Call>, last: Call, kind: string)
    ensures OfKind(calls + [last], kind) ==
      if last.kind == kind then OfKind(calls, kind) + [last] else OfKind(calls, kind)
    ensures StatsOf(OfKind(calls + [last], kind)) ==
      if last.kind == kind then Counted(StatsOf(OfKind(calls, kind)), last.failed) else StatsOf(OfKind(calls, kind))
  {
    assert (calls + [last])[..|calls|] == calls;
    var of := OfKind(calls, kind);
    assert (of + [last])[..|of|] == of;
  }

  /** The totals are the sums of the per-kind numbers, over any list of kinds that names every kind of
      the calls once. */
  lemma {:induction false} TotalsAreSums(calls: seq<Call>, kinds: seq<string>)
    requires DistinctKinds(kinds) && forall i :: 0 <= i < |calls| ==> calls[i].kind in kinds
    ensures KindTotal(calls, kinds) == StatsOf(calls)
  {
    if calls == [] {
      NoCallsNoTotal(kinds);
    } else {
      var k := |calls| - 1;
      TotalsAreSums(calls[..k], kinds);
      TotalGrows(calls[..k], calls[k], kinds);
      assert calls == calls[..k] + [calls[k]];
    }
  }

  /** The sum of the entries of the given kinds. */
  function EntryTotal(entries: map<string, KindStats>, kinds: seq<string>): KindStats
    requires forall i :: 0 <= i < |kinds| ==> kinds[i] in entries
  {
    if kinds == [] then KindStats(0, 0, 0)
    else
      var rest, s := EntryTotal(entries, kinds[1..]), entries[kinds[0]];
      KindStats(rest.calls + s.calls, rest.successes + s.successes, rest.failures + s.failures)
  }

  lemma {:induction false} EntriesAreSums(entries: map<string, KindStats>, calls: seq<Call>, kinds: seq<string>)
    requires KindsFit(entries, calls) && forall i :: 0 <= i < |kinds| ==> kinds[i] in entries
    ensures EntryTotal(entries, kinds) == KindTotal(calls, kinds)
  {
    hide StatsOf, OfKind;
    if kinds != [] {
      EntriesAreSums(entries, calls, kinds[1..]);
      assert kinds[0] in entries;
    }
  }

  lemma {:induction false} KindOfCall(calls: seq<Call>, i: nat)
    requires i < |calls|
    ensures OfKind(calls, calls[i].kind) != []
  {
    var k := |calls| - 1;
    if i < k {
      KindOfCall(calls[..k], i);
    }
  }

  /** The metric fields of a provider: its totals are the sums over its per-kind entries, whatever the order
      in which the kinds are listed. */
  lemma MetricsAreSums(m: Metrics, calls: seq<Call>, kinds: seq<string>)
    requires MetricsFit(m, calls) && DistinctKinds(kinds) && forall k :: k in kinds <==> k in m.kinds
    ensures m.totalCalls == EntryTotal(m.kinds, kinds).calls
    ensures m.totalFailures == EntryTotal(m.kinds, kinds).failures
    ensures m.totalCalls - m.totalFailures == EntryTotal(m.kinds, kinds).successes
  {
    forall i | 0 <= i < |calls|
      ensures calls[i].kind in kinds
    {
      KindOfCall(calls, i);
    }
    hide OfKind, CountFailed, DistinctKinds;
    TotalsAreSums(calls, kinds);
    EntriesAreSums(m.kinds, calls, kinds);
    hide EntryTotal, KindTotal;
  }

  /* ---- One more call ---- */

  lemma OfGrows(log: seq<Call>, call: Call, id: string)
    ensures Of(log + [call], id) == if call.id == id then Of(log, id) + [call] else Of(log, id)
  {
    assert (log + [call])[..|log|] == log;
  }

  lemma CountsGrow(calls: seq<Call>, call: Call)
    ensures CountFailed(calls + [call]) == CountFailed(calls) + (if call.failed then 1 else 0)
    ensures TrailingFailures(calls + [call]) == if call.failed then TrailingFailures(calls) + 1 else 0
  {
    assert (calls + [call])[..|calls|] == calls;
  }

  /** Cutting the samples after every call keeps exactly the newest of all. */
  lemma NewestGrows(calls: seq<Call>, call: Call)
    ensures Newest(Newest(Latencies(calls)) + [call.latencyMs]) == Newest(Latencies(calls + [call]))
  {
    assert Latencies(calls + [call]) == Latencies(calls) + [call.latencyMs];
  }

  lemma KindsFitGrows(kinds: map<string, KindStats>, calls: seq<Call>, call: Call)
    requires KindsFit(kinds, calls)
    ensures var s := if call.kind in kinds then kinds[call.kind] else KindStats(0, 0, 0);
      KindsFit(kinds[call.kind := Counted(s, call.failed)], calls + [call])
  {
    var s := if call.kind in kinds then kinds[call.kind] else KindStats(0, 0, 0);
    assert s == StatsOf(OfKind(calls, call.kind)) by {
      if call.kind !in kinds {
        assert OfKind(calls, call.kind) == [];
      }
    }
    var after := kinds[call.kind := Counted(s, call.failed)];
    hide StatsOf, OfKind;
    forall k
      ensures k in after <==> OfKind(calls + [call], k) != []
      ensures k in after ==> after[k] == StatsOf(OfKind(calls + [call], k))
    {
      KindGrows(calls, call, k);
    }
  }
}
