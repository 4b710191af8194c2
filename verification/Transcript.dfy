/** Messages of a model conversation, and what it means for a transcript to be well formed. */
module Transcript {
  import opened GoStrings

  datatype Role = System | User | Assistant | Tool | Other(text: string)

  datatype ToolCall = ToolCall(id: string, kind: string, name: string, arguments: string)

  datatype Message = Message(
    role: Role,
    content: string,
    reasoning: string,
    toolCalls: seq<ToolCall>,
    toolCallID: string,
    name: string,
    providerItems: seq<string>)

  predicate IsTool(m: Message) { m.role == Tool }

  /** An assistant message that carries tool calls opens a turn. */
  predicate OpensTurn(m: Message) { m.role == Assistant && m.toolCalls != [] }

  ghost predicate AllTools(ms: seq<Message>) {
    forall k :: 0 <= k < |ms| ==> IsTool(ms[k])
  }

  /** The transcript does not start in the middle of a turn. */
  predicate StartsFresh(ms: seq<Message>) {
    ms == [] || !IsTool(ms[0])
  }

  lemma Regroup(a: seq<Message>, b: seq<Message>, c: seq<Message>)
    ensures a + b + c == a + (b + c)
  {
  }

  /* ---- Cutting a transcript into units ---- */

  /** The number of tool messages `ms` starts with. */
  function ToolRun(ms: seq<Message>): (n: nat)
    ensures n <= |ms|
  {
    if ms != [] && IsTool(ms[0]) then 1 + ToolRun(ms[1..]) else 0
  }

  /** A unit is a turn with the tool messages standing directly behind it, or any other single
      message. */
  ghost predicate IsUnit(u: seq<Message>) {
    u != [] && if OpensTurn(u[0]) then AllTools(u[1..]) else |u| == 1
  }

  /** The unit `u` ends where `rest` begins. */
  ghost predicate Separate(u: seq<Message>, rest: seq<Message>) {
    IsUnit(u) && (OpensTurn(u[0]) ==> StartsFresh(rest))
  }

  /** The length of the first unit of `ms`. */
  function UnitLength(ms: seq<Message>): (n: nat)
    requires ms != []
    ensures 0 < n <= |ms|
  {
    if OpensTurn(ms[0]) then 1 + ToolRun(ms[1..]) else 1
  }

  lemma {:induction false} ToolRunIsMaximal(ms: seq<Message>)
    ensures AllTools(ms[..ToolRun(ms)])
    ensures StartsFresh(ms[ToolRun(ms)..])
  {
    if ms != [] && IsTool(ms[0]) {
      var n := ToolRun(ms[1..]);
      ToolRunIsMaximal(ms[1..]);
      assert ms[..1 + n] == [ms[0]] + ms[1..][..n];
      assert ms[1 + n..] == ms[1..][n..];
    }
  }

  /** Every nonempty transcript is its first unit followed by the rest. */
  lemma FirstUnit(ms: seq<Message>)
    requires ms != []
    ensures Separate(ms[..UnitLength(ms)], ms[UnitLength(ms)..])
    ensures ms == ms[..UnitLength(ms)] + ms[UnitLength(ms)..]
  {
    if OpensTurn(ms[0]) {
      ToolRunIsMaximal(ms[1..]);
      var n := UnitLength(ms);
      hide ToolRun, UnitLength, AllTools, StartsFresh;
      assert ms[..n][1..] == ms[1..][..n - 1];
      assert ms[n..] == ms[1..][n - 1..];
    }
  }

  lemma {:induction false} ToolRunSplit(run: seq<Message>, rest: seq<Message>)
    requires AllTools(run) && StartsFresh(rest)
    ensures ToolRun(run + rest) == |run|
  {
    if run == [] {
      assert run + rest == rest;
    } else {
      assert (run + rest)[1..] == run[1..] + rest;
      ToolRunSplit(run[1..], rest);
    }
  }

  /** A unit put in front of a transcript is its first unit. */
  lemma UnitCons(u: seq<Message>, rest: seq<Message>)
    requires Separate(u, rest)
    ensures UnitLength(u + rest) == |u|
    ensures (u + rest)[..|u|] == u && (u + rest)[|u|..] == rest
  {
    if OpensTurn(u[0]) {
      ToolRunSplit(u[1..], rest);
      assert (u + rest)[1..] == u[1..] + rest;
    }
  }

  /* ---- Well-formed transcripts ---- */

  function CallIds(calls: seq<ToolCall>): set<string> {
    if calls == [] then {} else {calls[0].id} + CallIds(calls[1..])
  }

  function ResultIds(results: seq<Message>): set<string> {
    if results == [] then {} else {results[0].toolCallID} + ResultIds(results[1..])
  }

  predicate DistinctCalls(calls: seq<ToolCall>) {
    calls == [] || (calls[0].id !in CallIds(calls[1..]) && DistinctCalls(calls[1..]))
  }

  predicate DistinctResults(results: seq<Message>) {
    results == [] || (results[0].toolCallID !in ResultIds(results[1..]) && DistinctResults(results[1..]))
  }

  lemma {:induction false} ResultIdsAppend(a: seq<Message>, b: seq<Message>)
    ensures ResultIds(a + b) == ResultIds(a) + ResultIds(b)
  {
    if a == [] {
      assert a + b == b;
    } else {
      assert (a + b)[1..] == a[1..] + b;
      ResultIdsAppend(a[1..], b);
    }
  }

  /** Every call of the turn has a result, every result has a call, and when the calls have
      distinct ids no id is answered twice. */
  ghost predicate Answers(calls: seq<ToolCall>, results: seq<Message>) {
    && "" !in CallIds(calls)
    && ResultIds(results) == CallIds(calls)
    && (DistinctCalls(calls) ==> DistinctResults(results))
  }

  ghost predicate GoodUnit(u: seq<Message>)
    requires u != []
  {
    var m := u[0];
    if OpensTurn(m) then Answers(m.toolCalls, u[1..])
    else !IsTool(m) && (m.role == Assistant ==> m.content != "")
  }

  /** What a provider accepts: turns are answered at once and completely, tool results stand
      nowhere else, and an assistant message without calls says something. */
  ghost predicate WellFormed(ms: seq<Message>)
    decreases |ms|
  {
    ms == [] || (GoodUnit(ms[..UnitLength(ms)]) && WellFormed(ms[UnitLength(ms)..]))
  }

  /** A unit that is good, has one result per call id, and whose reply is already normalized. */
  ghost predicate StableUnit(u: seq<Message>)
    requires u != []
  {
    var m := u[0];
    if OpensTurn(m) then
      "" !in CallIds(m.toolCalls) && ResultIds(u[1..]) == CallIds(m.toolCalls) && DistinctResults(u[1..])
    else
      && !IsTool(m)
      && (m.role == Assistant ==> m.content != "" && Trimmed(m.content) && m.name == "" && m.toolCallID == "")
  }

  ghost predicate Stable(ms: seq<Message>)
    decreases |ms|
  {
    ms == [] || (StableUnit(ms[..UnitLength(ms)]) && Stable(ms[UnitLength(ms)..]))
  }

  lemma StableCons(u: seq<Message>, rest: seq<Message>)
    requires Separate(u, rest)
    ensures Stable(u + rest) <==> StableUnit(u) && Stable(rest)
  {
    UnitCons(u, rest);
  }

  lemma WellFormedCons(u: seq<Message>, rest: seq<Message>)
    requires Separate(u, rest)
    ensures WellFormed(u + rest) <==> GoodUnit(u) && WellFormed(rest)
  {
    UnitCons(u, rest);
  }

  lemma {:induction false} StableIsWellFormed(ms: seq<Message>)
    requires Stable(ms)
    ensures WellFormed(ms) && StartsFresh(ms)
    decreases |ms|
  {
    if ms != [] {
      StableIsWellFormed(ms[UnitLength(ms)..]);
    }
  }

  /** No cut inside the tool run of a turn starts fresh. */
  lemma CutInsideUnit(u: seq<Message>, rest: seq<Message>, i: nat)
    requires IsUnit(u) && 0 < i < |u|
    ensures !StartsFresh((u + rest)[i..])
  {
    assert (u + rest)[i..][0] == u[1..][i - 1];
  }

  /** A stable transcript can be cut in front of every message that is not a tool result. */
  lemma {:induction false} StableSuffix(ms: seq<Message>, i: nat)
    requires Stable(ms) && i <= |ms| && StartsFresh(ms[i..])
    ensures Stable(ms[i..])
    decreases |ms|
  {
    if i > 0 {
      var n := UnitLength(ms);
      FirstUnit(ms);
      if i < n {
        CutInsideUnit(ms[..n], ms[n..], i);
      } else {
        assert ms[n..][i - n..] == ms[i..];
        StableSuffix(ms[n..], i - n);
      }
    }
  }
}
