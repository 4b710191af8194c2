/** A turn that pauses for an approval half way, and the transcript it is resumed with. */
module Resume {
  import opened Transcript
  import opened Sanitize
  import opened SanitizeLaws

  const DEFERRED := "tool call was deferred pending approval of a concurrent action"

  function Result(c: ToolCall, content: string): Message {
    Message(Tool, content, "", [], c.id, c.name, [])
  }

  /** The results of the first calls of a turn, in call order. */
  function Results(calls: seq<ToolCall>, contents: seq<string>): seq<Message>
    requires |contents| <= |calls|
  {
    if contents == [] then []
    else
      var k := |contents| - 1;
      Results(calls, contents[..k]) + [Result(calls[k], contents[k])]
  }

  /** The transcript with the part of a turn whose first calls gave `contents`; this is what is
      saved as a checkpoint when the next call pauses. */
  function CheckpointOf(prefix: seq<Message>, turn: Message, contents: seq<string>): seq<Message>
    requires |contents| <= |turn.toolCalls|
  {
    prefix + [turn] + Results(turn.toolCalls, contents)
  }

  /* ---- Running a turn ---- */

  datatype Outcome = Observation(content: string) | ApprovalRequired

  datatype TurnEnd =
    | Finished(messages: seq<Message>)
    | Paused(checkpoint: seq<Message>, pending: ToolCall)

  /** The contents produced before the first call that needs an approval. */
  function Produced(outcomes: seq<Outcome>): (contents: seq<string>)
    ensures |contents| <= |outcomes|
  {
    if outcomes == [] || outcomes[0].ApprovalRequired? then []
    else [outcomes[0].content] + Produced(outcomes[1..])
  }

  lemma {:induction false} ProducedSnoc(outcomes: seq<Outcome>, k: nat)
    requires k <= |outcomes| && forall j :: 0 <= j < k ==> outcomes[j].Observation?
    ensures |Produced(outcomes[..k])| == k
    ensures k < |outcomes| ==>
      if outcomes[k].ApprovalRequired? then Produced(outcomes) == Produced(outcomes[..k])
      else Produced(outcomes[..k + 1]) == Produced(outcomes[..k]) + [outcomes[k].content]
  {
    if k > 0 {
      ProducedSnoc(outcomes[1..], k - 1);
      assert outcomes[..k][1..] == outcomes[1..][..k - 1];
      if k < |outcomes| {
        assert outcomes[..k + 1][1..] == outcomes[1..][..k];
      }
    } else if k < |outcomes| && outcomes[k].Observation? {
      assert outcomes[..1][1..] == [];
    }
  }

  /** How a turn ends: with all its results, or in front of the first call that needs an approval. */
  function TurnOf(messages: seq<Message>, turn: Message, outcomes: seq<Outcome>): TurnEnd
    requires |outcomes| == |turn.toolCalls|
  {
    var done := Produced(outcomes);
    if |done| == |turn.toolCalls| then Finished(CheckpointOf(messages, turn, done))
    else Paused(CheckpointOf(messages, turn, done), turn.toolCalls[|done|])
  }

  /** The tool loop of one iteration: the assistant message and its results are appended together,
      and a call that needs an approval saves the part of the turn built so far. */
  method RunTurn(messages: seq<Message>, turn: Message, outcomes: seq<Outcome>) returns (end: TurnEnd)
    requires |outcomes| == |turn.toolCalls|
    ensures end == TurnOf(messages, turn, outcomes)
  {
    var toolMessages := [];
    assert outcomes[..0] == [];
    for k := 0 to |turn.toolCalls|
      invariant forall j :: 0 <= j < k ==> outcomes[j].Observation?
      invariant |Produced(outcomes[..k])| == k
      invariant toolMessages == Results(turn.toolCalls, Produced(outcomes[..k]))
    {
      ProducedSnoc(outcomes, k);
      var call := turn.toolCalls[k];
      if outcomes[k].ApprovalRequired? {
        return Paused(messages + [turn] + toolMessages, call);
      }
      assert Produced(outcomes[..k + 1])[..k] == Produced(outcomes[..k]);
      toolMessages := toolMessages + [Result(call, outcomes[k].content)];
    }
    assert outcomes[..|outcomes|] == outcomes;
    end := Finished(messages + [turn] + toolMessages);
  }

  /* ---- Completing the transcript ---- */

  /** The nonempty ids of the tool messages in a transcript. */
  function AnsweredIds(ms: seq<Message>): set<string> {
    if ms == [] then {}
    else AnsweredIds(ms[..|ms| - 1]) + AnsweredBy(ms[|ms| - 1])
  }

  function AnsweredBy(m: Message): set<string> {
    if IsTool(m) && m.toolCallID != "" then {m.toolCallID} else {}
  }

  /** One deferral for each call without a result. */
  function Deferrals(calls: seq<ToolCall>, answered: set<string>): seq<Message> {
    if calls == [] then []
    else
      var k := |calls| - 1;
      var earlier := Deferrals(calls[..k], answered);
      if calls[k].id in answered then earlier else earlier + [Result(calls[k], DEFERRED)]
  }

  function LastAssistant(ms: seq<Message>): (k: int)
    ensures -1 <= k < |ms|
    ensures k >= 0 ==> ms[k].role == Assistant
    ensures forall j :: k < j < |ms| ==> ms[j].role != Assistant
  {
    if ms == [] then -1
    else if ms[|ms| - 1].role == Assistant then |ms| - 1
    else LastAssistant(ms[..|ms| - 1])
  }

  /** The transcript that a paused run is resumed with. */
  function Resumed(checkpoint: seq<Message>, pending: ToolCall, observation: string): seq<Message> {
    var ms := checkpoint + [Result(pending, observation)];
    var k := LastAssistant(ms);
    if k >= 0 && |ms[k].toolCalls| > 1 then ms + Deferrals(ms[k].toolCalls, AnsweredIds(ms)) else ms
  }

  method CompleteTranscript(checkpoint: seq<Message>, pending: ToolCall, observation: string)
      returns (resumeMessages: seq<Message>)
    ensures resumeMessages == Resumed(checkpoint, pending, observation)
  {
    resumeMessages := checkpoint + [Result(pending, observation)];
    ghost var ms := resumeMessages;
    var lastAssistant := -1;
    var i := |resumeMessages| - 1;
    assert ms[..|ms|] == ms;
    while i >= 0
      invariant -1 <= i < |ms| && lastAssistant == -1
      invariant LastAssistant(ms[..i + 1]) == LastAssistant(ms)
    {
      assert ms[..i + 1][..i] == ms[..i];
      if resumeMessages[i].role == Assistant {
        lastAssistant := i;
        break;
      }
      i := i - 1;
    }
    assert ms[..0] == [];
    if lastAssistant >= 0 && |resumeMessages[lastAssistant].toolCalls| > 1 {
      var calls := resumeMessages[lastAssistant].toolCalls;
      var resultIDs := {};
      for j := 0 to |resumeMessages|
        invariant resultIDs == AnsweredIds(ms[..j])
      {
        assert ms[..j + 1][..j] == ms[..j];
        if IsTool(resumeMessages[j]) && resumeMessages[j].toolCallID != "" {
          resultIDs := resultIDs + {resumeMessages[j].toolCallID};
        }
      }
      assert ms[..|ms|] == ms;
      for j := 0 to |calls|
        invariant resumeMessages == ms + Deferrals(calls[..j], resultIDs)
      {
        assert calls[..j + 1][..j] == calls[..j];
        if calls[j].id !in resultIDs {
          resumeMessages := resumeMessages + [Result(calls[j], DEFERRED)];
        }
      }
      assert calls[..|calls|] == calls;
    }
  }

  /* ---- Laws ---- */

  function AllDeferred(calls: seq<ToolCall>): seq<Message> {
    seq(|calls|, i requires 0 <= i < |calls| => Result(calls[i], DEFERRED))
  }

  lemma {:induction false} LastAssistantIsTurn(prefix: seq<Message>, turn: Message, run: seq<Message>)
    requires turn.role == Assistant && AllTools(run)
    ensures LastAssistant(prefix + [turn] + run) == |prefix|
  {
    var ms := prefix + [turn] + run;
    if run == [] {
      assert ms[|ms| - 1] == turn;
    } else {
      var n := |run| - 1;
      assert ms[..|ms| - 1] == prefix + [turn] + run[..n] && ms[|ms| - 1] == run[n];
      LastAssistantIsTurn(prefix, turn, run[..n]);
    }
  }

  lemma {:induction false} AnsweredIdsAppend(a: seq<Message>, b: seq<Message>)
    ensures AnsweredIds(a + b) == AnsweredIds(a) + AnsweredIds(b)
  {
    if b == [] {
      assert a + b == a;
    } else {
      var n := |b| - 1;
      assert (a + b)[..|a + b| - 1] == a + b[..n];
      AnsweredIdsAppend(a, b[..n]);
    }
  }

  lemma {:induction false} CallIdsAppend(a: seq<ToolCall>, b: seq<ToolCall>)
    ensures CallIds(a + b) == CallIds(a) + CallIds(b)
    ensures DistinctCalls(a + b) <==> DistinctCalls(a) && DistinctCalls(b) && CallIds(a) !! CallIds(b)
  {
    if a == [] {
      assert a + b == b;
    } else {
      assert (a + b)[1..] == a[1..] + b;
      CallIdsAppend(a[1..], b);
    }
  }

  lemma CallIdsSnoc(calls: seq<ToolCall>, c: ToolCall)
    ensures CallIds(calls + [c]) == CallIds(calls) + {c.id}
    ensures DistinctCalls(calls + [c]) <==> DistinctCalls(calls) && c.id !in CallIds(calls)
  {
    CallIdsAppend(calls, [c]);
    assert [c][1..] == [] && CallIds([c]) == {c.id};
  }

  lemma ResultSnoc(results: seq<Message>, c: ToolCall, content: string)
    requires AllTools(results)
    ensures AllTools(results + [Result(c, content)])
    ensures ResultIds(results + [Result(c, content)]) == ResultIds(results) + {c.id}
    ensures DistinctResults(results + [Result(c, content)]) <==> DistinctResults(results) && c.id !in ResultIds(results)
    ensures c.id != "" ==> AnsweredIds(results + [Result(c, content)]) == AnsweredIds(results) + {c.id}
  {
    var last := Result(c, content);
    assert [last][1..] == [] && [last][..0] == [] && ResultIds([last]) == {c.id};
    ResultIdsAppend(results, [last]);
    AnsweredIdsAppend(results, [last]);
    if c.id !in ResultIds(results) {
      DistinctAppend(results, [last]);
    } else {
      RepeatedResult(results, last);
    }
  }

  lemma {:induction false} RepeatedResult(results: seq<Message>, last: Message)
    requires last.toolCallID in ResultIds(results)
    ensures !DistinctResults(results + [last])
  {
    assert (results + [last])[1..] == results[1..] + [last];
    if results[0].toolCallID == last.toolCallID {
      ResultIdsAppend(results[1..], [last]);
    } else {
      RepeatedResult(results[1..], last);
    }
  }

  lemma {:induction false} ResultsFacts(calls: seq<ToolCall>, contents: seq<string>)
    requires |contents| <= |calls| && "" !in CallIds(calls[..|contents|])
    ensures AllTools(Results(calls, contents)) && |Results(calls, contents)| == |contents|
    ensures AnsweredIds(Results(calls, contents)) == ResultIds(Results(calls, contents)) == CallIds(calls[..|contents|])
    ensures DistinctCalls(calls[..|contents|]) <==> DistinctResults(Results(calls, contents))
  {
    if contents != [] {
      var k := |contents| - 1;
      assert calls[..k + 1] == calls[..k] + [calls[k]];
      CallIdsSnoc(calls[..k], calls[k]);
      ResultsFacts(calls, contents[..k]);
      ResultSnoc(Results(calls, contents[..k]), calls[k], contents[k]);
      hide CallIds, DistinctCalls, AnsweredIds, ResultIds, DistinctResults;
    }
  }

  lemma {:induction false} DeferralsAppend(a: seq<ToolCall>, b: seq<ToolCall>, answered: set<string>)
    requires CallIds(a) <= answered
    ensures Deferrals(a + b, answered) == Deferrals(b, answered)
  {
    if b == [] {
      assert a + b == a;
      if a != [] {
        var n := |a| - 1;
        assert a == a[..n] + [a[n]] && a[..n] + [] == a[..n] && [a[n]][1..] == [];
        CallIdsAppend(a[..n], [a[n]]);
        DeferralsAppend(a[..n], [], answered);
      }
    } else {
      var n := |b| - 1;
      assert (a + b)[..|a + b| - 1] == a + b[..n] && (a + b)[|a + b| - 1] == b[n];
      DeferralsAppend(a, b[..n], answered);
    }
  }

  lemma {:induction false} DeferralsFacts(calls: seq<ToolCall>, answered: set<string>)
    ensures AllTools(Deferrals(calls, answered))
    ensures ResultIds(Deferrals(calls, answered)) == CallIds(calls) - answered
    ensures DistinctCalls(calls) ==> DistinctResults(Deferrals(calls, answered))
  {
    if calls != [] {
      var n := |calls| - 1;
      assert calls == calls[..n] + [calls[n]];
      CallIdsSnoc(calls[..n], calls[n]);
      DeferralsFacts(calls[..n], answered);
      ResultSnoc(Deferrals(calls[..n], answered), calls[n], DEFERRED);
      hide CallIds, DistinctCalls, AnsweredIds, ResultIds, DistinctResults, DEFERRED;
    }
  }

  lemma AllDeferredSnoc(calls: seq<ToolCall>, c: ToolCall)
    ensures AllDeferred(calls + [c]) == AllDeferred(calls) + [Result(c, DEFERRED)]
    ensures |AllDeferred(calls)| == |calls|
  {
    hide Result;
  }

  lemma SnocIsSame(a: seq<Message>, b: seq<Message>, m: Message)
    ensures a + [m] == b + [m] <==> a == b
  {
    assert (a + [m])[..|a|] == a && (b + [m])[..|b|] == b;
    assert |a + [m]| == |a| + 1 && |b + [m]| == |b| + 1;
  }

  lemma {:induction false} DeferralsComplete(calls: seq<ToolCall>, answered: set<string>)
    ensures |Deferrals(calls, answered)| <= |calls|
    ensures Deferrals(calls, answered) == AllDeferred(calls) <==> CallIds(calls) !! answered
    ensures |Deferrals(calls, answered)| == |calls| <==> CallIds(calls) !! answered
  {
    if calls != [] {
      hide DEFERRED;
      var n := |calls| - 1;
      assert calls == calls[..n] + [calls[n]];
      CallIdsSnoc(calls[..n], calls[n]);
      DeferralsComplete(calls[..n], answered);
      var last := Result(calls[n], DEFERRED);
      AllDeferredSnoc(calls[..n], calls[n]);
      SnocIsSame(Deferrals(calls[..n], answered), AllDeferred(calls[..n]), last);
      hide CallIds, AllDeferred, Result;
    }
  }

  /** The calls of a turn are named apart and nonempty, and `k` of them have been executed. */
  ghost predicate PausedAt(turn: Message, contents: seq<string>) {
    && OpensTurn(turn) && |contents| < |turn.toolCalls|
    && DistinctCalls(turn.toolCalls) && "" !in CallIds(turn.toolCalls)
  }

  lemma CallsSplit(calls: seq<ToolCall>, k: nat)
    requires k <= |calls| && DistinctCalls(calls)
    ensures calls == calls[..k] + calls[k..]
    ensures CallIds(calls) == CallIds(calls[..k]) + CallIds(calls[k..])
    ensures CallIds(calls[..k]) !! CallIds(calls[k..])
    ensures "" !in CallIds(calls) ==> "" !in CallIds(calls[..k])
    ensures DistinctCalls(calls[k..])
  {
    assert calls == calls[..k] + calls[k..];
    CallIdsAppend(calls[..k], calls[k..]);
  }

  lemma CheckpointSnoc(prefix: seq<Message>, turn: Message, contents: seq<string>, observation: string)
    requires |contents| < |turn.toolCalls|
    ensures CheckpointOf(prefix, turn, contents) + [Result(turn.toolCalls[|contents|], observation)] ==
      CheckpointOf(prefix, turn, contents + [observation])
  {
    var done := contents + [observation];
    assert done[..|contents|] == contents;
    Regroup(prefix + [turn], Results(turn.toolCalls, contents), [Result(turn.toolCalls[|contents|], observation)]);
  }

  /** What the resume step finds in the transcript of a paused turn. */
  lemma CheckpointFacts(prefix: seq<Message>, turn: Message, done: seq<string>)
    requires OpensTurn(turn) && |done| <= |turn.toolCalls| && "" !in CallIds(turn.toolCalls[..|done|])
    ensures var ms := CheckpointOf(prefix, turn, done);
      && LastAssistant(ms) == |prefix| < |ms| && ms[|prefix|] == turn
      && AnsweredIds(ms) == AnsweredIds(prefix) + CallIds(turn.toolCalls[..|done|])
  {
    var results := Results(turn.toolCalls, done);
    ResultsFacts(turn.toolCalls, done);
    assert [turn][..0] == [] && AnsweredIds([turn]) == {};
    hide CallIds, AnsweredIds, ResultIds, DistinctResults, LastAssistant, Results;
    LastAssistantIsTurn(prefix, turn, results);
    AnsweredIdsAppend(prefix, [turn]);
    AnsweredIdsAppend(prefix + [turn], results);
  }

  /** The resumed transcript: everything before the pause, the approved result, and the deferral
      of each remaining call whose id has no result anywhere in the transcript. */
  lemma ResumedIs(prefix: seq<Message>, turn: Message, contents: seq<string>, observation: string)
    requires PausedAt(turn, contents)
    ensures var calls, done := turn.toolCalls, contents + [observation];
      Resumed(CheckpointOf(prefix, turn, contents), calls[|contents|], observation) ==
      CheckpointOf(prefix, turn, done)
        + Deferrals(calls[|done|..], AnsweredIds(prefix) + CallIds(calls[..|done|]))
  {
    var calls, done := turn.toolCalls, contents + [observation];
    var answered := AnsweredIds(prefix) + CallIds(calls[..|done|]);
    assert |calls| == 1 ==> calls[|done|..] == [] && Deferrals([], answered) == [];
    hide Result, Results, Deferrals, CallIds, AnsweredIds, DistinctCalls, CheckpointOf, LastAssistant;
    CallsSplit(calls, |done|);
    CheckpointSnoc(prefix, turn, contents, observation);
    CheckpointFacts(prefix, turn, done);
    DeferralsAppend(calls[..|done|], calls[|done|..], answered);
  }

  /** Resuming completes the turn, with the results already produced, the approved one and one
      deferral per remaining call in call order, exactly when the ids of the remaining calls do
      not occur among the results of earlier turns. */
  lemma ResumeCompletesTurn(prefix: seq<Message>, turn: Message, contents: seq<string>, observation: string)
    requires PausedAt(turn, contents)
    ensures var calls, done := turn.toolCalls, contents + [observation];
      Resumed(CheckpointOf(prefix, turn, contents), calls[|contents|], observation) ==
        CheckpointOf(prefix, turn, done) + AllDeferred(calls[|done|..])
      <==> CallIds(calls[|done|..]) !! AnsweredIds(prefix)
  {
    var calls, done := turn.toolCalls, contents + [observation];
    ResumedIs(prefix, turn, contents, observation);
    CallsSplit(calls, |done|);
    DeferralsComplete(calls[|done|..], AnsweredIds(prefix) + CallIds(calls[..|done|]));
    hide Results, Deferrals, CallIds, AnsweredIds, DistinctCalls, DistinctResults, ResultIds, Resumed;
  }

  /** A turn that uses an id of an earlier turn again, paused at its first call: the resumed transcript has
      the approved result and no deferral for the other call. */
  lemma ReusedIdGetsNoDeferral(observation: string)
      returns (prefix: seq<Message>, turn: Message)
    ensures PausedAt(turn, []) && |turn.toolCalls| == 2
    ensures Resumed(CheckpointOf(prefix, turn, []), turn.toolCalls[0], observation) ==
      CheckpointOf(prefix, turn, [observation])
  {
    var used, other := ToolCall("a", "function", "f", "{}"), ToolCall("b", "function", "g", "{}");
    var before := Message(Assistant, "", "", [used], "", "", []);
    turn := Message(Assistant, "", "", [other, used], "", "", []);
    prefix := [before, Result(used, "done")];
    var calls := turn.toolCalls;
    assert calls == [other, used] && calls[1..] == [used] && calls[..1] == [other];
    CallsOfTwo(other, used);
    assert prefix[..1] == [before] && [before][..0] == [];
    assert AnsweredBy(prefix[1]) == {"a"};
    assert "a" in AnsweredIds(prefix);
    assert [used][..0] == [] && Deferrals([used], AnsweredIds(prefix) + CallIds([other])) == [];
    assert [] + [observation] == [observation];
    assert OpensTurn(turn) && "" !in {"b", "a"};
    hide Deferrals, AnsweredIds, CallIds, DistinctCalls, CheckpointOf, Resumed;
    ResumedIs(prefix, turn, [], observation);
  }

  lemma CallsOfTwo(a: ToolCall, b: ToolCall)
    requires a.id != b.id
    ensures CallIds([a, b]) == {a.id, b.id} && DistinctCalls([a, b])
  {
    assert [a, b][1..] == [b] && [b][1..] == [];
    assert CallIds([b]) == {b.id};
  }

  /** What stands behind the turn in the resumed transcript. */
  lemma RunFacts(calls: seq<ToolCall>, done: seq<string>, earlier: set<string>)
    requires 0 < |done| <= |calls| && DistinctCalls(calls) && "" !in CallIds(calls)
    ensures var rest := calls[|done|..];
      var deferred := Deferrals(rest, earlier + CallIds(calls[..|done|]));
      var run := Results(calls, done) + deferred;
      && run != [] && AllTools(run) && DistinctResults(run) && ResultIds(run) <= CallIds(calls)
      && (CallIds(rest) !! earlier ==> ResultIds(run) == CallIds(calls) && deferred == AllDeferred(rest))
  {
    var rest := calls[|done|..];
    var answered := earlier + CallIds(calls[..|done|]);
    CallsSplit(calls, |done|);
    CallIdsAppend(calls[..|done|], rest);
    ResultsFacts(calls, done);
    DeferralsFacts(rest, answered);
    DeferralsComplete(rest, answered);
    hide Results, Deferrals, CallIds, DistinctCalls, DistinctResults, ResultIds;
    ResultIdsAppend(Results(calls, done), Deferrals(rest, answered));
    DistinctAppend(Results(calls, done), Deferrals(rest, answered));
  }

  /** Whatever the earlier turns contain, sanitizing the resumed transcript repairs them on their
      own and leaves the turn with exactly one result per call; when the remaining ids are fresh,
      it leaves the turn as it is. */
  lemma SanitizeAfterResume(prefix: seq<Message>, turn: Message, contents: seq<string>, observation: string)
      returns (results: seq<Message>)
    requires PausedAt(turn, contents)
    ensures var calls, done := turn.toolCalls, contents + [observation];
      var resumed := Resumed(CheckpointOf(prefix, turn, contents), calls[|contents|], observation);
      && Sanitized(resumed) == Sanitized(prefix) + ([turn] + results)
      && AllTools(results) && DistinctResults(results) && ResultIds(results) == CallIds(calls)
      && Results(calls, done) <= results
      && (CallIds(calls[|done|..]) !! AnsweredIds(prefix) ==>
        results == Results(calls, done) + AllDeferred(calls[|done|..]))
  {
    var calls, done := turn.toolCalls, contents + [observation];
    var answered := AnsweredIds(prefix) + CallIds(calls[..|done|]);
    var produced, deferred := Results(calls, done), Deferrals(calls[|done|..], answered);
    var run := produced + deferred;
    RunFacts(calls, done, AnsweredIds(prefix));
    hide Results, Deferrals, CallIds, AnsweredIds, DistinctCalls, DistinctResults, ResultIds, Resumed,
        Sanitized, AllTools;
    ResumedIs(prefix, turn, contents, observation);
    results := RepairedRun(turn, run);
    RegroupTurn(prefix, turn, produced, deferred);
    SanitizedAppend(prefix, [turn] + run);
  }

  lemma RegroupTurn(prefix: seq<Message>, turn: Message, produced: seq<Message>, deferred: seq<Message>)
    ensures prefix + [turn] + produced + deferred == prefix + ([turn] + (produced + deferred))
  {
  }

  lemma RepairedRun(turn: Message, run: seq<Message>) returns (results: seq<Message>)
    requires OpensTurn(turn) && AllTools(run) && run != []
    requires "" !in CallIds(turn.toolCalls) && DistinctCalls(turn.toolCalls)
    requires DistinctResults(run) && ResultIds(run) <= CallIds(turn.toolCalls)
    ensures Sanitized([turn] + run) == [turn] + results
    ensures run <= results && AllTools(results) && DistinctResults(results)
    ensures ResultIds(results) == CallIds(turn.toolCalls)
    ensures ResultIds(run) == CallIds(turn.toolCalls) ==> results == run
  {
    var calls := turn.toolCalls;
    var missing := CallIds(calls) - ResultIds(run);
    ValidCallsFacts(calls);
    ClaimedAll(run, CallIds(calls));
    RepairedTurn(turn, run);
    DistinctCallsNoneTwice(calls, missing);
    FillNothing(calls, missing);
    results := run + Fill(calls, missing);
    Regroup([turn], run, Fill(calls, missing));
    assert ([turn] + run)[1..] == run && [turn] + run + [] == [turn] + run;
    assert turn.(toolCalls := calls) == turn;
    hide Fill, Claimed, ValidCalls, CallIds, ResultIds, DistinctCalls, DistinctResults, NoneTwice, Sanitized;
    SanitizedCons([turn] + run, []);
    assert Sanitized([]) == [];
  }
}
