/** The messages a turn and a resume append, one by one. */
module ResumeExact {
  import opened Transcript
  import opened Picking
  import opened Resume

  /** A tool message with the id and the name of a call. */
  function ToolMessage(c: ToolCall, content: string): Message {
    Message(Tool, content, "", [], c.id, c.name, [])
  }

  /* ---- A turn ---- */

  lemma {:induction false} ProducedAt(outcomes: seq<Outcome>)
    ensures var n := |Produced(outcomes)|;
      && (forall k :: 0 <= k < n ==> outcomes[k].Observation? && Produced(outcomes)[k] == outcomes[k].content)
      && (n < |outcomes| ==> outcomes[n].ApprovalRequired?)
  {
    if outcomes != [] && outcomes[0].Observation? {
      ProducedAt(outcomes[1..]);
    }
  }

  lemma {:induction false} ResultsAt(calls: seq<ToolCall>, contents: seq<string>)
    requires |contents| <= |calls|
    ensures |Results(calls, contents)| == |contents|
    ensures forall k :: 0 <= k < |contents| ==> Results(calls, contents)[k] == ToolMessage(calls[k], contents[k])
  {
    if contents != [] {
      var k := |contents| - 1;
      ResultsAt(calls, contents[..k]);
    }
  }

  lemma CheckpointAt(prefix: seq<Message>, turn: Message, contents: seq<string>)
    requires |contents| <= |turn.toolCalls|
    ensures var ms := CheckpointOf(prefix, turn, contents); var n := |prefix|;
      && |ms| == n + 1 + |contents| && ms[..n] == prefix && ms[n] == turn
      && forall k :: 0 <= k < |contents| ==> ms[n + 1 + k] == ToolMessage(turn.toolCalls[k], contents[k])
  {
    ResultsAt(turn.toolCalls, contents);
    assert CheckpointOf(prefix, turn, contents) == prefix + [turn] + Results(turn.toolCalls, contents);
    hide *;
    Behind(prefix, turn, Results(turn.toolCalls, contents));
  }

  lemma Behind(prefix: seq<Message>, turn: Message, results: seq<Message>)
    ensures var ms, n := prefix + [turn] + results, |prefix|;
      && |ms| == n + 1 + |results| && ms[..n] == prefix && ms[n] == turn
      && forall k :: 0 <= k < |results| ==> ms[n + 1 + k] == results[k]
  {
  }

  /** The transcript at the end of a turn. */
  function MessagesOf(end: TurnEnd): seq<Message> {
    if end.Finished? then end.messages else end.checkpoint
  }

  /** What a turn appends: its message and then, for each call up to the first that needs an approval, a tool
      message with the call's id and name and the observation.  It pauses at that call. */
  lemma TurnAppends(messages: seq<Message>, turn: Message, outcomes: seq<Outcome>) returns (produced: nat)
    requires |outcomes| == |turn.toolCalls|
    ensures var end := TurnOf(messages, turn, outcomes); var ms := MessagesOf(end);
      && |ms| == |messages| + 1 + produced && produced <= |outcomes|
      && ms[..|messages|] == messages && ms[|messages|] == turn
      && (forall k :: 0 <= k < produced ==>
        && outcomes[k].Observation?
        && ms[|messages| + 1 + k] == ToolMessage(turn.toolCalls[k], outcomes[k].content))
      && (end.Finished? <==> produced == |outcomes|)
      && (end.Paused? ==> outcomes[produced].ApprovalRequired? && end.pending == turn.toolCalls[produced])
  {
    var done := Produced(outcomes);
    produced := |done|;
    ProducedAt(outcomes);
    hide Produced, CheckpointOf, ToolMessage;
    CheckpointAt(messages, turn, done);
  }

  /* ---- A resume ---- */

  /** Some tool message of the transcript carries the id. */
  ghost predicate IsAnswered(ms: seq<Message>, id: string) {
    id != "" && exists j :: 0 <= j < |ms| && IsTool(ms[j]) && ms[j].toolCallID == id
  }

  lemma {:induction false} AnsweredIdsAre(ms: seq<Message>, id: string)
    ensures id in AnsweredIds(ms) <==> IsAnswered(ms, id)
  {
    if ms != [] {
      var k := |ms| - 1;
      AnsweredIdsAre(ms[..k], id);
      if IsAnswered(ms[..k], id) {
        var j :| 0 <= j < k && IsTool(ms[..k][j]) && ms[..k][j].toolCallID == id;
        assert ms[j].toolCallID == id;
      }
      if IsAnswered(ms, id) && id !in AnsweredBy(ms[k]) {
        var j :| 0 <= j < |ms| && IsTool(ms[j]) && ms[j].toolCallID == id;
        assert j < k && ms[..k][j] == ms[j];
      }
    }
  }

  lemma {:induction false} DeferralsAt(calls: seq<ToolCall>, answered: set<string>) returns (ps: seq<nat>)
    ensures Places(ps, |calls|) && forall p :: 0 <= p < |calls| ==> (p in ps <==> calls[p].id !in answered)
    ensures |Deferrals(calls, answered)| == |ps|
    ensures forall k :: 0 <= k < |ps| ==> Deferrals(calls, answered)[k] == ToolMessage(calls[ps[k]], DEFERRED)
  {
    ps := [];
    if calls != [] {
      var k := |calls| - 1;
      ps := DeferralsAt(calls[..k], answered);
      if calls[k].id !in answered {
        ps := ps + [k];
      }
    }
  }

  /** The calls that a resume looks at: those of the last assistant message, if it carries more than one. */
  function OpenCalls(ms: seq<Message>): seq<ToolCall> {
    var k := LastAssistant(ms);
    if k >= 0 && |ms[k].toolCalls| > 1 then ms[k].toolCalls else []
  }

  /** What a resume appends to any checkpoint: a tool message with the id and the name of the pending call and the
      observation, and then, in call order, one with the deferral text for each call of the last assistant message
      whose id no tool message carries. */
  lemma ResumeAppends(checkpoint: seq<Message>, pending: ToolCall, observation: string) returns (ps: seq<nat>)
    ensures var out := Resumed(checkpoint, pending, observation); var n := |checkpoint|;
      && |out| == n + 1 + |ps| && out[..n] == checkpoint && out[n] == ToolMessage(pending, observation)
      && var calls := OpenCalls(out[..n + 1]);
        && Places(ps, |calls|)
        && (forall p :: 0 <= p < |calls| ==> (p in ps <==> !IsAnswered(out[..n + 1], calls[p].id)))
        && (forall k :: 0 <= k < |ps| ==>
          out[n + 1 + k] == ToolMessage(calls[ps[k]], "tool call was deferred pending approval of a concurrent action"))
  {
    var ms := checkpoint + [ToolMessage(pending, observation)];
    var calls, out := OpenCalls(ms), Resumed(checkpoint, pending, observation);
    ps := DeferralsAt(calls, AnsweredIds(ms));
    forall p | 0 <= p < |calls|
      ensures p in ps <==> !IsAnswered(ms, calls[p].id)
    {
      AnsweredIdsAre(ms, calls[p].id);
    }
    assert Deferrals([], AnsweredIds(ms)) == [];
    hide Deferrals, AnsweredIds, IsAnswered, LastAssistant;
    assert out == ms + Deferrals(calls, AnsweredIds(ms));
    assert out[..|checkpoint| + 1] == ms;
  }
}
