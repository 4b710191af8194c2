/** `SanitizeMessages`: repair of an arbitrary list of messages into one that providers accept. */
module Sanitize {
  import opened GoStrings
  import opened Transcript

  const COMPLETED := "[Completed tool actions]"
  const ACKNOWLEDGED := "[Acknowledged]"
  const OMITTED := "[Tool execution completed or omitted]"

  /* ---- Specification ---- */

  /** Trimmed content, or a placeholder when nothing is left of it. */
  function OrElse(content: string, placeholder: string): string {
    var trimmed := TrimSpace(content);
    if trimmed == "" then placeholder else trimmed
  }

  function ValidCalls(calls: seq<ToolCall>): seq<ToolCall> {
    if calls == [] then []
    else if calls[0].id != "" then [calls[0]] + ValidCalls(calls[1..])
    else ValidCalls(calls[1..])
  }

  /** The results that answer an expected id, the first one for each id. */
  function Claimed(run: seq<Message>, expected: set<string>): seq<Message> {
    if run == [] then []
    else if run[0].toolCallID in expected then
      [run[0]] + Claimed(run[1..], expected - {run[0].toolCallID})
    else Claimed(run[1..], expected)
  }

  function Synthetic(c: ToolCall): Message {
    Message(Tool, OMITTED, "", [], c.id, c.name, [])
  }

  /** One synthetic result for each call whose id was not answered. */
  function Fill(calls: seq<ToolCall>, missing: set<string>): seq<Message> {
    if calls == [] then []
    else if calls[0].id in missing then [Synthetic(calls[0])] + Fill(calls[1..], missing)
    else Fill(calls[1..], missing)
  }

  function Reply(m: Message, placeholder: string): Message {
    Message(Assistant, OrElse(m.content, placeholder), m.reasoning, [], "", "", m.providerItems)
  }

  /** A turn together with the tool messages that stand directly behind it. */
  function RepairTurn(m: Message, run: seq<Message>): seq<Message> {
    var calls := ValidCalls(m.toolCalls);
    if calls == [] then
      [Message(Assistant, OrElse(m.content, COMPLETED), "", [], "", "", [])]
    else
      var kept := Claimed(run, CallIds(calls));
      if kept == [] then [Reply(m, COMPLETED)]
      else [m.(toolCalls := calls)] + kept + Fill(calls, CallIds(calls) - ResultIds(run))
  }

  function RepairUnit(u: seq<Message>): seq<Message>
    requires u != []
  {
    if OpensTurn(u[0]) then RepairTurn(u[0], u[1..])
    else if u[0].role == Assistant then [Reply(u[0], ACKNOWLEDGED)]
    else if IsTool(u[0]) then []
    else [u[0]]
  }

  function Sanitized(ms: seq<Message>): seq<Message>
    decreases |ms|
  {
    if ms == [] then []
    else RepairUnit(ms[..UnitLength(ms)]) + Sanitized(ms[UnitLength(ms)..])
  }

  /* ---- The loop ---- */

  lemma ClaimedSnoc(run: seq<Message>, m: Message, expected: set<string>)
    ensures Claimed(run + [m], expected) ==
      Claimed(run, expected) + (if m.toolCallID in expected - ResultIds(run) then [m] else [])
  {
    if run == [] {
      assert run + [m] == [m];
    } else {
      assert (run + [m])[1..] == run[1..] + [m];
      var id := run[0].toolCallID;
      assert ResultIds(run) == {id} + ResultIds(run[1..]);
      if id in expected {
        ClaimedSnoc(run[1..], m, expected - {id});
        assert expected - {id} - ResultIds(run[1..]) == expected - ResultIds(run);
      } else {
        ClaimedSnoc(run[1..], m, expected);
        assert expected - ResultIds(run[1..]) == expected - ResultIds(run);
      }
    }
  }

  lemma ValidCallsSnoc(calls: seq<ToolCall>, c: ToolCall)
    ensures ValidCalls(calls + [c]) == ValidCalls(calls) + (if c.id != "" then [c] else [])
  {
    if calls == [] {
      assert calls + [c] == [c];
    } else {
      assert (calls + [c])[1..] == calls[1..] + [c];
    }
  }

  lemma FillSnoc(calls: seq<ToolCall>, c: ToolCall, missing: set<string>)
    ensures Fill(calls + [c], missing) == Fill(calls, missing) + (if c.id in missing then [Synthetic(c)] else [])
  {
    if calls == [] {
      assert calls + [c] == [c];
    } else {
      assert (calls + [c])[1..] == calls[1..] + [c];
    }
  }

  method FilterCalls(calls: seq<ToolCall>) returns (valid: seq<ToolCall>)
    ensures valid == ValidCalls(calls)
  {
    valid := [];
    for k := 0 to |calls|
      invariant valid == ValidCalls(calls[..k])
    {
      ValidCallsSnoc(calls[..k], calls[k]);
      assert calls[..k + 1] == calls[..k] + [calls[k]];
      if calls[k].id != "" {
        valid := valid + [calls[k]];
      }
    }
    assert calls[..|calls|] == calls;
  }

  lemma RunEnds(ms: seq<Message>, i: nat, j: nat)
    requires i <= j <= |ms| && AllTools(ms[i..j]) && StartsFresh(ms[j..])
    ensures ToolRun(ms[i..]) == j - i
  {
    ToolRunSplit(ms[i..j], ms[j..]);
    assert ms[i..] == ms[i..j] + ms[j..];
  }

  /** The look-ahead behind message `i`: the results kept, the ids still expected and the index
      after the last tool message of the run. */
  method Collect(messages: seq<Message>, i: nat, ids: set<string>)
      returns (kept: seq<Message>, missing: set<string>, j: nat)
    requires i < |messages|
    ensures j == i + 1 + ToolRun(messages[i + 1..])
    ensures kept == Claimed(messages[i + 1..j], ids)
    ensures missing == ids - ResultIds(messages[i + 1..j])
  {
    var expected := ids;
    kept, j := [], i + 1;
    assert kept == Claimed(messages[i + 1..j], ids);
    hide Claimed, ToolRun;
    while j < |messages| && IsTool(messages[j])
      invariant i < j <= |messages|
      invariant AllTools(messages[i + 1..j])
      invariant expected == ids - ResultIds(messages[i + 1..j])
      invariant kept == Claimed(messages[i + 1..j], ids)
    {
      var run := messages[i + 1..j];
      ClaimedSnoc(run, messages[j], ids);
      assert messages[i + 1..j + 1] == run + [messages[j]];
      ResultIdsAppend(run, [messages[j]]);
      if messages[j].toolCallID in expected {
        kept := kept + [messages[j]];
        expected := expected - {messages[j].toolCallID};
      }
      j := j + 1;
    }
    missing := expected;
    RunEnds(messages, i + 1, j);
  }

  method FillMissing(calls: seq<ToolCall>, missing: set<string>) returns (synthetic: seq<Message>)
    ensures synthetic == Fill(calls, missing)
  {
    synthetic := [];
    for k := 0 to |calls|
      invariant synthetic == Fill(calls[..k], missing)
    {
      FillSnoc(calls[..k], calls[k], missing);
      assert calls[..k + 1] == calls[..k] + [calls[k]];
      if calls[k].id in missing {
        synthetic := synthetic + [Synthetic(calls[k])];
      }
    }
    assert calls[..|calls|] == calls;
  }

  /** The repair of the turn that message `i` opens, and the index behind its tool messages. */
  method SanitizeTurn(messages: seq<Message>, i: nat) returns (repaired: seq<Message>, j: nat)
    requires i < |messages| && OpensTurn(messages[i])
    ensures j == i + 1 + ToolRun(messages[i + 1..])
    ensures repaired == RepairTurn(messages[i], messages[i + 1..j])
  {
    var msg := messages[i];
    var calls := FilterCalls(msg.toolCalls);
    var kept, missing;
    kept, missing, j := Collect(messages, i, CallIds(calls));
    if |calls| == 0 {
      repaired := [Message(Assistant, OrElse(msg.content, COMPLETED), "", [], "", "", [])];
    } else if |kept| == 0 {
      repaired := [Reply(msg, COMPLETED)];
    } else {
      var synthetic := FillMissing(calls, missing);
      repaired := [msg.(toolCalls := calls)] + kept + synthetic;
    }
  }

  lemma SanitizedCons(u: seq<Message>, rest: seq<Message>)
    requires Separate(u, rest)
    ensures Sanitized(u + rest) == RepairUnit(u) + Sanitized(rest)
  {
    hide RepairUnit;
    UnitCons(u, rest);
  }

  /** The unit at index `i` and the transcript behind it. */
  lemma UnitAt(ms: seq<Message>, i: nat, j: nat)
    requires i < |ms|
    requires j == if OpensTurn(ms[i]) then i + 1 + ToolRun(ms[i + 1..]) else i + 1
    ensures j <= |ms| && Separate(ms[i..j], ms[j..]) && ms[i..] == ms[i..j] + ms[j..]
  {
    var rest := ms[i..];
    assert rest[1..] == ms[i + 1..];
    FirstUnit(rest);
    assert rest[..j - i] == ms[i..j] && rest[j - i..] == ms[j..];
  }

  /** One round of the loop: the unit at `i` ends at `j` and is repaired into `piece`. */
  lemma SanitizedRound(ms: seq<Message>, i: nat, j: nat, piece: seq<Message>, cleaned: seq<Message>)
    requires i < |ms| && cleaned + Sanitized(ms[i..]) == Sanitized(ms)
    requires j == if OpensTurn(ms[i]) then i + 1 + ToolRun(ms[i + 1..]) else i + 1
    requires j <= |ms| && piece == RepairUnit(ms[i..j])
    ensures (cleaned + piece) + Sanitized(ms[j..]) == Sanitized(ms)
  {
    hide *;
    UnitAt(ms, i, j);
    SanitizedCons(ms[i..j], ms[j..]);
    assert (cleaned + piece) + Sanitized(ms[j..]) == cleaned + (piece + Sanitized(ms[j..]));
  }

  method SanitizeMessages(messages: seq<Message>) returns (cleaned: seq<Message>)
    ensures cleaned == Sanitized(messages)
  {
    if |messages| == 0 {
      return messages;
    }
    cleaned := [];
    var i := 0;
    while i < |messages|
      invariant i <= |messages|
      invariant cleaned + Sanitized(messages[i..]) == Sanitized(messages)
    {
      var msg := messages[i];
      var j, piece := i + 1, [];
      if msg.role == Assistant {
        if |msg.toolCalls| > 0 {
          piece, j := SanitizeTurn(messages, i);
          assert messages[i..j][1..] == messages[i + 1..j];
        } else {
          piece := [Reply(msg, ACKNOWLEDGED)];
        }
      } else if msg.role == Tool {
      } else {
        piece := [msg];
      }
      assert piece == RepairUnit(messages[i..j]);
      UnitAt(messages, i, j);
      SanitizedRound(messages, i, j, piece, cleaned);
      cleaned := cleaned + piece;
      i := j;
    }
  }
}
