/** What becomes of each message of a transcript. */
module SanitizeExact {
  import opened Picking
  import opened GoStrings
  import opened Transcript
  import opened Sanitize
  import opened SanitizeLaws

  /* ---- The parts of a turn ---- */

  lemma {:induction false} ValidAt(calls: seq<ToolCall>) returns (ps: seq<nat>)
    ensures Picks(calls, ps, ValidCalls(calls))
    ensures forall i: nat :: i < |calls| ==> (i in ps <==> calls[i].id != "")
  {
    ps := [];
    PicksNothing(calls);
    if calls != [] {
      var k := |calls| - 1;
      ps := ValidAt(calls[..k]);
      assert calls == calls[..k] + [calls[k]];
      ValidCallsSnoc(calls[..k], calls[k]);
      PicksSnoc(calls[..k], calls[k], ps, ValidCalls(calls[..k]), calls);
      hide Picks, ValidCalls;
      if calls[k].id != "" {
        ps := ps + [k];
      }
    }
  }

  /** The result at `i` answers one of the ids, and none in front of it does so. */
  ghost predicate AnswersFirst(run: seq<Message>, i: nat, ids: set<string>) {
    i < |run| && run[i].toolCallID in ids && forall j :: 0 <= j < i ==> run[j].toolCallID != run[i].toolCallID
  }

  lemma {:induction false} KeptAt(run: seq<Message>, ids: set<string>) returns (qs: seq<nat>)
    ensures Picks(run, qs, Claimed(run, ids))
    ensures forall i: nat :: i < |run| ==> (i in qs <==> AnswersFirst(run, i, ids))
  {
    qs := [];
    PicksNothing(run);
    if run != [] {
      var k := |run| - 1;
      qs := KeptAt(run[..k], ids);
      assert run == run[..k] + [run[k]];
      ClaimedSnoc(run[..k], run[k], ids);
      PicksSnoc(run[..k], run[k], qs, Claimed(run[..k], ids), run);
      hide Picks, Claimed;
      assert forall i: nat :: i < k ==> (AnswersFirst(run[..k], i, ids) <==> AnswersFirst(run, i, ids));
      AnsweredIn(run[..k], run[k].toolCallID);
      if AnswersFirst(run, k, ids) {
        qs := qs + [k];
      }
    }
  }

  lemma AnsweredIn(run: seq<Message>, id: string)
    ensures id in ResultIds(run) <==> exists j :: 0 <= j < |run| && run[j].toolCallID == id
  {
  }

  /** The placeholder for a call. */
  ghost predicate IsPlaceholder(m: Message, c: ToolCall) {
    m == Message(Tool, "[Tool execution completed or omitted]", "", [], c.id, c.name, [])
  }

  lemma {:induction false} FilledAt(calls: seq<ToolCall>, missing: set<string>) returns (rs: seq<nat>)
    ensures Places(rs, |calls|) && |Fill(calls, missing)| == |rs|
    ensures forall k :: 0 <= k < |rs| ==> IsPlaceholder(Fill(calls, missing)[k], calls[rs[k]])
    ensures forall i: nat :: i < |calls| ==> (i in rs <==> calls[i].id in missing)
  {
    rs := [];
    if calls != [] {
      var n := |calls| - 1;
      rs := FilledAt(calls[..n], missing);
      assert calls == calls[..n] + [calls[n]];
      FillSnoc(calls[..n], calls[n], missing);
      hide Fill;
      if calls[n].id in missing {
        rs := rs + [n];
      }
    }
  }

  /* ---- Turns ---- */

  /** The valid calls of a turn, the results that are kept, and the calls that get a placeholder. */
  datatype Parts = Parts(calls: seq<ToolCall>, kept: seq<Message>, unanswered: seq<nat>)

  ghost predicate HasId(calls: seq<ToolCall>, id: string) {
    exists k :: 0 <= k < |calls| && calls[k].id == id
  }

  /** The calls with an id, in order. */
  ghost predicate WithId(all: seq<ToolCall>, calls: seq<ToolCall>) {
    exists ps ::
      Picks(all, ps, calls) && forall i: nat :: i < |all| ==> (i in ps <==> all[i].id != "")
  }

  /** The first result for each of the calls' ids, in the order of the results. */
  ghost predicate FirstResults(run: seq<Message>, calls: seq<ToolCall>, kept: seq<Message>) {
    exists qs ::
      Picks(run, qs, kept) && forall i: nat :: i < |run| ==> (i in qs <==> KeepsResult(run, i, calls))
  }

  ghost predicate KeepsResult(run: seq<Message>, i: nat, calls: seq<ToolCall>) {
    i < |run| && HasId(calls, run[i].toolCallID) && forall j :: 0 <= j < i ==> run[j].toolCallID != run[i].toolCallID
  }

  /** The calls without any result in the run, in order. */
  ghost predicate WithoutResult(run: seq<Message>, calls: seq<ToolCall>, rs: seq<nat>) {
    && Places(rs, |calls|)
    && forall i: nat :: i < |calls| ==> (i in rs <==> forall j :: 0 <= j < |run| ==> run[j].toolCallID != calls[i].id)
  }

  ghost predicate PartsOf(m: Message, run: seq<Message>, p: Parts) {
    WithId(m.toolCalls, p.calls) && FirstResults(run, p.calls, p.kept) && WithoutResult(run, p.calls, p.unanswered)
  }

  /** A repaired turn: the assistant's text alone when no call is valid or none was answered; otherwise the message with
      its valid calls, the kept results as they were, and the placeholders. */
  ghost predicate TurnBecomes(m: Message, p: Parts, out: seq<Message>) {
    if p.calls == [] then
      out == [Message(Assistant, OrElse(m.content, "[Completed tool actions]"), "", [], "", "", [])]
    else if p.kept == [] then
      out == [Message(Assistant, OrElse(m.content, "[Completed tool actions]"), m.reasoning, [], "", "", m.providerItems)]
    else
      && |out| == 1 + |p.kept| + |p.unanswered|
      && out[0] == m.(toolCalls := p.calls)
      && out[1..1 + |p.kept|] == p.kept
      && forall k :: 0 <= k < |p.unanswered| ==>
        p.unanswered[k] < |p.calls| && IsPlaceholder(out[1 + |p.kept| + k], p.calls[p.unanswered[k]])
  }

  lemma CallIdsAre(calls: seq<ToolCall>, id: string)
    ensures id in CallIds(calls) <==> HasId(calls, id)
  {
  }

  lemma ClaimedAreFirst(run: seq<Message>, calls: seq<ToolCall>)
    ensures FirstResults(run, calls, Claimed(run, CallIds(calls)))
  {
    var qs := KeptAt(run, CallIds(calls));
    hide Picks, Claimed;
    forall i: nat | i < |run|
      ensures i in qs <==> KeepsResult(run, i, calls)
    {
      CallIdsAre(calls, run[i].toolCallID);
    }
  }

  lemma FilledLackResult(run: seq<Message>, calls: seq<ToolCall>, rs: seq<nat>)
    requires Places(rs, |calls|)
    requires forall i: nat :: i < |calls| ==> (i in rs <==> calls[i].id in CallIds(calls) - ResultIds(run))
    ensures WithoutResult(run, calls, rs)
  {
    forall i: nat | i < |calls|
      ensures i in rs <==> forall j :: 0 <= j < |run| ==> run[j].toolCallID != calls[i].id
    {
      CallIdsAre(calls, calls[i].id);
      AnsweredIn(run, calls[i].id);
    }
  }

  lemma RepairIs(m: Message, run: seq<Message>)
    ensures var calls := ValidCalls(m.toolCalls);
      var kept, filled := Claimed(run, CallIds(calls)), Fill(calls, CallIds(calls) - ResultIds(run));
      RepairTurn(m, run) ==
        if calls == [] then [Message(Assistant, OrElse(m.content, COMPLETED), "", [], "", "", [])]
        else if kept == [] then [Message(Assistant, OrElse(m.content, COMPLETED), m.reasoning, [], "", "", m.providerItems)]
        else [m.(toolCalls := calls)] + kept + filled
  {
  }

  lemma FullTurn(m: Message, p: Parts, filled: seq<Message>)
    requires p.calls != [] && p.kept != [] && |filled| == |p.unanswered| && Places(p.unanswered, |p.calls|)
    requires forall k :: 0 <= k < |filled| ==> IsPlaceholder(filled[k], p.calls[p.unanswered[k]])
    ensures TurnBecomes(m, p, [m.(toolCalls := p.calls)] + p.kept + filled)
  {
    hide IsPlaceholder, OrElse;
  }

  lemma TurnExactly(m: Message, run: seq<Message>) returns (p: Parts)
    ensures PartsOf(m, run, p) && TurnBecomes(m, p, RepairTurn(m, run))
  {
    var calls := ValidCalls(m.toolCalls);
    var ids := CallIds(calls);
    var ps := ValidAt(m.toolCalls);
    assert WithId(m.toolCalls, calls);
    ClaimedAreFirst(run, calls);
    var rs := FilledAt(calls, ids - ResultIds(run));
    FilledLackResult(run, calls, rs);
    p := Parts(calls, Claimed(run, ids), rs);
    assert PartsOf(m, run, p) by { hide Picks, Places, WithId, FirstResults, WithoutResult; }
    RepairIs(m, run);
    if calls != [] && p.kept != [] {
      hide *;
      FullTurn(m, p, Fill(calls, ids - ResultIds(run)));
    }
  }

  /* ---- Units ---- */

  /** The repair of a message that opens no turn: an assistant's text is trimmed, a stray result is dropped, and every
      other message stays as it is. */
  lemma SingleExactly(m: Message)
    requires !OpensTurn(m)
    ensures RepairUnit([m]) ==
      if m.role == Assistant then
        [Message(Assistant, OrElse(m.content, "[Acknowledged]"), m.reasoning, [], "", "", m.providerItems)]
      else if m.role == Tool then []
      else [m]
  {
  }


  /* ---- In context ---- */

  /** Wherever a turn stands in a transcript, it and the results behind it become the repaired turn, and what stands
      around it is repaired on its own. */
  lemma TurnInContext(a: seq<Message>, m: Message, run: seq<Message>, b: seq<Message>) returns (p: Parts, out: seq<Message>)
    requires OpensTurn(m) && AllTools(run) && StartsFresh(b)
    ensures Sanitized(a + ([m] + run) + b) == Sanitized(a) + out + Sanitized(b)
    ensures PartsOf(m, run, p) && TurnBecomes(m, p, out)
  {
    p := TurnExactly(m, run);
    out := RepairTurn(m, run);
    var u := [m] + run;
    assert Separate(u, b) by {
      assert u[1..] == run;
    }
    assert RepairUnit(u) == out by {
      assert u[1..] == run;
    }
    InContext(a, u, b);
  }

  lemma InContext(a: seq<Message>, u: seq<Message>, b: seq<Message>)
    requires Separate(u, b) && !IsTool(u[0])
    ensures Sanitized(a + u + b) == Sanitized(a) + RepairUnit(u) + Sanitized(b)
  {
    hide Sanitized, RepairUnit;
    assert StartsFresh(u + b);
    SanitizedAppend(a, u + b);
    SanitizedCons(u, b);
    hide *;
    Regroup(a, u, b);
    Regroup(Sanitized(a), RepairUnit(u), Sanitized(b));
  }

  lemma SingleInContext(a: seq<Message>, m: Message, b: seq<Message>)
    requires !OpensTurn(m) && !IsTool(m)
    ensures Sanitized(a + [m] + b) == Sanitized(a) + (
      if m.role == Assistant then
        [Message(Assistant, OrElse(m.content, "[Acknowledged]"), m.reasoning, [], "", "", m.providerItems)]
      else [m]) + Sanitized(b)
  {
    SingleExactly(m);
    hide RepairUnit, Sanitized;
    InContext(a, [m], b);
  }
}
