/** What `SanitizeMessages` promises, for every list of messages. */
module SanitizeLaws {
  import opened GoStrings
  import opened Transcript
  import opened Sanitize

  /* ---- One turn ---- */

  lemma {:induction false} ClaimedFacts(run: seq<Message>, expected: set<string>)
    ensures DistinctResults(Claimed(run, expected))
    ensures ResultIds(Claimed(run, expected)) == expected * ResultIds(run)
    ensures AllTools(run) ==> AllTools(Claimed(run, expected))
  {
    if run != [] {
      var id := run[0].toolCallID;
      ClaimedFacts(run[1..], if id in expected then expected - {id} else expected);
    }
  }

  /** No missing id stands on two calls. */
  predicate NoneTwice(calls: seq<ToolCall>, missing: set<string>) {
    calls == [] ||
    ((calls[0].id in missing ==> calls[0].id !in CallIds(calls[1..])) && NoneTwice(calls[1..], missing))
  }

  lemma {:induction false} FillFacts(calls: seq<ToolCall>, missing: set<string>)
    ensures AllTools(Fill(calls, missing))
    ensures ResultIds(Fill(calls, missing)) == missing * CallIds(calls)
    ensures DistinctResults(Fill(calls, missing)) <==> NoneTwice(calls, missing)
  {
    if calls != [] {
      var later := Fill(calls[1..], missing);
      FillFacts(calls[1..], missing);
      assert ([Synthetic(calls[0])] + later)[1..] == later;
    }
  }

  lemma {:induction false} ValidCallsFacts(calls: seq<ToolCall>)
    ensures CallIds(ValidCalls(calls)) == CallIds(calls) - {""}
    ensures DistinctCalls(calls) ==> DistinctCalls(ValidCalls(calls))
    ensures "" !in CallIds(calls) ==> ValidCalls(calls) == calls
  {
    if calls != [] {
      var later := ValidCalls(calls[1..]);
      ValidCallsFacts(calls[1..]);
      assert ([calls[0]] + later)[1..] == later;
    }
  }

  /* ---- Every unit is repaired into nothing or into one good unit ---- */

  /** The repair of a turn that keeps its calls: the kept results answer, each id once, the ids
      that occur in the run, and the synthetic ones answer all others. */
  lemma RepairedTurn(m: Message, run: seq<Message>)
    requires AllTools(run)
    ensures var calls := ValidCalls(m.toolCalls);
      var kept := Claimed(run, CallIds(calls));
      var filled := Fill(calls, CallIds(calls) - ResultIds(run));
      && AllTools(kept + filled)
      && "" !in CallIds(calls)
      && ResultIds(kept + filled) == CallIds(calls)
      && (DistinctResults(kept + filled) <==> NoneTwice(calls, CallIds(calls) - ResultIds(run)))
  {
    var calls := ValidCalls(m.toolCalls);
    var ids := CallIds(calls);
    var kept, filled := Claimed(run, ids), Fill(calls, ids - ResultIds(run));
    ValidCallsFacts(m.toolCalls);
    ClaimedFacts(run, ids);
    FillFacts(calls, ids - ResultIds(run));
    ResultIdsAppend(kept, filled);
    assert ResultIds(kept) !! ResultIds(filled);
    DistinctAppend(kept, filled);
  }

  lemma {:induction false} DistinctAppend(a: seq<Message>, b: seq<Message>)
    requires ResultIds(a) !! ResultIds(b)
    ensures DistinctResults(a + b) <==> DistinctResults(a) && DistinctResults(b)
  {
    if a == [] {
      assert a + b == b;
    } else {
      assert (a + b)[1..] == a[1..] + b;
      ResultIdsAppend(a[1..], b);
      DistinctAppend(a[1..], b);
    }
  }

  lemma {:induction false} DistinctCallsNoneTwice(calls: seq<ToolCall>, missing: set<string>)
    requires DistinctCalls(calls)
    ensures NoneTwice(calls, missing)
  {
    if calls != [] {
      DistinctCallsNoneTwice(calls[1..], missing);
    }
  }

  /** The turn keeps calls, and no unanswered id stands on two of them; or it keeps no calls. */
  ghost predicate SettlesUnit(u: seq<Message>)
    requires u != []
  {
    OpensTurn(u[0]) ==>
      var calls := ValidCalls(u[0].toolCalls);
      CallIds(calls) !! ResultIds(u[1..]) || NoneTwice(calls, CallIds(calls) - ResultIds(u[1..]))
  }

  lemma ReplyIsStable(m: Message, placeholder: string)
    requires placeholder != "" && Trimmed(placeholder)
    ensures var content := OrElse(m.content, placeholder); content != "" && Trimmed(content)
  {
    TrimSpaceTrims(m.content);
  }

  lemma PlaceholdersAreTrimmed()
    ensures Trimmed(COMPLETED) && Trimmed(ACKNOWLEDGED) && COMPLETED != "" && ACKNOWLEDGED != ""
  {
  }

  lemma RepairedUnit(u: seq<Message>)
    requires IsUnit(u)
    ensures var r := RepairUnit(u);
      || (r == [] && IsTool(u[0]))
      || (IsUnit(r) && !IsTool(r[0]) && GoodUnit(r) && (StableUnit(r) <==> SettlesUnit(u)))
  {
    var m, r := u[0], RepairUnit(u);
    PlaceholdersAreTrimmed();
    ReplyIsStable(m, COMPLETED);
    ReplyIsStable(m, ACKNOWLEDGED);
    hide TrimSpace, Trimmed, COMPLETED, ACKNOWLEDGED;
    if OpensTurn(m) {
      RepairedTurnUnit(m, u[1..]);
    }
  }

  /** A turn with calls `calls` and results `results`. */
  lemma TurnUnit(m: Message, results: seq<Message>)
    requires OpensTurn(m) && AllTools(results)
    ensures var r := [m] + results;
      && IsUnit(r) && OpensTurn(r[0])
      && (GoodUnit(r) <==> Answers(m.toolCalls, results))
      && (StableUnit(r) <==>
            "" !in CallIds(m.toolCalls) && ResultIds(results) == CallIds(m.toolCalls) && DistinctResults(results))
  {
    hide CallIds, ResultIds, DistinctResults, Answers;
    assert ([m] + results)[1..] == results;
  }

  /** A turn without a call that was answered becomes its text alone. */
  lemma ReplyUnit(m: Message, run: seq<Message>)
    requires OrElse(m.content, COMPLETED) != "" && Trimmed(OrElse(m.content, COMPLETED))
    requires var calls := ValidCalls(m.toolCalls); calls == [] || Claimed(run, CallIds(calls)) == []
    ensures var r := RepairTurn(m, run);
      IsUnit(r) && !IsTool(r[0]) && !OpensTurn(r[0]) && GoodUnit(r) && StableUnit(r)
  {
    hide OrElse, Trimmed, Claimed, ValidCalls, CallIds, Fill;
  }

  lemma RepairedTurnUnit(m: Message, run: seq<Message>)
    requires OpensTurn(m) && AllTools(run)
    requires OrElse(m.content, COMPLETED) != "" && Trimmed(OrElse(m.content, COMPLETED))
    ensures var r := RepairTurn(m, run);
      && IsUnit(r) && !IsTool(r[0]) && GoodUnit(r)
      && (StableUnit(r) <==> SettlesUnit([m] + run))
      && (OpensTurn(r[0]) <==> CallIds(ValidCalls(m.toolCalls)) * ResultIds(run) != {})
  {
    var calls := ValidCalls(m.toolCalls);
    var ids := CallIds(calls);
    var kept, filled := Claimed(run, ids), Fill(calls, ids - ResultIds(run));
    RepairedTurn(m, run);
    ClaimedFacts(run, ids);
    assert ([m] + run)[1..] == run;
    assert SettlesUnit([m] + run) <==> ids !! ResultIds(run) || NoneTwice(calls, ids - ResultIds(run));
    if calls == [] || kept == [] {
      ReplyUnit(m, run);
      assert ids * ResultIds(run) == {};
      hide RepairTurn, StableUnit, GoodUnit, IsUnit;
    } else {
      assert kept[0].toolCallID in ResultIds(kept);
      var turn := m.(toolCalls := calls);
      if DistinctCalls(calls) {
        DistinctCallsNoneTwice(calls, ids - ResultIds(run));
      }
      TurnUnit(turn, kept + filled);
      Regroup([turn], kept, filled);
      assert RepairTurn(m, run) == [turn] + (kept + filled);
      hide CallIds, ResultIds, ValidCalls, Claimed, Fill, DistinctCalls, DistinctResults, NoneTwice,
          SettlesUnit, RepairTurn, StableUnit, GoodUnit, IsUnit;
    }
  }

  /* ---- Whole transcripts ---- */

  /** The first unit of `ms`, the rest, and what becomes of both. */
  lemma SanitizedFirst(ms: seq<Message>) returns (u: seq<Message>, rest: seq<Message>)
    requires ms != []
    ensures u == ms[..UnitLength(ms)] && rest == ms[UnitLength(ms)..]
    ensures ms == u + rest && Separate(u, rest) && |rest| < |ms|
    ensures Sanitized(ms) == RepairUnit(u) + Sanitized(rest)
    ensures var r := RepairUnit(u);
      || (r == [] && IsTool(u[0]))
      || (IsUnit(r) && !IsTool(r[0]) && GoodUnit(r) && (StableUnit(r) <==> SettlesUnit(u)))
  {
    hide RepairUnit, Sanitized, GoodUnit, StableUnit, SettlesUnit;
    u, rest := ms[..UnitLength(ms)], ms[UnitLength(ms)..];
    FirstUnit(ms);
    SanitizedCons(u, rest);
    RepairedUnit(u);
  }

  /** Every list is repaired into a well-formed transcript. */
  lemma {:induction false} SanitizedIsWellFormed(ms: seq<Message>)
    ensures WellFormed(Sanitized(ms)) && StartsFresh(Sanitized(ms))
    decreases |ms|
  {
    if ms != [] {
      var u, rest := SanitizedFirst(ms);
      SanitizedIsWellFormed(rest);
      hide RepairUnit, Sanitized, GoodUnit, StableUnit, SettlesUnit, WellFormed;
      var r := RepairUnit(u);
      if r == [] {
        assert r + Sanitized(rest) == Sanitized(rest);
      } else {
        WellFormedCons(r, Sanitized(rest));
      }
    }
  }

  /** Every unit of the transcript settles in one pass. */
  ghost predicate Settles(ms: seq<Message>)
    decreases |ms|
  {
    ms == [] || (SettlesUnit(ms[..UnitLength(ms)]) && Settles(ms[UnitLength(ms)..]))
  }

  lemma {:induction false} SanitizedIsStable(ms: seq<Message>)
    ensures Stable(Sanitized(ms)) <==> Settles(ms)
    decreases |ms|
  {
    if ms != [] {
      var u, rest := SanitizedFirst(ms);
      SanitizedIsStable(rest);
      SanitizedIsWellFormed(rest);
      assert Settles(ms) <==> SettlesUnit(u) && Settles(rest);
      assert IsTool(u[0]) ==> SettlesUnit(u);
      hide RepairUnit, Sanitized, GoodUnit, StableUnit, SettlesUnit, Stable, Settles;
      var r := RepairUnit(u);
      if r == [] {
        assert r + Sanitized(rest) == Sanitized(rest);
      } else {
        StableCons(r, Sanitized(rest));
      }
    }
  }

  /** A stable unit is its own repair, and no other unit is. */
  lemma RepairFixesUnit(u: seq<Message>)
    requires IsUnit(u)
    ensures RepairUnit(u) == u <==> StableUnit(u)
  {
    var m := u[0];
    if OpensTurn(m) {
      RepairFixesTurn(m, u[1..]);
      assert u == [m] + u[1..];
      hide *;
    } else {
      TrimSpaceTrims(m.content);
      PlaceholdersAreTrimmed();
      ReplyIsStable(m, ACKNOWLEDGED);
      hide TrimSpace, Trimmed, ACKNOWLEDGED;
    }
  }

  lemma {:induction false} ClaimedAll(run: seq<Message>, expected: set<string>)
    ensures |Claimed(run, expected)| <= |run|
    ensures Claimed(run, expected) == run <==> ResultIds(run) <= expected && DistinctResults(run)
  {
    if run != [] {
      var id, tail := run[0].toolCallID, run[1..];
      ClaimedAll(tail, if id in expected then expected - {id} else expected);
      assert id in expected ==> ([run[0]] + Claimed(tail, expected - {id}))[1..] == Claimed(tail, expected - {id});
    }
  }

  lemma {:induction false} FillNothing(calls: seq<ToolCall>, missing: set<string>)
    ensures Fill(calls, missing) == [] <==> missing !! CallIds(calls)
  {
    if calls != [] {
      FillNothing(calls[1..], missing);
    }
  }

  lemma RepairFixesTurn(m: Message, run: seq<Message>)
    requires OpensTurn(m) && AllTools(run)
    ensures RepairTurn(m, run) == [m] + run <==>
      "" !in CallIds(m.toolCalls) && ResultIds(run) == CallIds(m.toolCalls) && DistinctResults(run)
  {
    hide OrElse;
    var calls := ValidCalls(m.toolCalls);
    var ids := CallIds(calls);
    var kept, filled := Claimed(run, ids), Fill(calls, ids - ResultIds(run));
    ValidCallsFacts(m.toolCalls);
    ClaimedFacts(run, ids);
    ClaimedAll(run, ids);
    FillNothing(calls, ids - ResultIds(run));
    FillFacts(calls, ids - ResultIds(run));
    ResultIdsAppend(kept, filled);
    assert CallIds(m.toolCalls) != {} && (calls == [] ==> ids == {}) && (kept == [] ==> ResultIds(kept) == {});
    var r := RepairTurn(m, run);
    assert calls == [] || kept == [] ==> r[0].toolCalls == [];
    assert calls != [] && kept != [] ==> r == [m.(toolCalls := calls)] + kept + filled;
    RepairedEqualsTurn(m, run, calls, kept, filled);
    assert ([m] + run)[0] == m;
    ghost var answered := "" !in CallIds(m.toolCalls) && ResultIds(run) == CallIds(m.toolCalls) && DistinctResults(run);
    hide *;
    if answered {
      assert ids - ResultIds(run) == {};
      assert r == [m] + run;
    } else if kept + filled == run {
      assert ResultIds(filled) <= ResultIds(run);
      assert ids - ResultIds(run) == {};
    }
  }

  lemma RepairedEqualsTurn(m: Message, run: seq<Message>, calls: seq<ToolCall>, kept: seq<Message>, filled: seq<Message>)
    requires |kept| <= |run|
    ensures [m.(toolCalls := calls)] + kept + filled == [m] + run <==>
      calls == m.toolCalls && kept + filled == run
    ensures kept == run ==> (kept + filled == run <==> filled == [])
  {
    var r := [m.(toolCalls := calls)] + kept + filled;
    assert r[0] == m.(toolCalls := calls) && r[1..] == kept + filled;
    assert ([m] + run)[0] == m && ([m] + run)[1..] == run;
  }

  /** The fixed points of `SanitizeMessages` are exactly the stable transcripts. */
  lemma {:induction false} FixedPoints(ms: seq<Message>)
    ensures Sanitized(ms) == ms <==> Stable(ms)
    decreases |ms|
  {
    if ms != [] {
      var u, rest := SanitizedFirst(ms);
      FixedPoints(rest);
      RepairFixesUnit(u);
      SanitizedIsWellFormed(rest);
      assert Stable(ms) <==> StableUnit(u) && Stable(rest);
      hide RepairUnit, Sanitized, GoodUnit, StableUnit, SettlesUnit, Stable, Settles, WellFormed;
      var r := RepairUnit(u);
      if r == [] {
        assert r + Sanitized(rest) == Sanitized(rest);
      } else {
        UnitCons(r, Sanitized(rest));
      }
    }
  }

  /** One pass is enough exactly when no turn that keeps its calls leaves an id unanswered that
      stands on two of them. */
  lemma SecondPass(ms: seq<Message>)
    ensures Sanitized(Sanitized(ms)) == Sanitized(ms) <==> Settles(ms)
  {
    SanitizedIsStable(ms);
    FixedPoints(Sanitized(ms));
  }

  lemma {:induction false} WellFormedSettles(ms: seq<Message>)
    requires WellFormed(ms)
    ensures Settles(ms)
    decreases |ms|
  {
    if ms != [] {
      var n := UnitLength(ms);
      WellFormedSettles(ms[n..]);
      if OpensTurn(ms[0]) {
        var calls, results := ms[0].toolCalls, ms[..n][1..];
        ValidCallsFacts(calls);
        assert CallIds(calls) - ResultIds(results) == {};
        NoneMissing(calls);
      }
    }
  }

  lemma {:induction false} NoneMissing(calls: seq<ToolCall>)
    ensures NoneTwice(calls, {})
  {
    if calls != [] {
      NoneMissing(calls[1..]);
    }
  }

  /** Two passes always reach the fixed point. */
  lemma ThirdPass(ms: seq<Message>)
    ensures Sanitized(Sanitized(Sanitized(ms))) == Sanitized(Sanitized(ms))
    ensures Stable(Sanitized(Sanitized(ms)))
  {
    SanitizedIsWellFormed(ms);
    WellFormedSettles(Sanitized(ms));
    SecondPass(Sanitized(ms));
    SanitizedIsStable(Sanitized(ms));
  }

  ghost predicate DistinctWithinTurns(ms: seq<Message>) {
    forall m <- ms :: OpensTurn(m) ==> DistinctCalls(m.toolCalls)
  }

  /** With distinct call ids within each turn one pass is enough. */
  lemma {:induction false} DistinctTurnsSettle(ms: seq<Message>)
    requires DistinctWithinTurns(ms)
    ensures Settles(ms) && Sanitized(Sanitized(ms)) == Sanitized(ms)
    decreases |ms|
  {
    if ms != [] {
      var n := UnitLength(ms);
      DistinctTurnsSettle(ms[n..]);
      if OpensTurn(ms[0]) {
        var calls := ValidCalls(ms[0].toolCalls);
        ValidCallsFacts(ms[0].toolCalls);
        DistinctCallsNoneTwice(calls, CallIds(calls) - ResultIds(ms[..n][1..]));
      }
    }
    SecondPass(ms);
  }

  /** A turn that repeats the id of an unanswered call needs a second pass. */
  lemma RepeatedIdNeedsSecondPass() returns (ms: seq<Message>)
    ensures Sanitized(Sanitized(ms)) != Sanitized(ms)
  {
    var a, b := ToolCall("a", "function", "f", ""), ToolCall("b", "function", "g", "");
    var turn := Message(Assistant, "", "", [a, b, b], "", "", []);
    var result := Message(Tool, "done", "", [], "a", "f", []);
    ms := [turn, result];
    assert ms[1..] == [result] && ms[..2] == ms && ms[2..] == [];
    assert ToolRun(ms[1..]) == 1 by { assert [result][1..] == []; }
    var calls := [a, b, b];
    assert calls[1..] == [b, b] && [b, b][1..] == [b] && [b][1..] == [] && [result][1..] == [];
    assert CallIds([b]) == {"b"} && CallIds([b, b]) == {"b"} && CallIds(calls) == {"a", "b"};
    assert ResultIds([result]) == {"a"};
    ValidCallsFacts(calls);
    assert !NoneTwice(calls, {"b"});
    assert CallIds(calls) - ResultIds([result]) == {"b"};
    assert "a" in CallIds(calls) && "a" in ResultIds([result]);
    assert !SettlesUnit(ms);
    SecondPass(ms);
  }

  /** A transcript can be sanitized piece by piece, if it is not cut inside a turn. */
  lemma {:induction false} SanitizedAppend(a: seq<Message>, b: seq<Message>)
    requires StartsFresh(b)
    ensures Sanitized(a + b) == Sanitized(a) + Sanitized(b)
    decreases |a|
  {
    if a == [] {
      assert a + b == b;
    } else {
      var u, rest := SanitizedFirst(a);
      SanitizedAppend(rest, b);
      hide RepairUnit, Sanitized, GoodUnit, StableUnit, SettlesUnit, UnitLength;
      Regroup(u, rest, b);
      SanitizedCons(u, rest + b);
      Regroup(RepairUnit(u), Sanitized(rest), Sanitized(b));
    }
  }

  /* ---- What is kept ---- */

  function NonTools(ms: seq<Message>): seq<Message> {
    if ms == [] then []
    else if IsTool(ms[0]) then NonTools(ms[1..])
    else [ms[0]] + NonTools(ms[1..])
  }

  /** What may become of a message that is not a tool result. */
  ghost predicate Becomes(before: Message, after: Message) {
    if before.role != Assistant then after == before
    else if OpensTurn(after) then after == before.(toolCalls := ValidCalls(before.toolCalls))
    else
      var text := TrimSpace(before.content);
      && after.role == Assistant && after.name == "" && after.toolCallID == ""
      && after.content == (if text != "" then text else if before.toolCalls == [] then ACKNOWLEDGED else COMPLETED)
      && (ValidCalls(before.toolCalls) != [] || before.toolCalls == [] ==>
            after.reasoning == before.reasoning && after.providerItems == before.providerItems)
  }

  ghost predicate Correspond(before: seq<Message>, after: seq<Message>) {
    |before| == |after| && forall k :: 0 <= k < |before| ==> Becomes(before[k], after[k])
  }

  lemma {:induction false} NonToolsAppend(a: seq<Message>, b: seq<Message>)
    ensures NonTools(a + b) == NonTools(a) + NonTools(b)
  {
    if a == [] {
      assert a + b == b;
    } else {
      assert (a + b)[1..] == a[1..] + b;
      NonToolsAppend(a[1..], b);
    }
  }

  lemma {:induction false} NoNonTools(ms: seq<Message>)
    requires AllTools(ms)
    ensures NonTools(ms) == []
  {
    if ms != [] {
      NoNonTools(ms[1..]);
    }
  }

  lemma NonToolsOfUnit(u: seq<Message>)
    requires IsUnit(u)
    ensures NonTools(u) == if IsTool(u[0]) then [] else [u[0]]
  {
    if OpensTurn(u[0]) {
      NoNonTools(u[1..]);
    }
  }

  lemma UnitCorresponds(u: seq<Message>)
    requires IsUnit(u)
    ensures RepairUnit(u) == [] || Becomes(u[0], RepairUnit(u)[0])
  {
    hide TrimSpace, Claimed, Fill, CallIds, ResultIds, ValidCalls;
  }

  /** The messages that are not tool results survive one to one and in order. */
  lemma {:induction false} NonToolsCorrespond(ms: seq<Message>)
    ensures Correspond(NonTools(ms), NonTools(Sanitized(ms)))
    decreases |ms|
  {
    if ms != [] {
      var u, rest := SanitizedFirst(ms);
      NonToolsCorrespond(rest);
      UnitCorresponds(u);
      NonToolsOfUnit(u);
      NonToolsAppend(u, rest);
      var r := RepairUnit(u);
      NonToolsAppend(r, Sanitized(rest));
      if r == [] {
        assert NonTools([]) == [];
      } else {
        NonToolsOfUnit(r);
      }
      hide *;
    }
  }
}
