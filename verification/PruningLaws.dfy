/** What `PruneMessages` promises about a stable transcript that starts with a system message. */
module PruningLaws {
  import opened Transcript
  import opened Sanitize
  import opened SanitizeLaws
  import opened Pruning

  /* ---- Blocks end at turn boundaries ---- */

  /** In a stable transcript a run of tool results is preceded by the turn it belongs to. */
  lemma {:induction false} RunHasOwner(ms: seq<Message>, p: nat)
    requires Stable(ms) && p < |ms| && IsTool(ms[p]) && (p == 0 || !IsTool(ms[p - 1]))
    ensures p > 0 && OpensTurn(ms[p - 1])
    decreases |ms|
  {
    var n := UnitLength(ms);
    FirstUnit(ms);
    if p >= n {
      StableIsWellFormed(ms[n..]);
      RunHasOwner(ms[n..], p - n);
    } else {
      OwnerInUnit(ms[..n], p);
    }
  }

  lemma OwnerInUnit(u: seq<Message>, p: nat)
    requires IsUnit(u) && p < |u| && IsTool(u[p]) && !IsTool(u[0]) && !IsTool(u[p - 1])
    ensures p == 1 && OpensTurn(u[0])
  {
    forall k | 1 <= k < |u|
      ensures IsTool(u[k])
    {
      assert u[k] == u[1..][k - 1];
    }
  }

  lemma BlockStartsFresh(ms: seq<Message>, end: nat)
    requires Stable(ms) && 1 < end <= |ms| && ms[0].role == System
    ensures StartsFresh(ms[BlockStart(ms, end)..])
  {
    if IsTool(ms[end - 1]) {
      var s := RunStart(ms, end - 1);
      assert IsTool(ms[s]);
      RunHasOwner(ms, s);
    }
  }

  /** Every retained suffix starts at a turn boundary. */
  lemma {:induction false} ReachStartsFresh(size: CallSize, ms: seq<Message>, end: nat, remaining: int)
    requires Stable(ms) && 1 <= end <= |ms| && ms[0].role == System && StartsFresh(ms[end..])
    ensures StartsFresh(ms[Reach(size, ms, end, remaining)..])
    decreases end
  {
    hide Tokens, BlockStart, Stable;
    if end > 1 {
      var start := BlockStart(ms, end);
      BlockStartsFresh(ms, end);
      ReachStartsFresh(size, ms, start, remaining - Tokens(size, ms[start..end]));
    }
  }

  /* ---- Shortened results keep a transcript stable ---- */

  lemma {:induction false} ToolRunSame(a: seq<Message>, b: seq<Message>)
    requires SameButResults(a, b)
    ensures ToolRun(a) == ToolRun(b)
  {
    if a != [] {
      ToolRunSame(a[1..], b[1..]);
    }
  }

  lemma {:induction false} ResultIdsSame(a: seq<Message>, b: seq<Message>)
    requires SameButResults(a, b)
    ensures ResultIds(a) == ResultIds(b) && (DistinctResults(a) <==> DistinctResults(b))
  {
    if a != [] {
      ResultIdsSame(a[1..], b[1..]);
    }
  }

  lemma SameSlices(a: seq<Message>, b: seq<Message>, n: nat)
    requires SameButResults(a, b) && n <= |a|
    ensures SameButResults(a[..n], b[..n]) && SameButResults(a[n..], b[n..])
  {
  }

  lemma {:induction false} StableSame(a: seq<Message>, b: seq<Message>)
    requires SameButResults(a, b) && Stable(a)
    ensures Stable(b)
    decreases |a|
  {
    if a != [] {
      var n := UnitLength(a);
      SameSlices(a, b, n);
      SameSlices(a, b, 1);
      SameSlices(a[..n], b[..n], 1);
      ToolRunSame(a[1..], b[1..]);
      ResultIdsSame(a[..n][1..], b[..n][1..]);
      StableSame(a[n..], b[n..]);
      hide Stable, ToolRun, ResultIds, CallIds, DistinctResults;
      assert Stable(b) by { StableFromUnit(b, n); }
    }
  }

  lemma StableFromUnit(b: seq<Message>, n: nat)
    requires b != [] && n == UnitLength(b) && StableUnit(b[..n]) && Stable(b[n..])
    ensures Stable(b)
  {
  }

  /* ---- The shape of the pruned transcript ---- */

  lemma SplitSlice(ms: seq<Message>, i: nat, j: nat, k: nat)
    requires i <= j <= k <= |ms|
    ensures ms[i..k] == ms[i..j] + ms[j..k]
  {
  }

  lemma SameBehind(prefix: seq<Message>, a: seq<Message>, b: seq<Message>)
    requires SameButResults(a, b)
    ensures SameButResults(prefix + a, prefix + b)
  {
  }

  lemma NewestIsShrunk(size: CallSize, ms: seq<Message>, maxTokens: int)
    requires |ms| > 2
    ensures ShrinkOf(ms[NewestStart(ms)..], Newest(size, ms, maxTokens))
  {
    hide Bytes, MessageBytes, Marker, Shrunk, BlockStart, Compacted, Tokens, Budget;
    ShrunkFits(size, ms[NewestStart(ms)..], Budget(size, ms, maxTokens));
  }

  lemma RetainedIsSuffix(size: CallSize, ms: seq<Message>, maxTokens: int)
    requires |ms| > 2
    ensures var from, last := RetainedFrom(size, ms, maxTokens), NewestStart(ms);
      && Retained(size, ms, maxTokens) == ms[from..last] + Newest(size, ms, maxTokens)
      && ShrinkOf(ms[last..], Newest(size, ms, maxTokens))
      && SameButResults(ms[from..], Retained(size, ms, maxTokens))
  {
    var from, last := RetainedFrom(size, ms, maxTokens), NewestStart(ms);
    NewestIsShrunk(size, ms, maxTokens);
    assert Retained(size, ms, maxTokens) == ms[from..last] + Newest(size, ms, maxTokens);
    SplitSlice(ms, from, last, |ms|);
    assert ms[from..] == ms[from..last] + ms[last..];
    assert SameButResults(ms[last..], Newest(size, ms, maxTokens));
    hide *;
    SameBehind(ms[from..last], ms[last..], Newest(size, ms, maxTokens));
  }

  lemma RetainedStartsFresh(size: CallSize, ms: seq<Message>, maxTokens: int)
    requires |ms| > 2 && ms[0].role == System && Stable(ms)
    ensures StartsFresh(ms[RetainedFrom(size, ms, maxTokens)..])
  {
    hide Stable, Bytes, MessageBytes, Tokens, Reach, BlockStart, Newest, Budget;
    BlockStartsFresh(ms, |ms|);
    ReachStartsFresh(size, ms, NewestStart(ms), Budget(size, ms, maxTokens) - Tokens(size, Newest(size, ms, maxTokens)));
  }

  /** What is retained is stable again. */
  lemma RetainedIsStable(size: CallSize, ms: seq<Message>, maxTokens: int)
    requires |ms| > 2 && ms[0].role == System && Stable(ms)
    ensures Stable(Retained(size, ms, maxTokens))
  {
    hide *;
    RetainedStartsFresh(size, ms, maxTokens);
    StableSuffix(ms, RetainedFrom(size, ms, maxTokens));
    RetainedIsSuffix(size, ms, maxTokens);
    StableSame(ms[RetainedFrom(size, ms, maxTokens)..], Retained(size, ms, maxTokens));
  }

  lemma StablePlain(m: Message, rest: seq<Message>)
    requires m.role == System || m.role == User
    requires Stable(rest)
    ensures Stable([m] + rest)
  {
    hide ToolRun, Stable;
    StableCons([m], rest);
  }

  /** A head and user messages in front of a stable transcript keep it stable. */
  lemma StablePrefix(head: Message, checkpoint: seq<Message>, user: seq<Message>, retained: seq<Message>)
    requires head.role == System && (checkpoint == [] || checkpoint == [Checkpoint()])
    requires user == [] || (|user| == 1 && user[0].role == User)
    requires Stable(retained)
    ensures Stable([head] + checkpoint + (user + retained))
  {
    hide Stable, CheckpointText;
    if user == [] {
      assert user + retained == retained;
    } else {
      StablePlain(user[0], retained);
      assert user == [user[0]];
    }
    if checkpoint == [] {
      assert checkpoint + (user + retained) == user + retained;
    } else {
      StablePlain(Checkpoint(), user + retained);
    }
    StablePlain(head, checkpoint + (user + retained));
    Regroup([head], checkpoint, user + retained);
  }

  /** Pruning cuts at turn boundaries only: the result is the head, at most one checkpoint, at
      most one user message and a contiguous suffix of the input, in which only tool contents of
      the newest block are shortened, and sanitizing it changes nothing. */
  lemma PruneShape(size: CallSize, ms: seq<Message>, maxTokens: int)
      returns (checkpoint: seq<Message>, user: seq<Message>, from: nat)
    requires |ms| > 2 && Tokens(size, ms) > maxTokens
    requires ms[0].role == System && Sanitized(ms) == ms
    ensures 1 <= from <= NewestStart(ms) && StartsFresh(ms[from..])
    ensures checkpoint == [] || checkpoint == [Checkpoint()]
    ensures user == [] || (LastUser(ms) > 0 && user == [ms[LastUser(ms)]])
    ensures ShrinkOf(ms[NewestStart(ms)..], Newest(size, ms, maxTokens))
    ensures Pruned(size, ms, maxTokens) ==
      [ms[0]] + checkpoint + (user + (ms[from..NewestStart(ms)] + Newest(size, ms, maxTokens)))
    ensures Pruned(size, ms, maxTokens) == Assembled(size, ms, maxTokens)
    ensures Sanitized(Pruned(size, ms, maxTokens)) == Pruned(size, ms, maxTokens)
  {
    hide Stable, Bytes, MessageBytes, Tokens, Reach, BlockStart, HasUser, CheckpointText, Sanitized, Budget, Newest,
         NewestStart, Retained, RetainedFrom, ShrinkOf, SameButResults, StartsFresh;
    FixedPoints(ms);
    var retained := Retained(size, ms, maxTokens);
    from := RetainedFrom(size, ms, maxTokens);
    user := ReaddedUser(ms, retained);
    checkpoint := if |user + retained| < |ms| - 1 then [Checkpoint()] else [];
    RetainedIsSuffix(size, ms, maxTokens);
    RetainedStartsFresh(size, ms, maxTokens);
    RetainedIsStable(size, ms, maxTokens);
    StablePrefix(ms[0], checkpoint, user, retained);
    FixedPoints(Assembled(size, ms, maxTokens));
  }

  lemma {:induction false} NonToolsMembers(ms: seq<Message>, m: Message)
    ensures m in NonTools(ms) <==> m in ms && !IsTool(m)
  {
    if ms != [] {
      NonToolsMembers(ms[1..], m);
    }
  }

  lemma UserSurvives(ms: seq<Message>, m: Message)
    requires m in ms && m.role == User
    ensures m in Sanitized(ms)
  {
    hide NonTools, Sanitized;
    NonToolsMembers(ms, m);
    NonToolsMembers(Sanitized(ms), m);
    NonToolsCorrespond(ms);
    var k :| 0 <= k < |NonTools(ms)| && NonTools(ms)[k] == m;
    assert Becomes(m, NonTools(Sanitized(ms))[k]);
  }

  /** The active goal is never lost. */
  lemma GoalSurvives(size: CallSize, ms: seq<Message>, maxTokens: int)
    requires LastUser(ms) >= 0
    ensures HasUser(Pruned(size, ms, maxTokens), ms[LastUser(ms)].content)
  {
    hide Retained, CheckpointText, LastUser, Tokens, Sanitized;
    var k := LastUser(ms);
    if |ms| > 2 && Tokens(size, ms) > maxTokens {
      var retained, all := Retained(size, ms, maxTokens), Assembled(size, ms, maxTokens);
      var user := ReaddedUser(ms, retained);
      var offset := |all| - |user + retained|;
      assert all[0] == ms[0] && all[offset..] == user + retained;
      var m: Message;
      if k == 0 || user != [] {
        m := ms[k];
        assert user != [] ==> user[0] in user + retained;
      } else {
        m :| m in retained && m.role == User && m.content == ms[k].content;
        assert m in user + retained;
      }
      assert m in all;
      UserSurvives(all, m);
    } else {
      assert ms[k] in ms;
    }
  }

  /* ---- The token bound ---- */

  /** Three times the tokens, without the rounding. */
  function Weight(size: CallSize, ms: seq<Message>): nat {
    Bytes(size, ms) + 12 * |ms|
  }

  lemma WeightRounds(size: CallSize, ms: seq<Message>)
    ensures 3 * Tokens(size, ms) <= Weight(size, ms) <= 3 * Tokens(size, ms) + 2
  {
  }

  lemma WeightAppend(size: CallSize, a: seq<Message>, b: seq<Message>)
    ensures Weight(size, a + b) == Weight(size, a) + Weight(size, b)
  {
    BytesAppend(size, a, b);
  }

  /** The number of whole blocks that `Reach` takes. */
  function BlocksReached(size: CallSize, ms: seq<Message>, end: nat, remaining: int): nat
    requires 1 <= end <= |ms|
  {
    if end == 1 then 0
    else
      var start := BlockStart(ms, end);
      var cost := Tokens(size, ms[start..end]);
      if cost > remaining then 0 else 1 + BlocksReached(size, ms, start, remaining - cost)
  }

  lemma {:induction false} ReachWeight(size: CallSize, ms: seq<Message>, end: nat, remaining: int)
    requires 1 <= end <= |ms| && remaining >= 0
    ensures Weight(size, ms[Reach(size, ms, end, remaining)..end]) <=
      3 * remaining + 2 * BlocksReached(size, ms, end, remaining)
    decreases end
  {
    assert Weight(size, []) == 0;
    hide BlockStart, Weight, Tokens;
    if end > 1 {
      var start := BlockStart(ms, end);
      var block := ms[start..end];
      var cost := Tokens(size, block);
      if cost <= remaining {
        var s := Reach(size, ms, start, remaining - cost);
        ReachWeight(size, ms, start, remaining - cost);
        WeightRounds(size, block);
        WeightAppend(size, ms[s..start], block);
        SplitSlice(ms, s, start, end);
      } else {
        assert ms[end..end] == [];
      }
    } else {
      assert ms[end..end] == [];
    }
  }

  /** The number of retained blocks. */
  function RetainedBlocks(size: CallSize, ms: seq<Message>, maxTokens: int): nat
    requires |ms| > 2
  {
    1 + BlocksReached(size, ms, NewestStart(ms), Budget(size, ms, maxTokens) - Tokens(size, Newest(size, ms, maxTokens)))
  }

  lemma RetainedWeight(size: CallSize, ms: seq<Message>, maxTokens: int)
    requires |ms| > 2 && Tokens(size, Newest(size, ms, maxTokens)) <= Budget(size, ms, maxTokens)
    ensures Weight(size, Retained(size, ms, maxTokens)) <=
      3 * Budget(size, ms, maxTokens) + 2 * RetainedBlocks(size, ms, maxTokens)
  {
    hide Budget, Newest, NewestStart, Weight, Tokens, Reach, BlocksReached;
    var newest, last := Newest(size, ms, maxTokens), NewestStart(ms);
    ReachWeight(size, ms, last, Budget(size, ms, maxTokens) - Tokens(size, newest));
    WeightAppend(size, ms[RetainedFrom(size, ms, maxTokens)..last], newest);
    WeightRounds(size, newest);
  }

  lemma CheckpointWeight(size: CallSize)
    ensures Weight(size, [Checkpoint()]) == 175
  {
    hide CheckpointText;
    BytesSingle(size, Checkpoint());
  }

  /** When at least 128 tokens remain for blocks and the newest block fits after shrinking, the
      assembled list exceeds the budget by less than two thirds of a token per retained block. */
  lemma TokenBound(size: CallSize, ms: seq<Message>, maxTokens: int)
    requires |ms| > 2
    requires maxTokens - Tokens(size, [ms[0]]) - UserCost(size, ms) - 64 >= 128
    requires Tokens(size, Newest(size, ms, maxTokens)) <= Budget(size, ms, maxTokens)
    ensures 3 * Tokens(size, Assembled(size, ms, maxTokens)) <=
      3 * maxTokens + 2 * RetainedBlocks(size, ms, maxTokens) - 13
  {
    assert Weight(size, []) == 0;
    hide Newest, Weight, Tokens, Retained, RetainedBlocks, Checkpoint, HasUser, LastUser;
    var retained := Retained(size, ms, maxTokens);
    var user := ReaddedUser(ms, retained);
    var checkpoint := if |user + retained| < |ms| - 1 then [Checkpoint()] else [];
    RetainedWeight(size, ms, maxTokens);
    CheckpointWeight(size);
    WeightRounds(size, [ms[0]]);
    WeightRounds(size, user);
    WeightRounds(size, Assembled(size, ms, maxTokens));
    WeightAppend(size, user, retained);
    WeightAppend(size, [ms[0]], checkpoint);
    WeightAppend(size, [ms[0]] + checkpoint, user + retained);
  }
}
