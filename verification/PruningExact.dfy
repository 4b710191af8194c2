/** What pruning keeps, exactly: as many whole blocks as fit, and a newest block halved no more than needed. */
module PruningExact {
  import opened Transcript
  import opened Sanitize
  import opened Pruning
  import opened PruningLaws

  /* ---- Blocks ---- */

  /** The messages from `start` to `end` are an indivisible block: a message that is no result, or a maximal run
      of results, with the message in front of it when that one carries calls.  Position 0 is never part of one. */
  ghost predicate IsBlock(ms: seq<Message>, start: nat, end: nat) {
    && 1 <= start < end <= |ms|
    && if !IsTool(ms[end - 1]) then start == end - 1
       else exists run: nat ::
         IsRun(ms, run, end) && start == (if run > 1 && ms[run - 1].toolCalls != [] then run - 1 else run)
  }

  /** A maximal run of results behind position 0. */
  ghost predicate IsRun(ms: seq<Message>, run: nat, end: nat) {
    && 1 <= run < end <= |ms|
    && (forall k :: run <= k < end ==> IsTool(ms[k]))
    && (run == 1 || !IsTool(ms[run - 1]))
  }

  lemma BlockStartIsBlock(ms: seq<Message>, end: nat)
    requires 1 < end <= |ms|
    ensures IsBlock(ms, BlockStart(ms, end), end)
  {
    if IsTool(ms[end - 1]) {
      assert IsRun(ms, RunStart(ms, end - 1), end);
    }
  }

  /* ---- The kept suffix ---- */

  /** `cuts` are the starts of successive blocks in front of `end`, the nearest first. */
  ghost predicate Borders(ms: seq<Message>, end: nat, cuts: seq<nat>) {
    cuts == [] || (IsBlock(ms, cuts[0], end) && Borders(ms, cuts[0], cuts[1..]))
  }

  /** Where the last of these blocks starts. */
  function Front(end: nat, cuts: seq<nat>): nat {
    if cuts == [] then end else cuts[|cuts| - 1]
  }

  /** What these blocks cost together. */
  ghost function Costs(size: CallSize, ms: seq<Message>, end: nat, cuts: seq<nat>): nat
    requires Borders(ms, end, cuts)
  {
    if cuts == [] then 0 else Tokens(size, ms[cuts[0]..end]) + Costs(size, ms, cuts[0], cuts[1..])
  }

  /** There is no further block in front of `front`, or it costs more than is left. */
  ghost predicate NoMoreFits(size: CallSize, ms: seq<Message>, front: nat, left: int) {
    front == 1 || exists s: nat :: IsBlock(ms, s, front) && Tokens(size, ms[s..front]) > left
  }

  lemma {:induction false} ReachIsMaximal(size: CallSize, ms: seq<Message>, end: nat, room: int) returns (cuts: seq<nat>)
    requires 1 <= end <= |ms|
    ensures Borders(ms, end, cuts) && Front(end, cuts) == Reach(size, ms, end, room)
    ensures cuts != [] ==> Costs(size, ms, end, cuts) <= room
    ensures NoMoreFits(size, ms, Front(end, cuts), room - Costs(size, ms, end, cuts))
    decreases end
  {
    cuts := [];
    hide Tokens, IsBlock, BlockStart;
    if end > 1 {
      var start := BlockStart(ms, end);
      BlockStartIsBlock(ms, end);
      var cost := Tokens(size, ms[start..end]);
      if cost <= room {
        var rest := ReachIsMaximal(size, ms, start, room - cost);
        cuts := [start] + rest;
        assert cuts[1..] == rest;
      }
    }
  }

  /** As many of the blocks in front of `last` as fit into `room`. */
  ghost predicate FitExactly(size: CallSize, ms: seq<Message>, last: nat, cuts: seq<nat>, room: int) {
    && Borders(ms, last, cuts)
    && (cuts != [] ==> Costs(size, ms, last, cuts) <= room)
    && NoMoreFits(size, ms, Front(last, cuts), room - Costs(size, ms, last, cuts))
  }

  /** What is left of the budget for blocks, behind the head, the active user message and the reserve. */
  function Left(size: CallSize, ms: seq<Message>, maxTokens: int): int
    requires ms != []
  {
    var active := LastUser(ms);
    var left := maxTokens - Tokens(size, [ms[0]]) - (if active > 0 then Tokens(size, [ms[active]]) else 0) - 64;
    if left < 128 then 128 else left
  }

  lemma BudgetIsLeft(size: CallSize, ms: seq<Message>, maxTokens: int)
    requires ms != []
    ensures Budget(size, ms, maxTokens) == Left(size, ms, maxTokens)
  {
    hide Tokens;
  }

  /** The active user message is missing among the kept messages. */
  ghost predicate GoalLost(ms: seq<Message>, kept: seq<Message>) {
    var active := LastUser(ms);
    active > 0 && forall m :: m in kept && m.role == User ==> m.content != ms[active].content
  }

  /** The head, the checkpoint exactly when messages were lost, the active user message exactly when it is missing
      among the kept ones, and these. */
  ghost function Framed(ms: seq<Message>, kept: seq<Message>): seq<Message>
    requires ms != []
  {
    var user := if GoalLost(ms, kept) then [ms[LastUser(ms)]] else [];
    [ms[0]] + (if |user + kept| < |ms| - 1 then [Checkpoint()] else []) + (user + kept)
  }

  lemma AssembledIsFramed(size: CallSize, ms: seq<Message>, maxTokens: int)
    requires |ms| > 2
    ensures Assembled(size, ms, maxTokens) == Framed(ms, Retained(size, ms, maxTokens))
  {
    hide Retained, Checkpoint, LastUser;
    var kept := Retained(size, ms, maxTokens);
    assert GoalLost(ms, kept) <==> LastUser(ms) > 0 && !HasUser(kept, ms[LastUser(ms)].content);
  }

  lemma ReachFits(size: CallSize, ms: seq<Message>, last: nat, room: int) returns (cuts: seq<nat>)
    requires 1 <= last <= |ms|
    ensures FitExactly(size, ms, last, cuts, room) && Front(last, cuts) == Reach(size, ms, last, room)
  {
    hide Reach, Costs, Borders, NoMoreFits;
    cuts := ReachIsMaximal(size, ms, last, room);
  }

  /** What is kept of a list over the budget: from the end, the newest block, shrunk if it does not fit, and whole
      older blocks, as many as fit.  In front of the oldest kept one there is no block left, or its cost exceeds
      what remains. */
  lemma PruneKeepsWhatFits(size: CallSize, ms: seq<Message>, maxTokens: int)
      returns (last: nat, newest: seq<Message>, cuts: seq<nat>)
    requires |ms| > 2 && Tokens(size, ms) > maxTokens
    ensures IsBlock(ms, last, |ms|)
    ensures var budget := Left(size, ms, maxTokens);
      && newest == (if Tokens(size, ms[last..]) > budget then Shrunk(size, ms[last..], budget) else ms[last..])
      && FitExactly(size, ms, last, cuts, budget - Tokens(size, newest))
    ensures Front(last, cuts) <= last
    ensures Pruned(size, ms, maxTokens) == Sanitized(Framed(ms, ms[Front(last, cuts)..last] + newest))
  {
    hide *;
    last, newest := NewestStart(ms), Newest(size, ms, maxTokens);
    KeptParts(size, ms, maxTokens);
    BlockStartIsBlock(ms, |ms|);
    BudgetIsLeft(size, ms, maxTokens);
    AssembledIsFramed(size, ms, maxTokens);
    cuts := ReachFits(size, ms, last, Budget(size, ms, maxTokens) - Tokens(size, newest));
  }

  lemma KeptParts(size: CallSize, ms: seq<Message>, maxTokens: int)
    requires |ms| > 2 && Tokens(size, ms) > maxTokens
    ensures Pruned(size, ms, maxTokens) == Sanitized(Assembled(size, ms, maxTokens))
    ensures NewestStart(ms) == BlockStart(ms, |ms|)
    ensures var last, budget := NewestStart(ms), Budget(size, ms, maxTokens);
      var newest := Newest(size, ms, maxTokens);
      && newest == (if Tokens(size, ms[last..]) > budget then Shrunk(size, ms[last..], budget) else ms[last..])
      && Retained(size, ms, maxTokens) == ms[Reach(size, ms, last, budget - Tokens(size, newest))..last] + newest
  {
    hide Shrunk, Tokens, Sanitized, Budget, BlockStart, Reach, Assembled;
  }

  /* ---- Shrinking ---- */

  /** The first of the longest results. */
  ghost predicate IsLongest(ms: seq<Message>, k: nat) {
    && k < |ms| && IsTool(ms[k])
    && (forall j :: 0 <= j < |ms| && IsTool(ms[j]) ==> |ms[j].content| <= |ms[k].content|)
    && (forall j :: 0 <= j < k && IsTool(ms[j]) ==> |ms[j].content| < |ms[k].content|)
  }

  /** One round of shrinking: of the first longest result, of at least 128 bytes, the first half is kept and the
      marker put behind it. */
  ghost predicate HalvesLongest(before: seq<Message>, after: seq<Message>) {
    exists k: nat ::
      && IsLongest(before, k)
      && var text := before[k].content;
        |text| >= 128 && after == before[k := before[k].(content := text[..|text| / 2] + Marker())]
  }

  /** Shrinking is a sequence of such rounds, each of which was needed, up to the first list that is within the
      budget, never taken below 64, or has no result of 128 bytes any more. */
  lemma {:induction false} ShrinkRounds(size: CallSize, ms: seq<Message>, budget: int) returns (rounds: seq<seq<Message>>)
    ensures var limit := if budget < 64 then 64 else budget;
      && rounds != [] && rounds[0] == ms && rounds[|rounds| - 1] == Shrunk(size, ms, budget)
      && (forall i :: 0 <= i < |rounds| - 1 ==> Tokens(size, rounds[i]) > limit && HalvesLongest(rounds[i], rounds[i + 1]))
      && var out := rounds[|rounds| - 1];
        Tokens(size, out) <= limit || forall k :: 0 <= k < |out| && IsTool(out[k]) ==> |out[k].content| < 128
    decreases Bytes(size, ms)
  {
    hide Marker, Bytes, Tokens;
    rounds := [ms];
    var k := Longest(ms, |ms|);
    var limit := if budget < 64 then 64 else budget;
    if Tokens(size, ms) > limit && k >= 0 && |ms[k].content| >= 128 {
      HalvingSaves(size, ms, k);
      var next := ms[k := Halved(ms[k])];
      assert IsLongest(ms, k);
      assert HalvesLongest(ms, next);
      var rest := ShrinkRounds(size, next, budget);
      hide HalvesLongest, ShrunkTo;
      rounds := [ms] + rest;
    }
  }

  /* ---- The estimate ---- */

  /** Each message adds four tokens and its bytes: content, name, call id, the encoded calls and eight. */
  lemma EstimateGrows(size: CallSize, ms: seq<Message>, m: Message) returns (bytes: nat)
    ensures Tokens(size, []) == 0
    ensures bytes / 3 + 4 * |ms| == Tokens(size, ms)
    ensures var more := |m.content| + |m.name| + |m.toolCallID| + 8 + (if m.toolCalls != [] then size(m.toolCalls) else 0);
      Tokens(size, ms + [m]) == (bytes + more) / 3 + 4 * (|ms| + 1)
  {
    bytes := Bytes(size, ms);
    assert (ms + [m])[..|ms|] == ms;
  }
}
