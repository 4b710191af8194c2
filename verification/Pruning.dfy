/** The context manager: token estimate, shrinking of tool results and pruning of a transcript. */
module Pruning {
  import opened Transcript
  import opened Sanitize

  /** The size in bytes of the JSON encoding of a list of calls, 0 when it cannot be encoded. */
  type CallSize = seq<ToolCall> -> nat

  function Marker(): (s: string)
    ensures |s| == 47
  {
    "\n\U{E2}\U{80}\U{A6}[compacted to fit the model context window]"
  }

  function CheckpointText(): (s: string)
    ensures |s| == 155
  {
    "[Context checkpoint: older dialogue was " + "compacted to stay within the model token "
    + "budget. Use durable run state and retriev" + "ed memory for earlier decisions.]"
  }

  function Checkpoint(): Message {
    Message(System, CheckpointText(), "", [], "", "", [])
  }

  /* ---- Token estimate ---- */

  function MessageBytes(size: CallSize, m: Message): nat {
    |m.content| + |m.name| + |m.toolCallID| + 8 + (if m.toolCalls != [] then size(m.toolCalls) else 0)
  }

  function Bytes(size: CallSize, ms: seq<Message>): nat {
    if ms == [] then 0 else Bytes(size, ms[..|ms| - 1]) + MessageBytes(size, ms[|ms| - 1])
  }

  function Tokens(size: CallSize, ms: seq<Message>): nat {
    Bytes(size, ms) / 3 + |ms| * 4
  }

  method EstimateMessagesTokens(size: CallSize, messages: seq<Message>) returns (tokens: nat)
    ensures tokens == Tokens(size, messages)
  {
    var totalBytes := 0;
    for i := 0 to |messages|
      invariant totalBytes == Bytes(size, messages[..i])
    {
      assert messages[..i + 1][..i] == messages[..i];
      totalBytes := totalBytes + MessageBytes(size, messages[i]);
    }
    assert messages[..|messages|] == messages;
    tokens := totalBytes / 3 + |messages| * 4;
  }

  lemma {:induction false} BytesAppend(size: CallSize, a: seq<Message>, b: seq<Message>)
    ensures Bytes(size, a + b) == Bytes(size, a) + Bytes(size, b)
  {
    if b == [] {
      assert a + b == a;
    } else {
      var n := |b| - 1;
      assert (a + b)[..|a + b| - 1] == a + b[..n];
      BytesAppend(size, a, b[..n]);
    }
  }

  lemma BytesUpdate(size: CallSize, ms: seq<Message>, i: nat, m: Message)
    requires i < |ms|
    ensures Bytes(size, ms[i := m]) == Bytes(size, ms) - MessageBytes(size, ms[i]) + MessageBytes(size, m)
  {
    BytesSingle(size, m);
    BytesSingle(size, ms[i]);
    hide Bytes, MessageBytes;
    assert ms == ms[..i] + ([ms[i]] + ms[i + 1..]);
    assert ms[i := m] == ms[..i] + ([m] + ms[i + 1..]);
    BytesAppend(size, ms[..i], [m] + ms[i + 1..]);
    BytesAppend(size, ms[..i], [ms[i]] + ms[i + 1..]);
    BytesAppend(size, [m], ms[i + 1..]);
    BytesAppend(size, [ms[i]], ms[i + 1..]);
  }

  lemma BytesSingle(size: CallSize, m: Message)
    ensures Bytes(size, [m]) == MessageBytes(size, m)
  {
    assert [m][..0] == [];
  }

  /* ---- Shrinking ---- */

  function TextLength(ms: seq<Message>, k: int): nat
    requires k < |ms|
  {
    if k < 0 then 0 else |ms[k].content|
  }

  /** The first of the longest nonempty tool messages among the first `n`, -1 when there is none. */
  function Longest(ms: seq<Message>, n: nat): (k: int)
    requires n <= |ms|
    ensures -1 <= k < n
    ensures k >= 0 ==> IsTool(ms[k]) && ms[k].content != ""
    ensures forall j :: 0 <= j < n && IsTool(ms[j]) ==> |ms[j].content| <= TextLength(ms, k)
    ensures forall j :: 0 <= j < k && IsTool(ms[j]) ==> |ms[j].content| < TextLength(ms, k)
  {
    if n == 0 then -1
    else
      var k := Longest(ms, n - 1);
      if IsTool(ms[n - 1]) && |ms[n - 1].content| > TextLength(ms, k) then n - 1 else k
  }

  function Halved(m: Message): Message {
    m.(content := m.content[..|m.content| / 2] + Marker())
  }

  lemma HalvingSaves(size: CallSize, ms: seq<Message>, k: nat)
    requires k < |ms| && |ms[k].content| >= 128
    ensures Bytes(size, ms[k := Halved(ms[k])]) + 17 <= Bytes(size, ms)
  {
    BytesUpdate(size, ms, k, Halved(ms[k]));
  }

  /** The loop of `shrinkMessagesToBudget` for a budget of at least 64. */
  function ShrunkTo(size: CallSize, ms: seq<Message>, budget: int): seq<Message>
    decreases Bytes(size, ms)
  {
    var k := Longest(ms, |ms|);
    if Tokens(size, ms) <= budget then ms
    else if k < 0 || |ms[k].content| < 128 then ms
    else if |ms[k].content| / 2 < 64 then ms
    else
      HalvingSaves(size, ms, k);
      ShrunkTo(size, ms[k := Halved(ms[k])], budget)
  }

  function Shrunk(size: CallSize, ms: seq<Message>, budget: int): seq<Message> {
    ShrunkTo(size, ms, if budget < 64 then 64 else budget)
  }

  method FindLongest(ms: seq<Message>) returns (longest: int, longestLen: nat)
    ensures longest == Longest(ms, |ms|) && longestLen == TextLength(ms, longest)
  {
    longest, longestLen := -1, 0;
    for i := 0 to |ms|
      invariant longest == Longest(ms, i) && longestLen == TextLength(ms, longest)
    {
      if IsTool(ms[i]) && |ms[i].content| > longestLen {
        longestLen, longest := |ms[i].content|, i;
      }
    }
  }

  method ShrinkMessagesToBudget(size: CallSize, messages: seq<Message>, budget: int) returns (out: seq<Message>)
    ensures out == Shrunk(size, messages, budget)
  {
    hide Longest, Marker, Bytes, Tokens;
    var maxTokens := if budget < 64 then 64 else budget;
    out := messages;
    while true
      invariant ShrunkTo(size, out, maxTokens) == ShrunkTo(size, messages, maxTokens)
      decreases Bytes(size, out)
    {
      var tokens := EstimateMessagesTokens(size, out);
      if tokens <= maxTokens {
        break;
      }
      var longest, longestLen := FindLongest(out);
      if longest < 0 || longestLen < 128 {
        break;
      }
      var keep := longestLen / 2;
      if keep < 64 {
        break;
      }
      HalvingSaves(size, out, longest);
      out := out[longest := out[longest].(content := out[longest].content[..keep] + Marker())];
    }
  }

  /** `after` is what shrinking may leave of the text `before`. */
  ghost predicate Compacted(before: string, after: string) {
    && 128 <= |before| && |after| + 17 <= |before|
    && 64 + |Marker()| <= |after|
    && after[..64] == before[..64]
    && after[|after| - |Marker()|..] == Marker()
  }

  /** Nothing but tool contents differs. */
  ghost predicate SameButResults(before: seq<Message>, after: seq<Message>) {
    && |before| == |after|
    && forall k :: 0 <= k < |before| ==>
         after[k] == (if IsTool(before[k]) then before[k].(content := after[k].content) else before[k])
  }

  ghost predicate ShrinkOf(before: seq<Message>, after: seq<Message>) {
    && SameButResults(before, after)
    && forall k :: 0 <= k < |before| ==>
         after[k].content == before[k].content || Compacted(before[k].content, after[k].content)
  }

  lemma HalvedIsCompacted(before: string, now: string)
    requires before == now || Compacted(before, now)
    requires |now| >= 128
    ensures Compacted(before, now[..|now| / 2] + Marker())
  {
    hide Marker;
    var after := now[..|now| / 2] + Marker();
    assert after[|after| - |Marker()|..] == Marker();
    assert after[..64] == now[..64];
  }

  lemma {:induction false} ShrunkToShrinks(size: CallSize, start: seq<Message>, ms: seq<Message>, budget: int)
    requires ShrinkOf(start, ms)
    ensures ShrinkOf(start, ShrunkTo(size, ms, budget))
    ensures var out := ShrunkTo(size, ms, budget);
      Tokens(size, out) <= budget || forall k :: 0 <= k < |out| && IsTool(out[k]) ==> |out[k].content| < 128
    decreases Bytes(size, ms)
  {
    hide Marker, Bytes, MessageBytes;
    var k := Longest(ms, |ms|);
    if Tokens(size, ms) > budget && k >= 0 && |ms[k].content| >= 128 {
      HalvedIsCompacted(start[k].content, ms[k].content);
      HalvingSaves(size, ms, k);
      ShrunkToShrinks(size, start, ms[k := Halved(ms[k])], budget);
    }
  }

  /** Shrinking ends within the budget or with every tool content under 128 bytes, and changes
      nothing but tool contents, each of which keeps its first 64 bytes. */
  lemma ShrunkFits(size: CallSize, ms: seq<Message>, budget: int)
    ensures var out := Shrunk(size, ms, budget);
      && ShrinkOf(ms, out)
      && (|| Tokens(size, out) <= (if budget < 64 then 64 else budget)
          || forall k :: 0 <= k < |out| && IsTool(out[k]) ==> |out[k].content| < 128)
  {
    hide Marker, Bytes, MessageBytes;
    ShrunkToShrinks(size, ms, ms, if budget < 64 then 64 else budget);
  }

  /* ---- Pruning ---- */

  /** The last user message, -1 when there is none. */
  function LastUser(ms: seq<Message>): (k: int)
    ensures -1 <= k < |ms|
    ensures k >= 0 ==> ms[k].role == User
    ensures forall j :: k < j < |ms| ==> ms[j].role != User
  {
    if ms == [] then -1
    else if ms[|ms| - 1].role == User then |ms| - 1
    else LastUser(ms[..|ms| - 1])
  }

  /** The start of the tool run that reaches back from `start`, not going below 1. */
  function RunStart(ms: seq<Message>, start: nat): (s: nat)
    requires 1 <= start < |ms|
    ensures 1 <= s <= start
    ensures s == 1 || !IsTool(ms[s - 1])
    ensures forall k :: s <= k < start ==> IsTool(ms[k])
  {
    if start > 1 && IsTool(ms[start - 1]) then RunStart(ms, start - 1) else start
  }

  /** The start of the indivisible block that ends at `end`. */
  function BlockStart(ms: seq<Message>, end: nat): (s: nat)
    requires 1 < end <= |ms|
    ensures 1 <= s < end
  {
    if IsTool(ms[end - 1]) then
      var s := RunStart(ms, end - 1);
      if s > 1 && ms[s - 1].toolCalls != [] then s - 1 else s
    else end - 1
  }

  /** How far back whole blocks fit into `remaining` tokens, starting in front of `end`. */
  function Reach(size: CallSize, ms: seq<Message>, end: nat, remaining: int): (s: nat)
    requires 1 <= end <= |ms|
    ensures 1 <= s <= end
  {
    if end == 1 then 1
    else
      var start := BlockStart(ms, end);
      var cost := Tokens(size, ms[start..end]);
      if cost > remaining then end else Reach(size, ms, start, remaining - cost)
  }

  function UserCost(size: CallSize, ms: seq<Message>): nat {
    if LastUser(ms) > 0 then Tokens(size, [ms[LastUser(ms)]]) else 0
  }

  /** The tokens left for retained blocks. */
  function Budget(size: CallSize, ms: seq<Message>, maxTokens: int): int
    requires ms != []
  {
    var left := maxTokens - Tokens(size, [ms[0]]) - UserCost(size, ms) - 64;
    if left < 128 then 128 else left
  }

  function NewestStart(ms: seq<Message>): (s: nat)
    requires |ms| > 2
    ensures 1 <= s < |ms|
  {
    BlockStart(ms, |ms|)
  }

  /** The newest block, shrunk when it does not fit. */
  function Newest(size: CallSize, ms: seq<Message>, maxTokens: int): seq<Message>
    requires |ms| > 2
  {
    var block := ms[NewestStart(ms)..];
    var remaining := Budget(size, ms, maxTokens);
    if Tokens(size, block) > remaining then Shrunk(size, block, remaining) else block
  }

  function RetainedFrom(size: CallSize, ms: seq<Message>, maxTokens: int): (s: nat)
    requires |ms| > 2
    ensures 1 <= s <= NewestStart(ms)
  {
    Reach(size, ms, NewestStart(ms), Budget(size, ms, maxTokens) - Tokens(size, Newest(size, ms, maxTokens)))
  }

  /** The newest block and the whole blocks in front of it that fit. */
  function Retained(size: CallSize, ms: seq<Message>, maxTokens: int): seq<Message>
    requires |ms| > 2
  {
    ms[RetainedFrom(size, ms, maxTokens)..NewestStart(ms)] + Newest(size, ms, maxTokens)
  }

  ghost predicate HasUser(ms: seq<Message>, content: string) {
    exists m :: m in ms && m.role == User && m.content == content
  }

  /** The active user message, when the retained part lost it. */
  ghost function ReaddedUser(ms: seq<Message>, retained: seq<Message>): seq<Message> {
    var k := LastUser(ms);
    if k > 0 && !HasUser(retained, ms[k].content) then [ms[k]] else []
  }

  /** The kept messages behind the head, and a checkpoint when messages were lost. */
  function WithHead(ms: seq<Message>, kept: seq<Message>): seq<Message>
    requires ms != []
  {
    hide CheckpointText;
    [ms[0]] + (if |kept| < |ms| - 1 then [Checkpoint()] else []) + kept
  }

  /** The list that `PruneMessages` hands to `SanitizeMessages`. */
  ghost function Assembled(size: CallSize, ms: seq<Message>, maxTokens: int): seq<Message>
    requires |ms| > 2
  {
    var retained := Retained(size, ms, maxTokens);
    WithHead(ms, ReaddedUser(ms, retained) + retained)
  }

  ghost function Pruned(size: CallSize, ms: seq<Message>, maxTokens: int): seq<Message> {
    if |ms| <= 2 || Tokens(size, ms) <= maxTokens then ms
    else Sanitized(Assembled(size, ms, maxTokens))
  }

  method FindLastUser(messages: seq<Message>) returns (lastUserIdx: int)
    ensures lastUserIdx == LastUser(messages)
  {
    lastUserIdx := -1;
    var i := |messages| - 1;
    while i >= 0
      invariant -1 <= i < |messages|
      invariant LastUser(messages[..i + 1]) == LastUser(messages)
    {
      assert messages[..i + 1][..i] == messages[..i];
      if messages[i].role == User {
        return i;
      }
      i := i - 1;
    }
    assert messages[..0] == [];
  }

  method FindBlockStart(messages: seq<Message>, end: nat) returns (start: nat)
    requires 1 < end <= |messages|
    ensures start == BlockStart(messages, end)
  {
    start := end - 1;
    if IsTool(messages[start]) {
      while start > 1 && IsTool(messages[start - 1])
        invariant 1 <= start < end
        invariant RunStart(messages, start) == RunStart(messages, end - 1)
      {
        start := start - 1;
      }
      if start > 1 && |messages[start - 1].toolCalls| > 0 {
        start := start - 1;
      }
    }
  }

  lemma NewestIsNotEmpty(size: CallSize, ms: seq<Message>, maxTokens: int)
    requires |ms| > 2
    ensures |Newest(size, ms, maxTokens)| == |ms| - NewestStart(ms)
  {
    hide Bytes, Marker, Shrunk;
    ShrunkFits(size, ms[NewestStart(ms)..], Budget(size, ms, maxTokens));
  }

  /** The backward walk over whole blocks. */
  method RetainBlocks(size: CallSize, messages: seq<Message>, maxTokens: int) returns (retained: seq<Message>)
    requires |messages| > 2
    ensures retained == Retained(size, messages, maxTokens)
  {
    hide Marker, Bytes, MessageBytes, Shrunk, Budget, Tokens;
    ghost var newest, last := Newest(size, messages, maxTokens), NewestStart(messages);
    ghost var whole := Budget(size, messages, maxTokens) - Tokens(size, newest);
    NewestIsNotEmpty(size, messages, maxTokens);
    var remaining := ComputeBudget(size, messages, maxTokens);
    retained := [];
    var end := |messages|;
    while end > 1
      invariant 1 <= end <= |messages|
      invariant retained == [] ==> end == |messages| && remaining == Budget(size, messages, maxTokens)
      invariant end < |messages| ==> retained != []
      invariant retained != [] ==> end <= last && retained == messages[end..last] + newest
      invariant retained != [] ==> Reach(size, messages, end, remaining) == Reach(size, messages, last, whole)
    {
      var start := FindBlockStart(messages, end);
      var block := messages[start..end];
      var cost := EstimateMessagesTokens(size, block);
      if cost > remaining {
        if |retained| > 0 {
          break;
        }
        block := ShrinkMessagesToBudget(size, block, remaining);
        cost := EstimateMessagesTokens(size, block);
      }
      if end == |messages| {
        assert messages[start..end] == messages[last..];
        assert block + retained == block && messages[last..last] + newest == newest;
      } else {
        Regroup(block, messages[end..last], newest);
        assert messages[start..end] + messages[end..last] == messages[start..last];
      }
      retained := block + retained;
      remaining := remaining - cost;
      end := start;
    }
  }

  method ComputeBudget(size: CallSize, messages: seq<Message>, maxTokens: int) returns (remaining: int)
    requires messages != []
    ensures remaining == Budget(size, messages, maxTokens)
  {
    var lastUserIdx := FindLastUser(messages);
    var userPromptCost := 0;
    if lastUserIdx > 0 {
      userPromptCost := EstimateMessagesTokens(size, [messages[lastUserIdx]]);
    }
    var head := EstimateMessagesTokens(size, [messages[0]]);
    remaining := maxTokens - head - userPromptCost - 64;
    if remaining < 128 {
      remaining := 128;
    }
  }

  method ContainsUser(retained: seq<Message>, content: string) returns (found: bool)
    ensures found <==> HasUser(retained, content)
  {
    for i := 0 to |retained|
      invariant !HasUser(retained[..i], content)
    {
      if retained[i].role == User && retained[i].content == content {
        return true;
      }
      assert retained[..i + 1] == retained[..i] + [retained[i]];
    }
    assert retained[..|retained|] == retained;
    found := false;
  }

  method PruneMessages(size: CallSize, messages: seq<Message>, maxTokens: int) returns (pruned: seq<Message>)
    ensures pruned == Pruned(size, messages, maxTokens)
    ensures |messages| <= 2 || Tokens(size, messages) <= maxTokens ==> pruned == messages
  {
    var tokens := EstimateMessagesTokens(size, messages);
    if |messages| <= 2 || tokens <= maxTokens {
      return messages;
    }
    hide Marker, CheckpointText, Checkpoint, Bytes, MessageBytes, Tokens, Retained, Sanitized, HasUser, WithHead;
    var lastUserIdx := FindLastUser(messages);
    var retained := RetainBlocks(size, messages, maxTokens);
    if lastUserIdx > 0 {
      var hasActiveUser := ContainsUser(retained, messages[lastUserIdx].content);
      if !hasActiveUser {
        retained := [messages[lastUserIdx]] + retained;
      }
    }
    assert retained == ReaddedUser(messages, Retained(size, messages, maxTokens)) + Retained(size, messages, maxTokens);
    pruned := SanitizeMessages(WithHead(messages, retained));
  }
}
