/** The text that is left when the calls found in it are removed. */
module BareJsonText {
  import opened GoStrings
  import opened BareJson

  /** The text without the spans. */
  function Cut(s: string, from: nat, spans: seq<Span>): string
    requires from <= |s| && Increasing(spans, from) && InBounds(s, spans)
    decreases |spans|
  {
    if spans == [] then s[from..]
    else s[from..spans[0].start] + Cut(s, spans[0].end, spans[1..])
  }

  /* ---- The result ---- */

  /** What the scan of the whole text collects. */
  function Extraction(content: string, decode: string -> Decoded): (f: Found)
    ensures Increasing(f.removed, 0) && InBounds(content, f.removed)
    ensures f.calls != [] <==> f.removed != []
    ensures forall span :: span in f.removed ==> span in Spans(content, 0)
  {
    SpansFit(content, 0);
    CollectedFits(content, Spans(content, 0), decode);
    Collected(content, Spans(content, 0), decode)
  }

  lemma CutFrom(s: string, from: nat, spans: seq<Span>)
    requires from <= |s| && Increasing(spans, from) && InBounds(s, spans) && spans != []
    ensures from <= spans[0].start <= spans[0].end <= |s|
    ensures Increasing(spans[1..], spans[0].end) && InBounds(s, spans[1..])
    ensures Cut(s, from, spans) == s[from..spans[0].start] + Cut(s, spans[0].end, spans[1..])
  {
  }

  lemma CutRest(s: string, from: nat)
    requires from <= |s|
    ensures Increasing([], from) && InBounds(s, []) && Cut(s, from, []) == s[from..]
  {
  }

  lemma Regroup(a: string, b: string, c: string)
    ensures a + (b + c) == (a + b) + c
  {
  }

  /** Writes the text between the ranges. */
  method Remove(content: string, ranges: seq<Span>) returns (text: string)
    requires Increasing(ranges, 0) && InBounds(content, ranges)
    ensures text == Cut(content, 0, ranges)
  {
    hide *;
    text := "";
    var lastEnd := 0;
    assert ranges[0..] == ranges;
    for k := 0 to |ranges|
      invariant 0 <= lastEnd <= |content| && Increasing(ranges[k..], lastEnd) && InBounds(content, ranges[k..])
      invariant text + Cut(content, lastEnd, ranges[k..]) == Cut(content, 0, ranges)
    {
      var r := ranges[k];
      assert ranges[k..][0] == r && ranges[k..][1..] == ranges[k + 1..];
      CutFrom(content, lastEnd, ranges[k..]);
      Regroup(text, content[lastEnd..r.start], Cut(content, r.end, ranges[k + 1..]));
      if r.start > lastEnd {
        text := text + content[lastEnd..r.start];
      }
      lastEnd := r.end;
    }
    assert ranges[|ranges|..] == [];
    CutRest(content, lastEnd);
    if lastEnd < |content| {
      text := text + content[lastEnd..];
    }
  }

  method FindAndExtractBareJsonToolCalls(content: string, decode: string -> Decoded)
      returns (text: string, calls: seq<FoundCall>)
    ensures var f := Extraction(content, decode);
      calls == f.calls && text == if f.removed == [] then content else TrimSpace(Cut(content, 0, f.removed))
  {
    hide Cut, TrimSpace, Spans, Collected, Step;
    SpansFit(content, 0);
    if '{' !in content || '}' !in content {
      NoBraces(content, 0);
      ScanStart(content, decode);
      return content, [];
    }
    var found, removed := Scanner(content, decode);
    ghost var f := Extraction(content, decode);
    assert f == Found(found, removed);
    if |removed| == 0 {
      return content, [];
    }
    var rest := Remove(content, removed);
    return TrimSpace(rest), found;
  }

  /* ---- The text that is left ---- */

  predicate InSpan(spans: seq<Span>, i: nat) {
    exists k :: 0 <= k < |spans| && spans[k].start <= i < spans[k].end
  }

  /** The characters from `i` on that lie outside of the spans, in order. */
  function Kept(s: string, spans: seq<Span>, i: nat): string
    requires i <= |s|
    decreases |s| - i
  {
    if i == |s| then ""
    else if InSpan(spans, i) then Kept(s, spans, i + 1)
    else [s[i]] + Kept(s, spans, i + 1)
  }

  lemma {:induction false} KeptPast(s: string, spans: seq<Span>, i: nat)
    requires i <= |s| && spans != [] && spans[0].end <= i
    ensures Kept(s, spans, i) == Kept(s, spans[1..], i)
    decreases |s| - i
  {
    if i < |s| {
      KeptPast(s, spans, i + 1);
      if k :| 0 <= k < |spans| && spans[k].start <= i < spans[k].end {
        assert spans[1..][k - 1] == spans[k];
      }
    }
  }

  lemma {:induction false} KeptInside(s: string, spans: seq<Span>, i: nat)
    requires i <= |s| && spans != [] && spans[0].start <= i <= spans[0].end <= |s|
    ensures Kept(s, spans, i) == Kept(s, spans, spans[0].end)
    decreases |s| - i
  {
    if i < spans[0].end {
      assert InSpan(spans, i);
      KeptInside(s, spans, i + 1);
    }
  }

  lemma {:induction false} Before(spans: seq<Span>, from: nat, i: nat)
    requires Increasing(spans, from) && (spans == [] || i < spans[0].start)
    ensures !InSpan(spans, i)
  {
    if spans != [] {
      Before(spans[1..], spans[0].end, i);
      assert forall k :: 0 < k < |spans| ==> spans[k] == spans[1..][k - 1];
    }
  }

  lemma CutStep(s: string, from: nat, spans: seq<Span>)
    requires from < |s| && Increasing(spans, from) && InBounds(s, spans) && (spans == [] || from < spans[0].start)
    ensures Increasing(spans, from + 1) && Cut(s, from, spans) == [s[from]] + Cut(s, from + 1, spans)
  {
    if spans == [] {
      assert s[from..] == [s[from]] + s[from + 1..];
    } else {
      assert s[from..spans[0].start] == [s[from]] + s[from + 1..spans[0].start];
      Regroup([s[from]], s[from + 1..spans[0].start], Cut(s, spans[0].end, spans[1..]));
    }
  }

  /** The text that is left consists of exactly the characters outside of the removed ranges, in order. */
  lemma {:induction false} CutKeeps(s: string, from: nat, spans: seq<Span>)
    requires from <= |s| && Increasing(spans, from) && InBounds(s, spans)
    ensures Cut(s, from, spans) == Kept(s, spans, from)
    decreases |s| - from
  {
    hide Cut, InSpan, Increasing;
    if spans != [] {
      CutFrom(s, from, spans);
    }
    if from == |s| {
      CutRest(s, from);
    } else if spans == [] || from < spans[0].start {
      Before(spans, from, from);
      CutStep(s, from, spans);
      CutKeeps(s, from + 1, spans);
    } else {
      hide Kept;
      KeptInside(s, spans, from);
      KeptPast(s, spans, spans[0].end);
      CutKeeps(s, spans[0].end, spans[1..]);
    }
  }
}
