/** Bare JSON objects in model text: a scanner with a brace counter, against a recursive definition of
    balanced spans.  Strings follow section 7 of RFC 8259: a backslash escapes the next character. */
module BareJson {

  /** A tool call read from an object; its id is random and not part of the model. */
  datatype FoundCall = FoundCall(name: string, arguments: string)

  /** What the decoder makes of a candidate: not a usable object, a list of tool uses (those with a
      name), or an object that is or is not a call itself. */
  datatype Decoded = Unusable | ToolUses(uses: seq<FoundCall>) | Single(call: FoundCall) | NoCall

  datatype Option = None | Some(pos: nat)

  /** From an opening brace up to and including its match. */
  datatype Span = Span(start: nat, end: nat)

  /* ---- Balanced spans ---- */

  /** Where the string literal ends whose content starts at `i`. */
  function SkipString(s: string, i: nat): (j: nat)
    requires i <= |s|
    ensures i <= j <= |s|
    decreases |s| - i
  {
    if i == |s| then i
    else if s[i] == '"' then i + 1
    else if s[i] == '\\' then (if i + 1 == |s| then |s| else SkipString(s, i + 2))
    else SkipString(s, i + 1)
  }

  /** Behind the brace that closes the object whose content starts at `i`. */
  function CloseOf(s: string, i: nat): (c: Option)
    requires i <= |s|
    ensures c.Some? ==> i < c.pos <= |s| && s[c.pos - 1] == '}'
    decreases |s| - i
  {
    if i == |s| then None
    else if s[i] == '"' then CloseOf(s, SkipString(s, i + 1))
    else if s[i] == '}' then Some(i + 1)
    else if s[i] == '{' then
      var inner := CloseOf(s, i + 1);
      if inner.None? then None else CloseOf(s, inner.pos)
    else CloseOf(s, i + 1)
  }

  /** The top-level spans from `i` on. */
  function Spans(s: string, i: nat): (spans: seq<Span>)
    requires i <= |s|
    decreases |s| - i
  {
    if i == |s| then []
    else if s[i] == '"' then Spans(s, SkipString(s, i + 1))
    else if s[i] == '{' then
      var c := CloseOf(s, i + 1);
      if c.None? then [] else [Span(i, c.pos)] + Spans(s, c.pos)
    else Spans(s, i + 1)
  }

  /* ---- What is collected ---- */

  datatype Found = Found(calls: seq<FoundCall>, removed: seq<Span>)

  /** One more candidate; tool uses are removed as soon as any call has been found so far. */
  function Step(f: Found, span: Span, decoded: Decoded): Found {
    match decoded
    case Unusable => f
    case NoCall => f
    case Single(call) => Found(f.calls + [call], f.removed + [span])
    case ToolUses(uses) =>
      var calls := f.calls + uses;
      Found(calls, if calls != [] then f.removed + [span] else f.removed)
  }

  function Collected(s: string, spans: seq<Span>, decode: string -> Decoded): Found
    requires InBounds(s, spans)
  {
    if spans == [] then Found([], [])
    else
      var k := |spans| - 1;
      Step(Collected(s, spans[..k], decode), spans[k], decode(s[spans[k].start..spans[k].end]))
  }

  predicate InBounds(s: string, spans: seq<Span>) {
    forall k :: 0 <= k < |spans| ==> spans[k].start < spans[k].end <= |s|
  }

  /** Increasing and disjoint, from `i` on. */
  predicate Increasing(spans: seq<Span>, i: nat) {
    spans == [] || (i <= spans[0].start < spans[0].end && Increasing(spans[1..], spans[0].end))
  }

  lemma {:induction false} SpansFit(s: string, i: nat)
    requires i <= |s|
    ensures Increasing(Spans(s, i), i) && InBounds(s, Spans(s, i))
    decreases |s| - i
  {
    hide CloseOf, SkipString;
    if i < |s| {
      if s[i] == '"' {
        var j := SkipString(s, i + 1);
        SpansFit(s, j);
        IncreasingFrom(Spans(s, j), j, i);
      } else if s[i] == '{' {
        var c := CloseOf(s, i + 1);
        if c.Some? {
          SpansFit(s, c.pos);
          assert ([Span(i, c.pos)] + Spans(s, c.pos))[1..] == Spans(s, c.pos);
        }
      } else {
        SpansFit(s, i + 1);
        IncreasingFrom(Spans(s, i + 1), i + 1, i);
      }
    }
  }

  lemma IncreasingFrom(spans: seq<Span>, j: nat, i: nat)
    requires Increasing(spans, j) && i <= j
    ensures Increasing(spans, i)
  {
  }

  /* ---- The scanner's state ---- */

  /** The variables of the scanner, before it looks at the next character; `start` matters when `depth > 0`. */
  datatype Scan = Scan(inString: bool, escape: bool, depth: nat, start: nat)

  /** Where the scanner is outside of string literals again. */
  function Resume(s: string, i: nat, st: Scan): (j: nat)
    requires i <= |s|
    ensures i <= j <= |s|
  {
    if st.escape then (if i == |s| then i else SkipString(s, i + 1))
    else if st.inString then SkipString(s, i)
    else i
  }

  /** Behind the brace that closes `depth` open objects. */
  function CloseAll(s: string, p: nat, depth: nat): (c: Option)
    requires p <= |s|
    ensures c.Some? ==> p <= c.pos <= |s|
    decreases depth
  {
    if depth == 0 then Some(p)
    else
      var c := CloseOf(s, p);
      if c.None? then None else CloseAll(s, c.pos, depth - 1)
  }

  /** The spans still to come. */
  function Rest(s: string, i: nat, st: Scan): seq<Span>
    requires i <= |s|
  {
    RestAt(s, Resume(s, i, st), st.depth, st.start)
  }

  /** The scanner's state after the character at `i`. */
  function Next(s: string, i: nat, st: Scan): Scan
    requires i < |s|
  {
    var c := s[i];
    if st.escape then st.(escape := false)
    else if c == '\\' && st.inString then st.(escape := true)
    else if c == '"' then st.(inString := !st.inString)
    else if st.inString then st
    else if c == '{' then st.(depth := st.depth + 1, start := if st.depth == 0 then i else st.start)
    else if c == '}' && st.depth > 0 then st.(depth := st.depth - 1)
    else st
  }

  /** The span that ends with the character at `i`, if any. */
  function Closed(s: string, i: nat, st: Scan): seq<Span>
    requires i < |s|
  {
    if !st.escape && !st.inString && s[i] == '}' && st.depth == 1 then [Span(st.start, i + 1)] else []
  }

  predicate EscapeInString(st: Scan) {
    st.escape ==> st.inString
  }

  /** Inside a string literal nothing is found. */
  lemma ResumeStep(s: string, i: nat, st: Scan)
    requires i < |s| && EscapeInString(st) && (st.inString || s[i] == '"')
    ensures EscapeInString(Next(s, i, st)) && Next(s, i, st).depth == st.depth && Next(s, i, st).start == st.start
    ensures Closed(s, i, st) == []
    ensures Resume(s, i + 1, Next(s, i, st)) == if st.inString then Resume(s, i, st) else SkipString(s, i + 1)
  {
  }

  lemma CloseAllStep(s: string, i: nat, depth: nat)
    requires i < |s| && depth > 0
    ensures CloseAll(s, i, depth) ==
      if s[i] == '"' then CloseAll(s, SkipString(s, i + 1), depth)
      else if s[i] == '{' then CloseAll(s, i + 1, depth + 1)
      else if s[i] == '}' then CloseAll(s, i + 1, depth - 1)
      else CloseAll(s, i + 1, depth)
  {
    hide SkipString;
  }

  lemma SpansStep(s: string, i: nat)
    requires i < |s|
    ensures Spans(s, i) ==
      if s[i] == '"' then Spans(s, SkipString(s, i + 1))
      else if s[i] == '{' then
        var c := CloseOf(s, i + 1);
        if c.None? then [] else [Span(i, c.pos)] + Spans(s, c.pos)
      else Spans(s, i + 1)
  {
  }

  /** The spans still to come when scanning goes on at `p`, outside of string literals. */
  function RestAt(s: string, p: nat, depth: nat, start: nat): seq<Span>
    requires p <= |s|
  {
    if depth == 0 then Spans(s, p)
    else
      var c := CloseAll(s, p, depth);
      if c.None? then [] else [Span(start, c.pos)] + Spans(s, c.pos)
  }

  lemma RestAtStep(s: string, i: nat, depth: nat, start: nat)
    requires i < |s|
    ensures RestAt(s, i, depth, start) ==
      if s[i] == '"' then RestAt(s, SkipString(s, i + 1), depth, start)
      else if s[i] == '{' then RestAt(s, i + 1, depth + 1, if depth == 0 then i else start)
      else if s[i] == '}' && depth == 1 then [Span(start, i + 1)] + Spans(s, i + 1)
      else if s[i] == '}' && depth > 1 then RestAt(s, i + 1, depth - 1, start)
      else RestAt(s, i + 1, depth, start)
  {
    hide SkipString, CloseOf, Spans;
    SpansStep(s, i);
    if depth > 0 {
      CloseAllStep(s, i, depth);
      assert CloseAll(s, i + 1, 0) == Some(i + 1);
      hide CloseAll;
    } else {
      assert CloseAll(s, i + 1, 1) == CloseOf(s, i + 1);
      hide CloseAll;
    }
  }

  /** One step of the scanner: what it finds and what is still to come make up what was to come. */
  lemma RestStep(s: string, i: nat, st: Scan)
    requires i < |s| && EscapeInString(st)
    ensures EscapeInString(Next(s, i, st))
    ensures Rest(s, i, st) == Closed(s, i, st) + Rest(s, i + 1, Next(s, i, st))
  {
    if st.inString || s[i] == '"' {
      ResumeStep(s, i, st);
    }
    RestAtStep(s, i, st.depth, st.start);
    hide SkipString, RestAt, Spans;
  }

  /* ---- The ranges that are removed ---- */

  function EndOf(spans: seq<Span>, i: nat): nat {
    if spans == [] then i else spans[|spans| - 1].end
  }

  lemma {:induction false} IncreasingSnoc(spans: seq<Span>, last: Span, i: nat)
    ensures Increasing(spans + [last], i) <==> Increasing(spans, i) && EndOf(spans, i) <= last.start < last.end
  {
    if spans == [] {
      assert [last][1..] == [];
    } else {
      assert (spans + [last])[1..] == spans[1..] + [last];
      IncreasingSnoc(spans[1..], last, spans[0].end);
    }
  }

  /** What is collected so far from candidates that end before `end`. */
  ghost predicate FoundIn(s: string, f: Found, end: nat) {
    && Increasing(f.removed, 0) && InBounds(s, f.removed) && EndOf(f.removed, 0) <= end
    && (f.calls != [] <==> f.removed != [])
  }

  lemma StepFits(s: string, f: Found, span: Span, decoded: Decoded, end: nat)
    requires FoundIn(s, f, end) && end <= span.start < span.end <= |s|
    ensures FoundIn(s, Step(f, span, decoded), span.end)
    ensures forall x :: x in Step(f, span, decoded).removed ==> x in f.removed || x == span
  {
    IncreasingSnoc(f.removed, span, 0);
    hide Increasing;
  }

  /** What is removed are some of the candidate spans, in order; and calls are found if and only if
      something is removed. */
  lemma {:induction false} CollectedFits(s: string, spans: seq<Span>, decode: string -> Decoded)
    requires InBounds(s, spans) && Increasing(spans, 0)
    ensures FoundIn(s, Collected(s, spans, decode), EndOf(spans, 0))
    ensures forall span :: span in Collected(s, spans, decode).removed ==> span in spans
  {
    hide Step;
    if spans != [] {
      var k := |spans| - 1;
      assert spans == spans[..k] + [spans[k]];
      IncreasingSnoc(spans[..k], spans[k], 0);
      CollectedFits(s, spans[..k], decode);
      hide Increasing, FoundIn;
      StepFits(s, Collected(s, spans[..k], decode), spans[k], decode(s[spans[k].start..spans[k].end]),
          EndOf(spans[..k], 0));
    }
  }

  lemma CollectedSnoc(s: string, spans: seq<Span>, span: Span, decode: string -> Decoded)
    requires InBounds(s, spans) && span.start < span.end <= |s|
    ensures InBounds(s, spans + [span])
    ensures Collected(s, spans + [span], decode) ==
      Step(Collected(s, spans, decode), span, decode(s[span.start..span.end]))
  {
    assert (spans + [span])[..|spans|] == spans;
  }

  /* ---- No braces, no spans ---- */

  lemma {:induction false} NoBraces(s: string, i: nat)
    requires i <= |s| && ('{' !in s || '}' !in s)
    ensures Spans(s, i) == []
    decreases |s| - i
  {
    forall j | 0 <= j < |s|
      ensures s[j] != '{' || '}' !in s
      ensures s[j] != '}' || '{' !in s
    {
      assert s[j] in s;
    }
    hide SkipString, CloseOf;
    if i < |s| {
      if s[i] == '"' {
        NoBraces(s, SkipString(s, i + 1));
      } else if s[i] != '{' {
        NoBraces(s, i + 1);
      }
    }
  }

  lemma RestAtEnd(s: string, st: Scan)
    ensures Rest(s, |s|, st) == []
  {
  }

  /* ---- The scanner ---- */

  lemma FoundFits(s: string, found: seq<Span>, rest: seq<Span>)
    requires found + rest == Spans(s, 0)
    ensures InBounds(s, found)
  {
    SpansFit(s, 0);
    hide Spans;
    assert forall k :: 0 <= k < |found| ==> found[k] == (found + rest)[k];
  }

  lemma ScanStep(s: string, i: nat, st: Scan, found: seq<Span>)
    requires i < |s| && EscapeInString(st) && found + Rest(s, i, st) == Spans(s, 0)
    ensures EscapeInString(Next(s, i, st))
    ensures (found + Closed(s, i, st)) + Rest(s, i + 1, Next(s, i, st)) == Spans(s, 0)
    ensures InBounds(s, found + Closed(s, i, st))
  {
    RestStep(s, i, st);
    hide Rest, Next, Spans, Closed;
    var closed, rest := Closed(s, i, st), Rest(s, i + 1, Next(s, i, st));
    assert found + (closed + rest) == (found + closed) + rest;
    FoundFits(s, found + closed, rest);
  }

  /** The scan for calls: the candidates are exactly the balanced spans of the text. */
  method Scanner(content: string, decode: string -> Decoded) returns (calls: seq<FoundCall>, removed: seq<Span>)
    ensures InBounds(content, Spans(content, 0))
    ensures Found(calls, removed) == Collected(content, Spans(content, 0), decode)
  {
    hide Rest, Spans, Collected, Step, SkipString;
    calls, removed := [], [];
    var inString, escape, braceDepth, startIdx := false, false, 0, -1;
    ghost var st, found: seq<Span> := Scan(false, false, 0, 0), [];
    ScanStart(content, decode);
    for i := 0 to |content|
      invariant EscapeInString(st) && found + Rest(content, i, st) == Spans(content, 0)
      invariant inString == st.inString && escape == st.escape && braceDepth == st.depth
      invariant braceDepth > 0 ==> 0 <= startIdx == st.start < i
      invariant InBounds(content, found) && Found(calls, removed) == Collected(content, found, decode)
    {
      var c := content[i];
      ScanStep(content, i, st, found);
      var closed := Closed(content, i, st);
      st := Next(content, i, st);
      if escape {
        escape := false;
      } else if c == '\\' && inString {
        escape := true;
      } else if c == '"' {
        inString := !inString;
      } else if inString {
      } else if c == '{' {
        if braceDepth == 0 {
          startIdx := i;
        }
        braceDepth := braceDepth + 1;
      } else if c == '}' {
        if braceDepth > 0 {
          braceDepth := braceDepth - 1;
          if braceDepth == 0 {
            var span := Span(startIdx, i + 1);
            CollectedSnoc(content, found, span, decode);
            var f := Step(Found(calls, removed), span, decode(content[startIdx..i + 1]));
            calls, removed := f.calls, f.removed;
            found := found + [span];
            startIdx := -1;
          }
        }
      }
    }
    RestAtEnd(content, st);
    assert found + [] == found;
  }

  lemma ScanStart(s: string, decode: string -> Decoded)
    ensures [] + Rest(s, 0, Scan(false, false, 0, 0)) == Spans(s, 0)
    ensures Collected(s, [], decode) == Found([], [])
  {
  }
}
