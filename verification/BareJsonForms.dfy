/** What a balanced span is: texts built from literals and nested objects, against the scanner's reading of them. */
module BareJsonForms {
  import opened BareJson

  /** A character of a string literal, or an escaped one. */
  datatype Quoted = Raw(c: char) | Escaped(c: char)

  /** A text: characters, string literals and objects in a row. */
  datatype Form =
    | End
    | Plain(c: char, rest: Form)
    | Literal(content: seq<Quoted>, rest: Form)
    | Object(inner: Form, rest: Form)

  function WriteQuoted(content: seq<Quoted>): string {
    if content == [] then ""
    else (match content[0] case Raw(c) => [c] case Escaped(c) => ['\\', c]) + WriteQuoted(content[1..])
  }

  function Write(f: Form): string {
    match f
    case End => ""
    case Plain(c, rest) => [c] + Write(rest)
    case Literal(content, rest) => "\"" + WriteQuoted(content) + "\"" + Write(rest)
    case Object(inner, rest) => "{" + Write(inner) + "}" + Write(rest)
  }

  predicate ProperQuoted(content: seq<Quoted>) {
    forall k :: 0 <= k < |content| ==> content[k].Raw? ==> content[k].c != '"' && content[k].c != '\\'
  }

  /** Quotes and opening braces appear in literals and objects only; a stray closing brace only outside of all objects. */
  predicate Proper(f: Form, outside: bool) {
    match f
    case End => true
    case Plain(c, rest) => c != '"' && c != '{' && (c == '}' ==> outside) && Proper(rest, outside)
    case Literal(content, rest) => ProperQuoted(content) && Proper(rest, outside)
    case Object(inner, rest) => Proper(inner, false) && Proper(rest, outside)
  }

  /** The places of the outermost objects, when the text is written at `i`. */
  function Outermost(f: Form, i: nat): seq<Span> {
    match f
    case End => []
    case Plain(c, rest) => Outermost(rest, i + 1)
    case Literal(content, rest) => Outermost(rest, i + |WriteQuoted(content)| + 2)
    case Object(inner, rest) =>
      var end := i + |Write(inner)| + 2;
      [Span(i, end)] + Outermost(rest, end)
  }

  /** `part` stands in `s` at `i`. */
  predicate At(s: string, i: nat, part: string) {
    i + |part| <= |s| && s[i..i + |part|] == part
  }

  lemma AtSplit(s: string, i: nat, a: string, b: string)
    requires At(s, i, a + b)
    ensures At(s, i, a) && At(s, i + |a|, b)
  {
    assert s[i..i + |a|] == (a + b)[..|a|];
    assert s[i + |a|..i + |a| + |b|] == (a + b)[|a|..];
  }

  lemma AtJoin(s: string, i: nat, a: string, b: string)
    requires At(s, i, a) && At(s, i + |a|, b)
    ensures At(s, i, a + b)
  {
    assert s[i..i + |a| + |b|] == s[i..i + |a|] + s[i + |a|..i + |a| + |b|];
  }

  /* ---- Written texts are read as they are built ---- */

  lemma {:induction false} QuotedRead(s: string, i: nat, content: seq<Quoted>)
    requires ProperQuoted(content) && At(s, i, WriteQuoted(content)) && At(s, i + |WriteQuoted(content)|, "\"")
    ensures SkipString(s, i) == i + |WriteQuoted(content)| + 1
    decreases |content|
  {
    if content == [] {
      assert s[i] == s[i..i + 1][0];
    } else {
      var first := match content[0] case Raw(c) => [c] case Escaped(c) => ['\\', c];
      AtSplit(s, i, first, WriteQuoted(content[1..]));
      assert s[i] == s[i..i + |first|][0];
      assert content[0].Escaped? ==> s[i + 1] == s[i..i + |first|][1];
      QuotedRead(s, i + |first|, content[1..]);
    }
  }

  /* The first part of a text that stands at `i`. */

  lemma PlainFirst(s: string, i: nat, f: Form, outside: bool)
    requires f.Plain? && Proper(f, outside) && At(s, i, Write(f))
    ensures i < |s| && s[i] == f.c && s[i] != '"' && s[i] != '{' && (s[i] == '}' ==> outside)
    ensures Proper(f.rest, outside) && At(s, i + 1, Write(f.rest)) && |Write(f)| == 1 + |Write(f.rest)|
  {
    AtSplit(s, i, [f.c], Write(f.rest));
    assert s[i] == s[i..i + 1][0];
  }

  /** Behind the literal. */
  function LiteralEnd(f: Form, i: nat): nat
    requires f.Literal?
  {
    i + |WriteQuoted(f.content)| + 2
  }

  lemma LiteralFirst(s: string, i: nat, f: Form, outside: bool)
    requires f.Literal? && Proper(f, outside) && At(s, i, Write(f))
    ensures i < |s| && s[i] == '"' && SkipString(s, i + 1) == LiteralEnd(f, i)
    ensures Proper(f.rest, outside) && At(s, LiteralEnd(f, i), Write(f.rest))
    ensures i + |Write(f)| == LiteralEnd(f, i) + |Write(f.rest)|
  {
    hide SkipString, WriteQuoted, ProperQuoted;
    var quoted := WriteQuoted(f.content);
    AtSplit(s, i, "\"" + quoted + "\"", Write(f.rest));
    AtSplit(s, i, "\"" + quoted, "\"");
    AtSplit(s, i, "\"", quoted);
    assert s[i] == s[i..i + 1][0];
    hide At;
    QuotedRead(s, i + 1, f.content);
  }

  /** Behind the object. */
  function ObjectEnd(f: Form, i: nat): nat
    requires f.Object?
  {
    i + |Write(f.inner)| + 2
  }

  lemma ObjectFirst(s: string, i: nat, f: Form, outside: bool)
    requires f.Object? && Proper(f, outside) && At(s, i, Write(f))
    ensures ObjectEnd(f, i) <= |s| && s[i] == '{' && s[ObjectEnd(f, i) - 1] == '}'
    ensures Proper(f.inner, false) && At(s, i + 1, Write(f.inner)) && i + 1 + |Write(f.inner)| == ObjectEnd(f, i) - 1
    ensures Proper(f.rest, outside) && At(s, ObjectEnd(f, i), Write(f.rest))
    ensures i + |Write(f)| == ObjectEnd(f, i) + |Write(f.rest)|
  {
    AtSplit(s, i, "{" + Write(f.inner) + "}", Write(f.rest));
    AtSplit(s, i, "{" + Write(f.inner), "}");
    AtSplit(s, i, "{", Write(f.inner));
    var e := i + 1 + |Write(f.inner)|;
    assert s[i] == s[i..i + 1][0] && s[e] == s[e..e + 1][0];
  }

  lemma CloseStep(s: string, i: nat)
    requires i < |s|
    ensures CloseOf(s, i) ==
      if s[i] == '"' then CloseOf(s, SkipString(s, i + 1))
      else if s[i] == '}' then Some(i + 1)
      else if s[i] == '{' then
        var inner := CloseOf(s, i + 1);
        if inner.None? then None else CloseOf(s, inner.pos)
      else CloseOf(s, i + 1)
  {
  }

  /** Behind the first part. */
  function NextAt(f: Form, i: nat): nat
    requires !f.End?
  {
    match f
    case Plain(_, _) => i + 1
    case Literal(_, _) => LiteralEnd(f, i)
    case Object(_, _) => ObjectEnd(f, i)
  }

  lemma First(s: string, i: nat, f: Form, outside: bool)
    requires !f.End? && Proper(f, outside) && At(s, i, Write(f))
    ensures i < |s| && Proper(f.rest, outside) && At(s, NextAt(f, i), Write(f.rest))
    ensures i + |Write(f)| == NextAt(f, i) + |Write(f.rest)|
  {
    hide At, Write, Proper, LiteralEnd, ObjectEnd;
    match f
    case Plain(_, _) => PlainFirst(s, i, f, outside);
    case Literal(_, _) => LiteralFirst(s, i, f, outside);
    case Object(_, _) => ObjectFirst(s, i, f, outside);
  }

  lemma AtFits(s: string, i: nat, f: Form)
    requires At(s, i, Write(f))
    ensures i + |Write(f)| <= |s| && (f.End? ==> |Write(f)| == 0)
  {
  }

  /** A text inside an object does not close it. */
  lemma {:induction false} CloseRead(s: string, i: nat, f: Form)
    requires Proper(f, false) && At(s, i, Write(f))
    ensures i + |Write(f)| <= |s| && CloseOf(s, i) == CloseOf(s, i + |Write(f)|)
    decreases f, 2
  {
    AtFits(s, i, f);
    hide *;
    if !f.End? {
      First(s, i, f, false);
      CloseFirst(s, i, f);
      CloseRead(s, NextAt(f, i), f.rest);
    }
  }

  lemma {:induction false} CloseFirst(s: string, i: nat, f: Form)
    requires !f.End? && Proper(f, false) && At(s, i, Write(f))
    ensures i < NextAt(f, i) <= |s| && CloseOf(s, i) == CloseOf(s, NextAt(f, i))
    decreases f, 1
  {
    hide At, Write, Proper, CloseOf, SkipString;
    First(s, i, f, false);
    AtFits(s, NextAt(f, i), f.rest);
    CloseStep(s, i);
    match f
    case Plain(_, _) => PlainFirst(s, i, f, false);
    case Literal(_, _) => LiteralFirst(s, i, f, false);
    case Object(_, _) => CloseObject(s, i, f, false);
  }

  /** The brace behind an object's content closes it. */
  lemma {:induction false} CloseObject(s: string, i: nat, f: Form, outside: bool)
    requires f.Object? && Proper(f, outside) && At(s, i, Write(f))
    ensures i < |s| && s[i] == '{' && CloseOf(s, i + 1) == Some(ObjectEnd(f, i))
    decreases f, 0
  {
    hide *;
    ObjectFirst(s, i, f, outside);
    CloseRead(s, i + 1, f.inner);
    CloseStep(s, ObjectEnd(f, i) - 1);
  }

  /** The first part, when it is an object. */
  function FirstSpan(f: Form, i: nat): seq<Span>
    requires !f.End?
  {
    if f.Object? then [Span(i, ObjectEnd(f, i))] else []
  }

  lemma SpansFirst(s: string, i: nat, f: Form)
    requires !f.End? && Proper(f, true) && At(s, i, Write(f))
    ensures i < NextAt(f, i) <= |s| && Spans(s, i) == FirstSpan(f, i) + Spans(s, NextAt(f, i))
  {
    hide At, Write, Proper, CloseOf, SkipString, Spans;
    First(s, i, f, true);
    AtFits(s, NextAt(f, i), f.rest);
    SpansStep(s, i);
    match f
    case Plain(_, _) => PlainFirst(s, i, f, true);
    case Literal(_, _) => LiteralFirst(s, i, f, true);
    case Object(_, _) => CloseObject(s, i, f, true);
  }

  lemma OutermostFirst(f: Form, i: nat)
    ensures Outermost(f, i) == if f.End? then [] else FirstSpan(f, i) + Outermost(f.rest, NextAt(f, i))
  {
  }

  /** The spans of a text are the places of its outermost objects, and then those of what follows. */
  lemma {:induction false} SpansRead(s: string, i: nat, f: Form)
    requires Proper(f, true) && At(s, i, Write(f))
    ensures i + |Write(f)| <= |s| && Spans(s, i) == Outermost(f, i) + Spans(s, i + |Write(f)|)
    decreases f
  {
    hide *;
    AtFits(s, i, f);
    OutermostFirst(f, i);
    if f.End? {
      assert [] + Spans(s, i) == Spans(s, i);
    } else {
      First(s, i, f, true);
      SpansFirst(s, i, f);
      SpansRead(s, NextAt(f, i), f.rest);
      var end := i + |Write(f)|;
      Regroup(FirstSpan(f, i), Outermost(f.rest, NextAt(f, i)), Spans(s, end));
    }
  }

  lemma Regroup<T>(a: seq<T>, b: seq<T>, c: seq<T>)
    ensures a + (b + c) == (a + b) + c
  {
  }

  lemma ClosedHere(s: string, i: nat)
    requires i < |s| && s[i] == '}'
    ensures CloseOf(s, i) == Some(i + 1)
  {
  }

  /* ---- Every text is read that way ---- */

  lemma {:induction false} QuotedParts(s: string, i: nat) returns (content: seq<Quoted>)
    requires i <= |s| && SkipString(s, i) < |s|
    ensures Quotes(s, i, content)
    decreases |s| - i
  {
    content := [];
    if s[i] != '"' {
      var first, p := [s[i]], Raw(s[i]);
      if s[i] == '\\' {
        first, p := [s[i], s[i + 1]], Escaped(s[i + 1]);
      }
      var rest := QuotedParts(s, i + |first|);
      content := [p] + rest;
      assert content[1..] == rest;
      AtJoin(s, i, first, WriteQuoted(rest));
    }
  }

  /** The text stands in `s` from `i` up to `end`. */
  ghost predicate Stands(s: string, i: nat, f: Form, outside: bool, end: nat) {
    Proper(f, outside) && At(s, i, Write(f)) && end == i + |Write(f)|
  }

  /** Literal content and its closing quote. */
  ghost predicate Quotes(s: string, i: nat, content: seq<Quoted>) {
    && ProperQuoted(content) && At(s, i, WriteQuoted(content))
    && i + |WriteQuoted(content)| < |s| && s[i + |WriteQuoted(content)|] == '"'
  }

  lemma CharAt(s: string, i: nat)
    requires i < |s|
    ensures At(s, i, [s[i]])
  {
  }

  lemma Framed(s: string, i: nat, a: char, part: string, b: char)
    requires i < |s| && s[i] == a && At(s, i + 1, part) && i + 1 + |part| < |s| && s[i + 1 + |part|] == b
    ensures At(s, i, [a] + part + [b])
  {
    CharAt(s, i);
    CharAt(s, i + 1 + |part|);
    hide At;
    AtJoin(s, i, [a], part);
    AtJoin(s, i, [a] + part, [b]);
  }

  lemma EndStands(s: string, i: nat, outside: bool)
    requires i <= |s|
    ensures Stands(s, i, End, outside, i) && Outermost(End, i) == []
  {
  }

  lemma PlainStands(s: string, i: nat, rest: Form, outside: bool, end: nat)
    requires i < |s| && s[i] != '"' && s[i] != '{' && (s[i] == '}' ==> outside)
    requires Stands(s, i + 1, rest, outside, end)
    ensures Stands(s, i, Plain(s[i], rest), outside, end)
    ensures Outermost(Plain(s[i], rest), i) == Outermost(rest, i + 1)
  {
    AtJoin(s, i, [s[i]], Write(rest));
  }

  lemma QuotesStand(s: string, i: nat, content: seq<Quoted>)
    requires i < |s| && s[i] == '"' && Quotes(s, i + 1, content)
    ensures At(s, i, "\"" + WriteQuoted(content) + "\"")
    ensures SkipString(s, i + 1) == i + |"\"" + WriteQuoted(content) + "\""|
  {
    CharAt(s, i + 1 + |WriteQuoted(content)|);
    QuotedRead(s, i + 1, content);
    hide At, WriteQuoted, SkipString;
    Framed(s, i, '"', WriteQuoted(content), '"');
  }

  lemma LiteralStands(s: string, i: nat, content: seq<Quoted>, rest: Form, j: nat, outside: bool, end: nat)
    requires i < |s| && s[i] == '"' && Quotes(s, i + 1, content) && SkipString(s, i + 1) == j
    requires Stands(s, j, rest, outside, end)
    ensures Stands(s, i, Literal(content, rest), outside, end)
    ensures Outermost(Literal(content, rest), i) == Outermost(rest, j)
  {
    hide *;
    var f := Literal(content, rest);
    LiteralParts(s, i, content, rest);
    QuotesStand(s, i, content);
    Prepend(s, i, "\"" + WriteQuoted(content) + "\"", f, rest, outside, end);
  }

  lemma LiteralParts(s: string, i: nat, content: seq<Quoted>, rest: Form)
    requires i < |s| && Quotes(s, i + 1, content)
    ensures var f, part := Literal(content, rest), "\"" + WriteQuoted(content) + "\"";
      && Write(f) == part + Write(rest) && Outermost(f, i) == Outermost(rest, i + |part|)
      && forall outside :: Proper(f, outside) == Proper(rest, outside)
  {
    hide WriteQuoted, At;
  }

  lemma Prepend(s: string, i: nat, part: string, f: Form, rest: Form, outside: bool, end: nat)
    requires At(s, i, part) && Write(f) == part + Write(rest) && Proper(f, outside) == Proper(rest, outside)
    requires Stands(s, i + |part|, rest, outside, end)
    ensures Stands(s, i, f, outside, end)
  {
    hide Write, Proper, At;
    AtJoin(s, i, part, Write(rest));
  }

  lemma ObjectStands(s: string, i: nat, inner: Form, close: nat, rest: Form, outside: bool, end: nat)
    requires i < close < |s| && s[i] == '{' && s[close] == '}'
    requires Stands(s, i + 1, inner, false, close) && Stands(s, close + 1, rest, outside, end)
    ensures Stands(s, i, Object(inner, rest), outside, end)
    ensures Outermost(Object(inner, rest), i) == [Span(i, close + 1)] + Outermost(rest, close + 1)
  {
    hide At;
    Framed(s, i, '{', Write(inner), '}');
    AtJoin(s, i, "{" + Write(inner) + "}", Write(rest));
  }

  /** What stands in front of the closing brace of an object is a text. */
  lemma {:induction false} CloseParts(s: string, i: nat, end: nat) returns (f: Form)
    requires i <= |s| && CloseOf(s, i) == Some(end)
    ensures 0 < end && Stands(s, i, f, false, end - 1)
    decreases |s| - i
  {
    f := End;
    CloseStep(s, i);
    EndStands(s, i, false);
    hide *;
    if s[i] == '"' {
      var content := QuotedParts(s, i + 1);
      var rest := CloseParts(s, SkipString(s, i + 1), end);
      f := Literal(content, rest);
      LiteralStands(s, i, content, rest, SkipString(s, i + 1), false, end - 1);
    } else if s[i] == '{' {
      var close := CloseOf(s, i + 1).pos;
      var inner := CloseParts(s, i + 1, close);
      var rest := CloseParts(s, close, end);
      f := Object(inner, rest);
      ObjectStands(s, i, inner, close - 1, rest, false, end - 1);
    } else if s[i] != '}' {
      var rest := CloseParts(s, i + 1, end);
      f := Plain(s[i], rest);
      PlainStands(s, i, rest, false, end - 1);
    }
  }

  /** A text stands at `i` that a closing brace follows. */
  ghost predicate Closes(s: string, i: nat) {
    exists f: Form, end: nat :: Stands(s, i, f, false, end) && end < |s| && s[end] == '}'
  }

  /** At `j` the text ends, or an object opens that no text closes, or a literal that nothing follows. */
  ghost predicate Open(s: string, j: nat) {
    || j == |s|
    || (j < |s| && s[j] == '{' && !Closes(s, j + 1))
    || (j < |s| && s[j] == '"' && SkipString(s, j + 1) == |s|)
  }

  lemma NothingCloses(s: string, i: nat)
    requires i <= |s| && CloseOf(s, i).None?
    ensures !Closes(s, i)
  {
    hide CloseOf, Proper, Write;
    if Closes(s, i) {
      var f: Form, end: nat :| Stands(s, i, f, false, end) && end < |s| && s[end] == '}';
      CloseRead(s, i, f);
      CloseStep(s, end);
    }
  }

  lemma OpenAt(s: string, j: nat)
    requires j < |s| ==> if s[j] == '"' then SkipString(s, j + 1) == |s| else s[j] == '{' && !Closes(s, j + 1)
    requires j <= |s|
    ensures Open(s, j)
  {
  }

  /** Every text is a row of characters, literals and objects whose outermost objects are the spans, up to its end or
      up to an object or a literal that is never closed. */
  lemma {:induction false} TextParts(s: string, i: nat) returns (f: Form, end: nat)
    requires i <= |s|
    ensures Stands(s, i, f, true, end) && Spans(s, i) == Outermost(f, i) && Open(s, end)
    decreases |s| - i
  {
    f, end := End, i;
    EndStands(s, i, true);
    SpansAtEnd(s);
    hide *;
    if i == |s| {
      OpenAt(s, i);
    } else {
      SpansStep(s, i);
      if s[i] == '"' {
        var j := SkipString(s, i + 1);
        SpansAtEnd(s);
        if j < |s| {
          var content := QuotedParts(s, i + 1);
          f, end := TextParts(s, j);
          LiteralStands(s, i, content, f, j, true, end);
          f := Literal(content, f);
        } else {
          OpenAt(s, i);
        }
      } else if s[i] == '{' {
        var c := CloseOf(s, i + 1);
        if c.Some? {
          var inner := CloseParts(s, i + 1, c.pos);
          f, end := TextParts(s, c.pos);
          ObjectStands(s, i, inner, c.pos - 1, f, true, end);
          f := Object(inner, f);
        } else {
          NothingCloses(s, i + 1);
          OpenAt(s, i);
        }
      } else {
        f, end := TextParts(s, i + 1);
        PlainStands(s, i, f, true, end);
        f := Plain(s[i], f);
      }
    }
  }

  lemma SpansAtEnd(s: string)
    ensures Spans(s, |s|) == []
  {
  }
}
