/** What cleaning and framing guarantee about text from outside. */
module UntrustedLaws {
  import LedgerKey
  import opened Untrusted

  /* ---- Cleaning ---- */

  ghost predicate AllVisible(s: string) {
    forall i :: 0 <= i < |s| ==> Visible(s[i])
  }

  lemma {:induction false} FilterVisible(s: string)
    ensures AllVisible(Filter(s))
    ensures AllVisible(s) ==> Filter(s) == s
  {
    hide Visible;
    if s != "" {
      var k := |s| - 1;
      FilterVisible(s[..k]);
      assert s == s[..k] + [s[k]];
    }
  }

  lemma {:induction false} CappedVisible(s: string, k: nat)
    requires AllVisible(s)
    ensures AllVisible(Capped(s, k))
  {
    if s != "" {
      CappedVisible(s[1..], if s[0] == '\n' then (if k < 2 then k + 1 else k) else 0);
    }
  }

  /** What follows `k` newlines does not complete three of them. */
  predicate Continues(s: string, k: nat) {
    || k == 0
    || (k == 1 && !(|s| >= 2 && s[0] == '\n' && s[1] == '\n'))
    || (k >= 2 && !(s != "" && s[0] == '\n'))
  }

  lemma {:induction false} CappedHasNoTriple(s: string, k: nat)
    ensures !HasTriple(Capped(s, k)) && Continues(Capped(s, k), k)
  {
    if s != "" {
      if s[0] != '\n' {
        CappedHasNoTriple(s[1..], 0);
        assert Capped(s, k)[1..] == Capped(s[1..], 0);
      } else if k < 2 {
        CappedHasNoTriple(s[1..], k + 1);
        assert Capped(s, k)[1..] == Capped(s[1..], k + 1);
      } else {
        CappedHasNoTriple(s[1..], k);
      }
    }
  }

  lemma {:induction false} InitHasNoTriple(s: string)
    requires s != "" && !HasTriple(s)
    ensures !HasTriple(s[..|s| - 1])
  {
    if |s| > 1 {
      InitHasNoTriple(s[1..]);
      assert s[..|s| - 1][1..] == s[1..][..|s| - 2];
    }
  }

  /** Text that neither starts nor ends with white space. */
  predicate Tight(s: string) {
    s == "" || (!IsSpace(s[0]) && !IsSpace(s[|s| - 1]))
  }

  lemma {:induction false} TrimLeftKeeps(s: string)
    requires AllVisible(s) && !HasTriple(s)
    ensures var t := TrimLeft(s); AllVisible(t) && !HasTriple(t) && (t == "" || !IsSpace(t[0]))
  {
    hide IsSpace, Visible;
    if s != "" && IsSpace(s[0]) {
      TrimLeftKeeps(s[1..]);
    }
  }

  lemma {:induction false} TrimRightKeeps(s: string)
    requires AllVisible(s) && !HasTriple(s) && (s == "" || !IsSpace(s[0]))
    ensures var t := TrimRight(s); AllVisible(t) && !HasTriple(t) && Tight(t)
  {
    hide IsSpace, Visible;
    if s != "" && IsSpace(s[|s| - 1]) {
      InitHasNoTriple(s);
      TrimRightKeeps(s[..|s| - 1]);
    }
  }

  /** Cleaned text has visible runes only, no three newlines in a row, and is trimmed. */
  lemma CleanedIsClean(s: string)
    ensures var t := Cleaned(s); AllVisible(t) && !HasTriple(t) && Tight(t)
  {
    FilterVisible(s);
    CappedVisible(Filter(s), 0);
    CappedHasNoTriple(Filter(s), 0);
    TrimLeftKeeps(Capped(Filter(s), 0));
    TrimRightKeeps(TrimLeft(Capped(Filter(s), 0)));
    hide Filter, Capped, TrimLeft, TrimRight, AllVisible, HasTriple;
  }

  lemma CleanIsCleaned(t: string)
    requires AllVisible(t) && !HasTriple(t) && Tight(t)
    ensures Cleaned(t) == t
  {
    FilterVisible(t);
    CappedIsSame(t, 0);
    hide Filter, Capped, HasTriple, AllVisible, IsSpace;
  }

  /** Without a limit, cleaning twice is cleaning once, and no three newlines are left in a row. */
  lemma SanitizeIdempotent(s: string, maxRunes: int)
    requires maxRunes <= 0
    ensures Sanitized(Sanitized(s, maxRunes), maxRunes) == Sanitized(s, maxRunes)
    ensures !HasTriple(Sanitized(s, maxRunes))
  {
    CleanedIsClean(s);
    CleanIsCleaned(Cleaned(s));
    hide Cleaned, HasTriple;
  }

  /* ---- Truncation ---- */

  lemma {:induction false} NoNewlineNoTriple(s: string, b: string)
    requires b == "" || b[0] != '\n' || !(|b| >= 2 && b[1] == '\n')
    requires !HasTriple(b)
    requires !HasTriple(s)
    ensures HasTriple(s + b) <==> (|s| >= 2 && s[|s| - 2] == '\n' && s[|s| - 1] == '\n' && b != "" && b[0] == '\n')
  {
    if s == "" {
      assert s + b == b;
    } else {
      NoNewlineNoTriple(s[1..], b);
      assert (s + b)[1..] == s[1..] + b;
      assert |s| == 1 ==> s[1..] == "";
    }
  }

  lemma {:induction false} PlainHasNoTriple(s: string)
    requires '\n' !in s
    ensures !HasTriple(s)
  {
    if s != "" {
      PlainHasNoTriple(s[1..]);
    }
  }

  lemma NoteShape(n: nat)
    ensures var note := CutNote(n); note != "" && note[0] == '\n' && '\n' !in note[1..]
  {
    var d := LedgerKey.Decimal(n);
    hide LedgerKey.Decimal;
    assert CutNote(n) == "\n" + ("[truncated " + d + " characters]");
    assert CutNote(n)[1..] == "[truncated " + d + " characters]";
  }

  lemma NoteHasNoTriple(n: nat)
    ensures var note := CutNote(n); note != "" && note[0] == '\n' && (|note| >= 2 ==> note[1] != '\n') && !HasTriple(note)
  {
    NoteShape(n);
    var note := CutNote(n);
    hide CutNote;
    PlainHasNoTriple(note[1..]);
    assert |note| >= 2 ==> note[1] in note[1..];
  }

  lemma {:induction false} PrefixHasNoTriple(s: string, n: nat)
    requires n <= |s| && !HasTriple(s)
    ensures !HasTriple(s[..n])
    decreases |s| - n
  {
    if n < |s| {
      InitHasNoTriple(s);
      PrefixHasNoTriple(s[..|s| - 1], n);
      assert s[..|s| - 1][..n] == s[..n];
    } else {
      assert s[..n] == s;
    }
  }

  /** With a limit, three newlines in a row are left exactly when the cut falls behind two of them. */
  lemma TruncationTriple(s: string, maxRunes: int)
    ensures HasTriple(Sanitized(s, maxRunes)) <==>
      2 <= maxRunes < |Cleaned(s)| && Cleaned(s)[maxRunes - 2] == '\n' && Cleaned(s)[maxRunes - 1] == '\n'
  {
    CleanedIsClean(s);
    var t := Cleaned(s);
    hide Cleaned, AllVisible, Tight, HasTriple;
    if 0 < maxRunes < |t| {
      PrefixHasNoTriple(t, maxRunes);
      NoteHasNoTriple(|t| - maxRunes);
      hide CutNote;
      NoNewlineNoTriple(t[..maxRunes], CutNote(|t| - maxRunes));
    }
  }

  /** A cut that leaves three newlines in a row. */
  lemma TruncationExample()
    ensures HasTriple(Sanitized("a\n\nb", 3))
  {
    var t := "a\n\nb";
    assert t[1..][1..][1..] == "b";
    CleanIsCleaned(t);
    TruncationTriple(t, 3);
  }

  /* ---- Markers ---- */

  lemma Markers()
    ensures OPEN == "[" + NAME && CLOSE == "[" + ("/" + NAME)
    ensures '[' !in NAME && '[' !in "/" + NAME && NAME != ""
    ensures ' ' !in NAME && '\"' !in NAME && '=' !in NAME && ']' !in NAME && '\n' !in NAME && '\\' !in NAME
  {
  }

  /** A character that no marker contains. */
  predicate Separates(c: char) {
    c == ' ' || c == '\"' || c == '=' || c == ']' || c == '\n'
  }

  lemma StartsCons(x: char, t: string, w: string)
    ensures Starts([x] + t, w) <==> w == "" || (w[0] == x && Starts(t, w[1..]))
  {
    if w != "" && |w| <= |t| + 1 {
      assert ([x] + t)[..|w|] == [x] + t[..|w| - 1];
      assert w == [w[0]] + w[1..];
    }
  }

  /** Whether a bracket before `t` would make a marker. */
  predicate Completes(t: string) {
    Starts(t, NAME) || Starts(t, "/" + NAME)
  }

  lemma MarkerAt(x: char, t: string)
    ensures StartsMarker([x] + t) <==> x == '[' && Completes(t)
  {
    Markers();
    hide NAME, OPEN, CLOSE, Starts;
    StartsCons(x, t, OPEN);
    StartsCons(x, t, CLOSE);
    assert ("[" + NAME)[1..] == NAME && ("[" + ("/" + NAME))[1..] == "/" + NAME;
  }

  lemma MarkerCons(x: char, t: string)
    ensures HasMarker([x] + t) <==> (x == '[' && Completes(t)) || HasMarker(t)
  {
    MarkerAt(x, t);
    assert ([x] + t)[1..] == t;
    hide StartsMarker, Completes;
  }

  /* ---- The replacer inserts a space behind every bracket that begins a marker ---- */

  function Spaced(s: string): string {
    if s == "" then ""
    else if s[0] == '[' && Completes(s[1..]) then "[ " + Spaced(s[1..])
    else [s[0]] + Spaced(s[1..])
  }

  lemma {:induction false} StartsSpaced(s: string, w: string)
    requires '[' !in w
    ensures Starts(Spaced(s), w) <==> Starts(s, w)
    decreases |w|
  {
    hide Completes;
    if w != "" && s != "" {
      assert s == [s[0]] + s[1..];
      assert w[0] in w && forall c :: c in w[1..] ==> c in w;
      StartsCons(s[0], s[1..], w);
      hide Starts;
      if s[0] == '[' && Completes(s[1..]) {
        assert Spaced(s) == ['['] + (" " + Spaced(s[1..]));
        StartsCons('[', " " + Spaced(s[1..]), w);
      } else {
        StartsCons(s[0], Spaced(s[1..]), w);
        StartsSpaced(s[1..], w[1..]);
      }
    }
  }

  lemma {:induction false} SpacedHasNoMarker(s: string)
    ensures !HasMarker(Spaced(s))
  {
    if s != "" {
      var t := Spaced(s[1..]);
      SpacedHasNoMarker(s[1..]);
      if s[0] == '[' && Completes(s[1..]) {
        NoWordAfterSpace(t);
        hide Completes;
        MarkerCons(' ', t);
        MarkerCons('[', " " + t);
        assert "[ " + t == ['['] + (" " + t);
      } else {
        CompletesSpaced(s[1..]);
        hide Completes;
        MarkerCons(s[0], t);
      }
    }
  }

  lemma NoWordAfterSpace(t: string)
    ensures !Completes(" " + t)
  {
    Markers();
    StartsCons(' ', t, NAME);
    StartsCons(' ', t, "/" + NAME);
    hide Starts;
    assert NAME[0] in NAME;
  }

  lemma CompletesSpaced(s: string)
    ensures Completes(Spaced(s)) <==> Completes(s)
  {
    Markers();
    hide NAME, Starts, Spaced;
    StartsSpaced(s, NAME);
    StartsSpaced(s, "/" + NAME);
  }

  lemma {:induction false} SpacedPrefix(w: string, s: string)
    requires '[' !in w
    ensures Spaced(w + s) == w + Spaced(s)
  {
    hide Completes;
    if w == "" {
      assert w + s == s;
    } else {
      assert w[0] in w && forall c :: c in w[1..] ==> c in w;
      assert (w + s)[1..] == w[1..] + s;
      SpacedPrefix(w[1..], s);
    }
  }

  lemma AfterMarker(s: string, w: string)
    requires Starts(s, "[" + w)
    ensures s == ['['] + (w + s[|w| + 1..]) && Starts(s[1..], w)
  {
    assert s == s[..|w| + 1] + s[|w| + 1..];
  }

  lemma SpacedMarker(s: string, w: string)
    requires Starts(s, "[" + w) && '[' !in w && (w == NAME || w == "/" + NAME)
    ensures Spaced(s) == "[ " + (w + Spaced(s[|w| + 1..]))
  {
    AfterMarker(s, w);
    SpacedPrefix(w, s[|w| + 1..]);
    hide NAME, Starts;
    assert s[1..] == w + s[|w| + 1..];
  }

  /** The replacer is the same as a space behind every bracket that begins a marker. */
  lemma {:induction false} NeutralizedIsSpaced(s: string)
    ensures Neutralized(s) == Spaced(s)
  {
    hide *;
    if s == "" {
      assert Neutralized(s) == "" && Spaced(s) == "" by { NothingNeutralized(); }
    } else {
      Markers();
      NeutralizedStep(s);
      var plain := "/" + NAME;
      if Starts(s, OPEN) {
        SpacedMarker(s, NAME);
        NeutralizedIsSpaced(s[|OPEN|..]);
        assert "[ " + (NAME + Spaced(s[|OPEN|..])) == "[ " + NAME + Spaced(s[|OPEN|..]);
      } else if Starts(s, CLOSE) {
        assert CLOSE == "[" + plain;
        SpacedMarker(s, plain);
        NeutralizedIsSpaced(s[|CLOSE|..]);
        assert "[ " + (("/" + NAME) + Spaced(s[|CLOSE|..])) == "[ /" + NAME + Spaced(s[|CLOSE|..]);
      } else {
        NeutralizedIsSpaced(s[1..]);
        SpacedPlain(s);
      }
    }
  }

  lemma NothingNeutralized()
    ensures Neutralized("") == "" && Spaced("") == ""
  {
  }

  lemma NeutralizedStep(s: string)
    requires s != ""
    ensures Starts(s, OPEN) ==> |OPEN| <= |s| && Neutralized(s) == "[ " + NAME + Neutralized(s[|OPEN|..])
    ensures Starts(s, CLOSE) ==> |CLOSE| <= |s|
    ensures Starts(s, CLOSE) && !Starts(s, OPEN) ==> Neutralized(s) == "[ /" + NAME + Neutralized(s[|CLOSE|..])
    ensures !Starts(s, OPEN) && !Starts(s, CLOSE) ==> Neutralized(s) == [s[0]] + Neutralized(s[1..])
  {
    hide NAME;
  }

  lemma SpacedPlain(s: string)
    requires s != "" && !Starts(s, OPEN) && !Starts(s, CLOSE)
    ensures Spaced(s) == [s[0]] + Spaced(s[1..])
  {
    MarkerAt(s[0], s[1..]);
    assert s == [s[0]] + s[1..];
    hide Starts, Completes;
  }

  /** Neutralised text contains neither an opening nor a closing marker. */
  lemma NeutralizedHasNoMarker(s: string)
    ensures !HasMarker(Neutralized(s))
  {
    NeutralizedIsSpaced(s);
    SpacedHasNoMarker(s);
    hide *;
  }

  /** Text without markers passes unchanged. */
  lemma {:induction false} NeutralizedKeepsPlain(s: string)
    requires !HasMarker(s)
    ensures Neutralized(s) == s
  {
    hide Starts;
    if s != "" {
      NeutralizedKeepsPlain(s[1..]);
    }
  }

  /* ---- Markers and joined texts ---- */

  lemma {:induction false} StartsJoin(a: string, c: char, b: string, w: string)
    requires c !in w
    ensures Starts(a + [c] + b, w) <==> Starts(a, w)
  {
    var s := a + [c] + b;
    assert s[|a|] == c;
    if |w| <= |a| {
      assert s[..|w|] == a[..|w|];
    } else if |w| <= |s| {
      assert s[..|w|][|a|] == c;
    }
  }

  /** A separator between two texts: a marker lies on one side of it. */
  lemma {:induction false} JoinMarker(a: string, c: char, b: string)
    requires Separates(c)
    ensures HasMarker(a + [c] + b) <==> HasMarker(a) || HasMarker(b)
  {
    Markers();
    hide NAME, Starts;
    if a == "" {
      assert a + [c] + b == [c] + b;
      MarkerCons(c, b);
    } else {
      JoinMarker(a[1..], c, b);
      var t := a[1..] + [c] + b;
      assert a == [a[0]] + a[1..] && a + [c] + b == [a[0]] + t;
      StartsJoin(a[1..], c, b, NAME);
      StartsJoin(a[1..], c, b, "/" + NAME);
      MarkerCons(a[0], t);
      MarkerCons(a[0], a[1..]);
      hide HasMarker;
    }
  }

  lemma {:induction false} PlainHasNoMarker(s: string)
    requires '[' !in s
    ensures !HasMarker(s)
  {
    if s != "" {
      assert s == [s[0]] + s[1..] && s[0] in s && forall c :: c in s[1..] ==> c in s;
      PlainHasNoMarker(s[1..]);
      MarkerCons(s[0], s[1..]);
      hide HasMarker;
    }
  }

  lemma {:induction false} PlainPrefix(a: string, b: string)
    requires '[' !in a
    ensures HasMarker(a + b) <==> HasMarker(b)
  {
    if a == "" {
      assert a + b == b;
    } else {
      assert a + b == [a[0]] + (a[1..] + b) && a[0] in a && forall c :: c in a[1..] ==> c in a;
      PlainPrefix(a[1..], b);
      MarkerCons(a[0], a[1..] + b);
      hide HasMarker;
    }
  }

  /* ---- Quoting ---- */

  lemma QuotedRuneShape(r: char, isPrint: char -> bool)
    ensures var q := QuotedRune(r, isPrint);
      && q != "" && (q == [r] || (q[0] == '\\' && '[' !in q)) && (r != '\n' ==> '\n' !in q)
  {
    hide Hex;
    var c := r as int;
    assert '[' !in Hex(c, 2) && '[' !in Hex(c, 4) && '[' !in Hex(c, 8);
    assert '\n' !in Hex(c, 2) && '\n' !in Hex(c, 4) && '\n' !in Hex(c, 8);
  }

  lemma {:induction false} StartsQuoted(s: string, w: string, isPrint: char -> bool)
    requires '\\' !in w && Starts(QuotedRunes(s, isPrint), w)
    ensures Starts(s, w)
    decreases |w|
  {
    if w != "" && s != "" {
      var q, rest := QuotedRune(s[0], isPrint), QuotedRunes(s[1..], isPrint);
      QuotedRuneShape(s[0], isPrint);
      assert w[0] in w && forall c :: c in w[1..] ==> c in w;
      assert s == [s[0]] + s[1..] && (q + rest)[0] == q[0];
      hide QuotedRunes, QuotedRune;
      StartsCons(s[0], rest, w);
      StartsCons(s[0], s[1..], w);
      StartsQuoted(s[1..], w[1..], isPrint);
    }
  }

  lemma {:induction false} QuotedHasNoMarker(s: string, isPrint: char -> bool)
    requires !HasMarker(s)
    ensures !HasMarker(QuotedRunes(s, isPrint))
  {
    if s != "" {
      var q, rest := QuotedRune(s[0], isPrint), QuotedRunes(s[1..], isPrint);
      assert s == [s[0]] + s[1..];
      MarkerCons(s[0], s[1..]);
      QuotedHasNoMarker(s[1..], isPrint);
      QuotedRuneShape(s[0], isPrint);
      hide HasMarker, QuotedRune;
      if q == [s[0]] {
        MarkerCons(s[0], rest);
        CompletesQuoted(s[1..], isPrint);
      } else {
        PlainPrefix(q, rest);
      }
    }
  }

  lemma CompletesQuoted(s: string, isPrint: char -> bool)
    ensures Completes(QuotedRunes(s, isPrint)) ==> Completes(s)
  {
    Markers();
    hide NAME, Starts, QuotedRunes;
    if Starts(QuotedRunes(s, isPrint), NAME) {
      StartsQuoted(s, NAME, isPrint);
    } else if Starts(QuotedRunes(s, isPrint), "/" + NAME) {
      StartsQuoted(s, "/" + NAME, isPrint);
    }
  }

  lemma {:induction false} QuotedHasNoNewline(s: string, isPrint: char -> bool)
    requires '\n' !in s
    ensures '\n' !in QuotedRunes(s, isPrint)
  {
    if s != "" {
      assert s[0] in s && forall c :: c in s[1..] ==> c in s;
      QuotedHasNoNewline(s[1..], isPrint);
      QuotedRuneShape(s[0], isPrint);
      hide QuotedRune;
    }
  }

  lemma {:induction false} SpacedHasNoNewline(s: string)
    requires '\n' !in s
    ensures '\n' !in Spaced(s)
  {
    hide Completes;
    if s != "" {
      assert s[0] in s && forall c :: c in s[1..] ==> c in s;
      SpacedHasNoNewline(s[1..]);
    }
  }

  /** A metadata value contains neither a marker nor a newline. */
  lemma CleanMetaIsSafe(v: string)
    ensures !HasMarker(CleanMeta(v)) && '\n' !in CleanMeta(v)
  {
    var t := MetaRunes(Sanitized(v, META_LIMIT));
    hide Sanitized;
    assert '\n' !in t;
    NeutralizedHasNoMarker(t);
    NeutralizedIsSpaced(t);
    SpacedHasNoNewline(t);
    hide HasMarker, Neutralized, Spaced;
  }

  /* ---- Reading a frame ---- */

  /** The position of the first newline, the length when there is none. */
  function FirstNewline(s: string): (n: nat)
    ensures n <= |s|
  {
    if s == "" || s[0] == '\n' then 0 else 1 + FirstNewline(s[1..])
  }

  /** The position of the first closing marker, the length when there is none. */
  function FirstClose(s: string): (n: nat)
    ensures n <= |s|
  {
    if s == "" || Starts(s, CLOSE) then 0 else 1 + FirstClose(s[1..])
  }

  /** The body of a frame: from behind the first newline to before the newline that precedes the first
      closing marker. */
  function ReadBody(frame: string): string {
    var start := FirstNewline(frame);
    if start == |frame| then ""
    else
      var rest := frame[start + 1..];
      var end := FirstClose(rest);
      if end == 0 then "" else rest[..end - 1]
  }

  lemma {:induction false} NewlineAt(a: string, b: string)
    requires '\n' !in a
    ensures FirstNewline(a + "\n" + b) == |a|
  {
    if a == "" {
      assert a + "\n" + b == "\n" + b;
    } else {
      assert a[0] in a && forall c :: c in a[1..] ==> c in a;
      assert (a + "\n" + b)[1..] == a[1..] + "\n" + b;
      NewlineAt(a[1..], b);
    }
  }

  lemma {:induction false} CloseAt(a: string, c: char, b: string)
    requires !HasMarker(a) && Separates(c) && Starts(b, CLOSE)
    ensures FirstClose(a + [c] + b) == |a| + 1
  {
    Markers();
    hide NAME;
    if a == "" {
      assert a + [c] + b == [c] + b && ([c] + b)[1..] == b && b != "";
      StartsCons(c, b, CLOSE);
      hide Starts;
    } else {
      assert (a + [c] + b)[1..] == a[1..] + [c] + b && a + [c] + b != "";
      SeparatesClose(c);
      StartsJoin(a, c, b, CLOSE);
      hide Starts;
      CloseAt(a[1..], c, b);
    }
  }

  lemma SeparatesClose(c: char)
    requires Separates(c)
    ensures c !in CLOSE
  {
  }

  /** What the fixed words of a frame may consist of. */
  predicate PlainWord(s: string) {
    '[' !in s && '\n' !in s
  }

  ghost predicate PlainKeys(meta: seq<MetaEntry>) {
    forall k :: 0 <= k < |meta| ==> PlainWord(meta[k].key)
  }

  lemma EntryIsSafe(key: string, value: string, isPrint: char -> bool)
    requires PlainWord(key)
    ensures var e := key + "=" + Quoted(CleanMeta(value), isPrint); !HasMarker(e) && '\n' !in e
  {
    var v := CleanMeta(value);
    CleanMetaIsSafe(value);
    hide CleanMeta, HasMarker;
    QuotedHasNoMarker(v, isPrint);
    QuotedHasNoNewline(v, isPrint);
    var q := QuotedRunes(v, isPrint);
    hide QuotedRunes;
    PlainHasNoMarker("");
    JoinMarker(q, '\"', "");
    assert q + "\"" + "" == q + "\"";
    JoinMarker("", '\"', q + "\"");
    assert Quoted(v, isPrint) == "" + "\"" + (q + "\"");
    PlainHasNoMarker(key);
    JoinMarker(key, '=', Quoted(v, isPrint));
  }

  lemma {:induction false} MetaIsSafe(start: string, meta: seq<MetaEntry>, isPrint: char -> bool)
    requires PlainWord(start) && PlainKeys(meta)
    ensures var t := start + MetaText(meta, isPrint); !HasMarker(t) && '\n' !in t
  {
    if meta == [] {
      assert start + MetaText(meta, isPrint) == start;
      PlainHasNoMarker(start);
    } else {
      var k := |meta| - 1;
      MetaIsSafe(start, meta[..k], isPrint);
      EntryIsSafe(meta[k].key, meta[k].value, isPrint);
      var m, e := MetaText(meta[..k], isPrint), meta[k].key + "=" + Quoted(CleanMeta(meta[k].value), isPrint);
      MetaTextSnoc(meta, isPrint);
      hide *;
      assert start + (m + " " + e) == (start + m) + " " + e;
      BlankSeparates();
      JoinMarker(start + m, ' ', e);
    }
  }

  lemma BlankSeparates()
    ensures Separates(' ')
  {
  }

  lemma MetaTextSnoc(meta: seq<MetaEntry>, isPrint: char -> bool)
    requires meta != []
    ensures var k := |meta| - 1;
      MetaText(meta, isPrint) == MetaText(meta[..k], isPrint) + " " + (meta[k].key + "=" + Quoted(CleanMeta(meta[k].value), isPrint))
  {
    hide Quoted, CleanMeta;
    var k := |meta| - 1;
    var m, q := MetaText(meta[..k], isPrint), Quoted(CleanMeta(meta[k].value), isPrint);
    assert m + " " + meta[k].key + "=" + q == m + " " + (meta[k].key + "=" + q);
  }

  /** The head is the opening marker, then text without markers and newlines. */
  lemma HeadShape(kind: string, meta: seq<MetaEntry>, isPrint: char -> bool) returns (tail: string)
    requires PlainWord(kind) && PlainKeys(meta)
    ensures Head(kind, meta, isPrint) == OPEN + " " + tail && !HasMarker(tail) && '\n' !in tail
  {
    MetaIsSafe(kind, meta, isPrint);
    var t := kind + MetaText(meta, isPrint);
    tail := t + "]";
    PlainHasNoMarker("");
    JoinMarker(t, ']', "");
    hide *;
    assert t + "]" + "" == tail;
    HeadIs(kind, meta, isPrint);
  }

  lemma HeadIs(kind: string, meta: seq<MetaEntry>, isPrint: char -> bool)
    ensures Head(kind, meta, isPrint) == OPEN + " " + (kind + MetaText(meta, isPrint) + "]")
  {
    hide NAME, MetaText;
    var m := MetaText(meta, isPrint);
    assert OPEN + " " + kind + m + "]" == OPEN + " " + (kind + m + "]");
  }

  lemma FrameIs(kind: string, head: string, body: string)
    ensures Framed(kind, head, body) == head + "\n" + (body + "\n" + (CLOSE + (" " + kind + "]")))
  {
    hide NAME;
    var end := CLOSE + (" " + kind + "]");
    assert CLOSE + " " + kind + "]" == end;
    assert head + "\n" + body + "\n" + CLOSE + " " + kind + "]" == head + "\n" + body + "\n" + (CLOSE + " " + kind + "]");
    assert head + "\n" + body + "\n" + end == head + "\n" + (body + "\n" + end);
  }

  lemma EndStarts(kind: string)
    ensures Starts(CLOSE + (" " + kind + "]"), CLOSE)
  {
    hide NAME;
  }

  /** Whatever the text and the metadata contain: the body can be read back from the frame. */
  lemma FrameReadsBack(kind: string, meta: seq<MetaEntry>, text: string, maxRunes: int, isPrint: char -> bool)
    requires PlainWord(kind) && PlainKeys(meta)
    ensures ReadBody(Framed(kind, Head(kind, meta, isPrint), Body(text, maxRunes))) == Body(text, maxRunes)
  {
    var head, body := Head(kind, meta, isPrint), Body(text, maxRunes);
    NeutralizedHasNoMarker(Sanitized(text, maxRunes));
    assert !HasMarker(body);
    var tail := HeadShape(kind, meta, isPrint);
    Markers();
    assert '\n' !in OPEN + " ";
    hide Head, Body, HasMarker, NAME, Starts, Framed, FirstNewline, FirstClose;
    var end := CLOSE + (" " + kind + "]");
    FrameIs(kind, head, body);
    EndStarts(kind);
    var rest := body + "\n" + end;
    NewlineAt(head, rest);
    CloseAt(body, '\n', end);
    assert (head + "\n" + rest)[|head| + 1..] == rest;
    assert rest[..|body|] == body;
  }

  /** The first closing marker of a frame is its own, behind the body; and between the opening marker
      at the start and that position no marker begins. */
  lemma FrameMarkers(kind: string, meta: seq<MetaEntry>, text: string, maxRunes: int, isPrint: char -> bool)
    requires PlainWord(kind) && PlainKeys(meta)
    ensures var head, body := Head(kind, meta, isPrint), Body(text, maxRunes);
      var frame := Framed(kind, head, body);
      && Starts(frame, OPEN)
      && FirstClose(frame) == |head| + 1 + |body| + 1 <= |frame|
      && !HasMarker(frame[1..|head| + 1 + |body|])
  {
    var head, body := Head(kind, meta, isPrint), Body(text, maxRunes);
    NeutralizedHasNoMarker(Sanitized(text, maxRunes));
    var tail := HeadShape(kind, meta, isPrint);
    hide Head, Body, Framed, HasMarker;
    FrameIs(kind, head, body);
    EndStarts(kind);
    BodyBehindHead(tail, body);
    FrameScan(head, tail, body, CLOSE + (" " + kind + "]"));
  }

  /** The text between the opening bracket and the closing line. */
  function Between(tail: string, body: string): string {
    NAME + " " + tail + "\n" + body
  }

  lemma BodyBehindHead(tail: string, body: string)
    requires !HasMarker(tail) && !HasMarker(body)
    ensures !HasMarker(Between(tail, body))
  {
    Markers();
    hide NAME;
    PlainHasNoMarker(NAME);
    JoinMarker(NAME, ' ', tail);
    JoinMarker(NAME + " " + tail, '\n', body);
    hide HasMarker;
  }

  lemma FrameScan(head: string, tail: string, body: string, end: string)
    requires head == OPEN + " " + tail && !HasMarker(Between(tail, body)) && Starts(end, CLOSE)
    ensures var frame := head + "\n" + (body + "\n" + end);
      && Starts(frame, OPEN)
      && FirstClose(frame) == |head| + 1 + |body| + 1 <= |frame|
      && frame[1..|head| + 1 + |body|] == Between(tail, body)
  {
    Markers();
    var between := Between(tail, body);
    var frame := head + "\n" + (body + "\n" + end);
    var rest := between + "\n" + end;
    hide NAME, HasMarker;
    FrameSplit(head, tail, body, end);
    OpenIsNotClose(rest, frame);
    CloseAt(between, '\n', end);
    hide Starts, Between;
    assert frame[1..] == rest;
  }

  lemma FrameSplit(head: string, tail: string, body: string, end: string)
    requires head == OPEN + " " + tail
    ensures var frame := head + "\n" + (body + "\n" + end);
      && frame == "[" + (Between(tail, body) + "\n" + end) && |Between(tail, body)| == |head| + |body|
      && Starts(frame, OPEN) && frame[1..|head| + 1 + |body|] == Between(tail, body)
  {
    hide NAME;
    var frame := head + "\n" + (body + "\n" + end);
    var between := Between(tail, body);
    assert "[" + NAME + " " + tail + "\n" + (body + "\n" + end) == "[" + (NAME + " " + tail + "\n" + body + "\n" + end);
    assert frame[..|OPEN|] == OPEN;
    assert ("[" + (between + "\n" + end))[1..|between| + 1] == between;
  }

  lemma OpenIsNotClose(rest: string, frame: string)
    requires frame == "[" + rest && Starts(frame, OPEN)
    ensures !Starts(frame, CLOSE)
  {
    assert OPEN[1] == 'U' && CLOSE[1] == '/';
    assert frame[..|OPEN|][1] == frame[1];
    assert |CLOSE| <= |frame| ==> frame[..|CLOSE|][1] == frame[1];
  }
}
