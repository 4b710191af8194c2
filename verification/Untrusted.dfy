/** Framing of text from outside: cleaning, neutralising the frame's own markers, and the frame.

    In this module a string is a sequence of runes, one character per Unicode code point. */
module Untrusted {
  import LedgerKey

  const NAME := "UNTRUSTED"
  const OPEN := "[" + NAME
  const CLOSE := "[/" + NAME
  const META_LIMIT: int := 200

  /* ---- Runes ---- */

  predicate HiddenRune(r: char) {
    var c := r as int;
    0x200B <= c <= 0x200F || 0x202A <= c <= 0x202E || 0x2060 <= c <= 0x2064 || 0x2066 <= c <= 0x2069 || c == 0xFEFF || c == 0x00AD
  }

  /** `unicode.IsControl`. */
  predicate IsControl(r: char) {
    r as int <= 0x1F || 0x7F <= r as int <= 0x9F
  }

  /** `unicode.IsSpace`. */
  predicate IsSpace(r: char) {
    var c := r as int;
    || 0x09 <= c <= 0x0D || c == 0x20 || c == 0x85 || c == 0xA0 || c == 0x1680 || 0x2000 <= c <= 0x200A
    || c == 0x2028 || c == 0x2029 || c == 0x202F || c == 0x205F || c == 0x3000
  }

  predicate Visible(r: char) {
    r == '\n' || r == '\t' || (r != '\r' && !HiddenRune(r) && !IsControl(r))
  }

  /* ---- Cleaning ---- */

  function Filter(s: string): string {
    if s == "" then ""
    else
      var k := |s| - 1;
      if Visible(s[k]) then Filter(s[..k]) + [s[k]] else Filter(s[..k])
  }

  predicate StartsTriple(s: string) {
    |s| >= 3 && s[0] == '\n' && s[1] == '\n' && s[2] == '\n'
  }

  predicate HasTriple(s: string) {
    s != "" && (StartsTriple(s) || HasTriple(s[1..]))
  }

  /** `strings.ReplaceAll` of three newlines by two: left to right, without overlap. */
  function ReplaceTriples(s: string): (r: string)
    ensures |r| <= |s|
    ensures HasTriple(s) ==> |r| < |s|
  {
    if s == "" then ""
    else if StartsTriple(s) then "\n\n" + ReplaceTriples(s[3..])
    else [s[0]] + ReplaceTriples(s[1..])
  }

  /** Runs of newlines cut to two, when `k` newlines stand before. */
  function Capped(s: string, k: nat): string {
    if s == "" then ""
    else if s[0] != '\n' then [s[0]] + Capped(s[1..], 0)
    else if k < 2 then "\n" + Capped(s[1..], k + 1)
    else Capped(s[1..], k)
  }

  function TrimLeft(s: string): string {
    if s != "" && IsSpace(s[0]) then TrimLeft(s[1..]) else s
  }

  function TrimRight(s: string): string {
    if s != "" && IsSpace(s[|s| - 1]) then TrimRight(s[..|s| - 1]) else s
  }

  function Trim(s: string): string {
    TrimRight(TrimLeft(s))
  }

  /** The cleaned text before a limit is applied. */
  function Cleaned(s: string): string {
    Trim(Capped(Filter(s), 0))
  }

  function CutNote(n: nat): string {
    "\n[truncated " + LedgerKey.Decimal(n) + " characters]"
  }

  /** The text with the limit applied; no limit when it is not positive. */
  function Limited(s: string, maxRunes: int): string {
    if 0 < maxRunes < |s| then s[..maxRunes] + CutNote(|s| - maxRunes) else s
  }

  function Sanitized(s: string, maxRunes: int): string {
    Limited(Cleaned(s), maxRunes)
  }

  lemma {:induction false} CappedReplaced(s: string, k: nat)
    requires k <= 2
    ensures Capped(ReplaceTriples(s), k) == Capped(s, k)
  {
    if s != "" {
      if StartsTriple(s) {
        CappedReplaced(s[3..], 2);
        CappedThree(s, k);
        CappedTwo(ReplaceTriples(s[3..]), k);
      } else if s[0] == '\n' {
        CappedReplaced(s[1..], if k < 2 then k + 1 else 2);
      } else {
        CappedReplaced(s[1..], 0);
      }
    }
  }

  lemma CappedNewline(s: string, k: nat)
    requires s != "" && s[0] == '\n' && k <= 2
    ensures Capped(s, k) == if k < 2 then "\n" + Capped(s[1..], k + 1) else Capped(s[1..], 2)
  {
  }

  lemma CappedThree(s: string, k: nat)
    requires StartsTriple(s) && k <= 2
    ensures Capped(s, k) == (if k == 0 then "\n\n" else if k == 1 then "\n" else "") + Capped(s[3..], 2)
  {
    hide Capped;
    assert s[1..][1..] == s[2..] && s[2..][1..] == s[3..];
    CappedNewline(s, k);
    CappedNewline(s[1..], if k < 2 then k + 1 else 2);
    CappedNewline(s[2..], if k < 1 then k + 2 else 2);
  }

  lemma CappedTwo(s: string, k: nat)
    requires k <= 2
    ensures Capped("\n\n" + s, k) == (if k == 0 then "\n\n" else if k == 1 then "\n" else "") + Capped(s, 2)
  {
    assert ("\n\n" + s)[1..] == "\n" + s && ("\n" + s)[1..] == s;
  }

  lemma {:induction false} CappedIsSame(s: string, k: nat)
    requires !HasTriple(s)
    requires k == 0 || (k == 1 && !(|s| >= 2 && s[0] == '\n' && s[1] == '\n')) || (k == 2 && !(s != "" && s[0] == '\n'))
    ensures Capped(s, k) == s
  {
    if s != "" {
      CappedIsSame(s[1..], if s[0] == '\n' then k + 1 else 0);
    }
  }

  method SanitizeText(s: string, maxRunes: int) returns (out: string)
    ensures out == Sanitized(s, maxRunes)
  {
    hide Visible, Trim, CutNote, Capped, HasTriple, ReplaceTriples;
    out := "";
    for i := 0 to |s|
      invariant out == Filter(s[..i])
    {
      assert s[..i + 1][..i] == s[..i];
      if Visible(s[i]) {
        out := out + [s[i]];
      }
    }
    assert s[..|s|] == s;
    while HasTriple(out)
      invariant Capped(out, 0) == Capped(Filter(s), 0)
      decreases |out|
    {
      CappedReplaced(out, 0);
      out := ReplaceTriples(out);
    }
    CappedIsSame(out, 0);
    out := Trim(out);
    if maxRunes > 0 && |out| > maxRunes {
      out := out[..maxRunes] + CutNote(|out| - maxRunes);
    }
  }

  /* ---- Markers ---- */

  predicate Starts(s: string, w: string) {
    |w| <= |s| && s[..|w|] == w
  }

  predicate StartsMarker(s: string) {
    Starts(s, OPEN) || Starts(s, CLOSE)
  }

  predicate HasMarker(s: string) {
    s != "" && (StartsMarker(s) || HasMarker(s[1..]))
  }

  /** The replacer: left to right, without overlap. */
  function Neutralized(s: string): string {
    if s == "" then ""
    else if Starts(s, OPEN) then "[ " + NAME + Neutralized(s[|OPEN|..])
    else if Starts(s, CLOSE) then "[ /" + NAME + Neutralized(s[|CLOSE|..])
    else [s[0]] + Neutralized(s[1..])
  }

  /* ---- Metadata ---- */

  function MetaRune(r: char): char {
    if r == '\"' then '\'' else if r == '\n' || r == '\t' then ' ' else r
  }

  function MetaRunes(s: string): (t: string)
    ensures |t| == |s| && forall i :: 0 <= i < |s| ==> t[i] == MetaRune(s[i])
  {
    seq(|s|, i requires 0 <= i < |s| => MetaRune(s[i]))
  }

  function CleanMeta(v: string): string {
    Neutralized(MetaRunes(Sanitized(v, META_LIMIT)))
  }

  function HexDigit(n: nat): (c: char)
    requires n < 16
    ensures '0' <= c <= '9' || 'a' <= c <= 'f'
  {
    if n < 10 then ('0' as int + n) as char else ('a' as int + n - 10) as char
  }

  /** The last `width` hexadecimal digits of `n`. */
  function Hex(n: nat, width: nat): (s: string)
    ensures |s| == width && forall i :: 0 <= i < |s| ==> '0' <= s[i] <= '9' || 'a' <= s[i] <= 'f'
  {
    if width == 0 then "" else Hex(n / 16, width - 1) + [HexDigit(n % 16)]
  }

  /** One rune inside a quoted string; `isPrint` is `strconv.IsPrint`. */
  function QuotedRune(r: char, isPrint: char -> bool): string {
    var c := r as int;
    if r == '\"' || r == '\\' then ['\\', r]
    else if isPrint(r) then [r]
    else if c == 7 then "\\a"
    else if c == 8 then "\\b"
    else if c == 12 then "\\f"
    else if c == 10 then "\\n"
    else if c == 13 then "\\r"
    else if c == 9 then "\\t"
    else if c == 11 then "\\v"
    else if c < 0x20 || c == 0x7F then "\\x" + Hex(c, 2)
    else if c < 0x10000 then "\\u" + Hex(c, 4)
    else "\\U" + Hex(c, 8)
  }

  function QuotedRunes(s: string, isPrint: char -> bool): string {
    if s == "" then "" else QuotedRune(s[0], isPrint) + QuotedRunes(s[1..], isPrint)
  }

  /** `%q`. */
  function Quoted(s: string, isPrint: char -> bool): string {
    "\"" + QuotedRunes(s, isPrint) + "\""
  }

  /* ---- The frame ---- */

  datatype MetaEntry = MetaEntry(key: string, value: string)

  function MetaText(meta: seq<MetaEntry>, isPrint: char -> bool): string {
    if meta == [] then ""
    else
      var k := |meta| - 1;
      MetaText(meta[..k], isPrint) + " " + meta[k].key + "=" + Quoted(CleanMeta(meta[k].value), isPrint)
  }

  function Head(kind: string, meta: seq<MetaEntry>, isPrint: char -> bool): string {
    OPEN + " " + kind + MetaText(meta, isPrint) + "]"
  }

  function Body(text: string, maxRunes: int): string {
    Neutralized(Sanitized(text, maxRunes))
  }

  /** The frame around a body. */
  function Framed(kind: string, head: string, body: string): string {
    head + "\n" + body + "\n" + CLOSE + " " + kind + "]"
  }

  /** Frames a text; `meta` holds the metadata in the order of its keys. */
  method WrapUntrusted(kind: string, meta: seq<MetaEntry>, text: string, maxRunes: int, isPrint: char -> bool)
      returns (out: string)
    ensures out == Framed(kind, Head(kind, meta, isPrint), Body(text, maxRunes))
  {
    hide Neutralized, Sanitized, CleanMeta, Quoted;
    var head := OPEN + " " + kind;
    ghost var start := head;
    for k := 0 to |meta|
      invariant head == start + MetaText(meta[..k], isPrint)
    {
      assert meta[..k + 1][..k] == meta[..k];
      var before := MetaText(meta[..k], isPrint);
      assert start + (before + " " + meta[k].key + "=" + Quoted(CleanMeta(meta[k].value), isPrint)) ==
        (start + before) + " " + meta[k].key + "=" + Quoted(CleanMeta(meta[k].value), isPrint);
      head := head + " " + meta[k].key + "=" + Quoted(CleanMeta(meta[k].value), isPrint);
    }
    assert meta[..|meta|] == meta;
    head := head + "]";
    var clean := SanitizeText(text, maxRunes);
    out := head + "\n" + Neutralized(clean) + "\n" + CLOSE + " " + kind + "]";
  }
}
