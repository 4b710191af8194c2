/** What cleaning takes away, and metadata that can be read back. */
module UntrustedExact {
  import opened Picking
  import LedgerKey
  import opened Untrusted
  import opened UntrustedLaws

  /* ---- Filtering ---- */

  /** Exactly the visible runes are kept, in order. */
  lemma {:induction false} FilterExactly(s: string) returns (ps: seq<nat>)
    ensures Picks(s, ps, Filter(s))
    ensures forall i: nat :: i < |s| ==> (i in ps <==> Visible(s[i]))
  {
    ps := [];
    PicksNothing(s);
    if s != "" {
      var k := |s| - 1;
      ps := FilterExactly(s[..k]);
      assert s == s[..k] + [s[k]];
      PicksSnoc(s[..k], s[k], ps, Filter(s[..k]), s);
      hide Picks, Visible;
      if Visible(s[k]) {
        ps := ps + [k];
      }
    }
  }

  /* ---- Newlines ---- */

  function Newlines(n: nat): (s: string)
    ensures |s| == n
  {
    if n == 0 then "" else "\n" + Newlines(n - 1)
  }

  lemma CappedOther(s: string, k: nat)
    requires s != "" && s[0] != '\n'
    ensures Capped(s, k) == [s[0]] + Capped(s[1..], 0)
  {
  }

  lemma NewlinesStep(n: nat)
    ensures Newlines(0) == "" && Newlines(n + 1) == "\n" + Newlines(n)
  {
  }

  lemma NewlinesFirst(n: nat, b: string)
    requires n > 0
    ensures var s := Newlines(n) + b; s != "" && s[0] == '\n' && s[1..] == Newlines(n - 1) + b
  {
  }

  lemma NoNewlines(b: string, k: nat)
    requires k <= 2 && (b == "" || b[0] != '\n')
    ensures Capped(Newlines(0) + b, k) == Newlines(0) + Capped(b, 0) && Newlines(0) + Capped(b, 0) == Capped(b, 0)
  {
    assert Newlines(0) + b == b;
    if b != "" {
      CappedOther(b, k);
      CappedOther(b, 0);
    }
  }

  lemma Regroup(x: string, a: string, b: string, c: string)
    ensures x + (a + b) == x + a + b && x + (a + b + c) == (x + a) + b + c
  {
  }

  lemma {:induction false} CappedNewlines(n: nat, b: string, k: nat)
    requires k <= 2 && (b == "" || b[0] != '\n')
    ensures Capped(Newlines(n) + b, k) == Newlines(if k + n <= 2 then n else 2 - k) + Capped(b, 0)
  {
    hide *;
    if n == 0 {
      NoNewlines(b, k);
    } else {
      var s := Newlines(n) + b;
      NewlinesFirst(n, b);
      CappedNewlines(n - 1, b, if k < 2 then k + 1 else 2);
      CappedNewline(s, k);
      if k < 2 {
        var m := if k + n <= 2 then n else 2 - k;
        NewlinesStep(m - 1);
        Regroup("\n", Newlines(m - 1), Capped(b, 0), "");
      }
    }
  }

  /** A run of newlines becomes at most two, and what stands around it is capped on its own. */
  lemma {:induction false} CappedRun(a: string, n: nat, b: string, k: nat)
    requires k <= 2 && (b == "" || b[0] != '\n')
    requires if a == "" then k == 0 else a[|a| - 1] != '\n'
    ensures Capped(a + Newlines(n) + b, k) == Capped(a, k) + Newlines(if n <= 2 then n else 2) + Capped(b, 0)
  {
    var s, m := a + Newlines(n) + b, if n <= 2 then n else 2;
    if a == "" {
      CappedNewlines(n, b, 0);
      assert Capped(a, k) == "" && s == Newlines(n) + b;
    } else {
      assert s[0] == a[0] && s[1..] == a[1..] + Newlines(n) + b;
      hide *;
      if a[0] == '\n' {
        CappedNewline(s, k);
        CappedNewline(a, k);
        CappedRun(a[1..], n, b, if k < 2 then k + 1 else 2);
        Regroup("\n", Capped(a[1..], if k < 2 then k + 1 else 2), Newlines(m), Capped(b, 0));
      } else {
        CappedOther(s, k);
        CappedOther(a, k);
        CappedRun(a[1..], n, b, 0);
        Regroup([a[0]], Capped(a[1..], 0), Newlines(m), Capped(b, 0));
      }
    }
  }

  lemma {:induction false} CappedPlain(s: string, k: nat)
    requires '\n' !in s
    ensures Capped(s, k) == s
  {
    if s != "" {
      assert s[0] in s && forall c :: c in s[1..] ==> c in s;
      CappedPlain(s[1..], 0);
    }
  }

  /* ---- Trimming ---- */

  ghost predicate AllSpace(s: string) {
    forall i :: 0 <= i < |s| ==> IsSpace(s[i])
  }

  lemma {:induction false} TrimLeftCuts(s: string) returns (a: nat)
    ensures a <= |s| && TrimLeft(s) == s[a..] && AllSpace(s[..a])
  {
    a := 0;
    hide IsSpace;
    if s != "" && IsSpace(s[0]) {
      var k := TrimLeftCuts(s[1..]);
      a := k + 1;
      assert s[..a] == [s[0]] + s[1..][..k] && s[a..] == s[1..][k..];
    }
  }

  lemma {:induction false} TrimRightCuts(s: string) returns (b: nat)
    ensures b <= |s| && TrimRight(s) == s[..b] && AllSpace(s[b..])
  {
    b := |s|;
    hide IsSpace;
    if s != "" && IsSpace(s[|s| - 1]) {
      var t := s[..|s| - 1];
      b := TrimRightCuts(t);
      assert s[b..] == t[b..] + [s[|s| - 1]] && s[..b] == t[..b];
    }
  }

  /** Trimming cuts off white space at both ends; with no white space left there, nothing else can have been cut. */
  lemma TrimCuts(s: string) returns (a: nat, b: nat)
    ensures a <= b <= |s| && Trim(s) == s[a..b] && AllSpace(s[..a]) && AllSpace(s[b..])
  {
    a := TrimLeftCuts(s);
    b := TrimRightCuts(s[a..]);
    b := a + b;
    hide TrimLeft, TrimRight, AllSpace;
    assert s[a..][b - a..] == s[b..] && s[a..][..b - a] == s[a..b];
  }

  /* ---- Reading a quoted string ---- */

  function DigitValue(c: char): (n: nat)
    ensures n < 16
  {
    if '0' <= c <= '9' then c as int - '0' as int
    else if 'a' <= c <= 'f' then c as int - 'a' as int + 10
    else 0
  }

  function HexValue(s: string): nat {
    if s == "" then 0 else HexValue(s[..|s| - 1]) * 16 + DigitValue(s[|s| - 1])
  }

  function Power16(w: nat): (p: nat)
    ensures p > 0
  {
    if w == 0 then 1 else 16 * Power16(w - 1)
  }

  lemma HexValueSnoc(s: string, d: char)
    ensures HexValue(s + [d]) == HexValue(s) * 16 + DigitValue(d)
  {
    hide DigitValue;
    assert (s + [d])[..|s|] == s;
  }

  lemma {:induction false} HexReads(n: nat, w: nat)
    requires n < Power16(w)
    ensures HexValue(Hex(n, w)) == n
  {
    if w > 0 {
      var d, high := HexDigit(n % 16), Hex(n / 16, w - 1);
      assert DigitValue(d) == n % 16;
      assert n / 16 < Power16(w - 1);
      assert Hex(n, w) == high + [d];
      hide HexDigit, DigitValue, Hex, Power16;
      HexReads(n / 16, w - 1);
      HexValueSnoc(high, d);
    }
  }

  function RuneOf(n: nat): char {
    if n < 0xD800 || 0xE000 <= n < 0x11_0000 then n as char else '?'
  }

  datatype ReadRune = ReadRune(rune: char, length: nat)

  /** The first rune of quoted text, and how much of the text stands for it. */
  function FirstRune(t: string): (r: ReadRune)
    requires t != ""
    ensures 0 < r.length <= |t|
  {
    if t[0] != '\\' || |t| < 2 then ReadRune(t[0], 1)
    else if t[1] == 'a' then ReadRune(7 as char, 2)
    else if t[1] == 'b' then ReadRune(8 as char, 2)
    else if t[1] == 'f' then ReadRune(12 as char, 2)
    else if t[1] == 'n' then ReadRune(10 as char, 2)
    else if t[1] == 'r' then ReadRune(13 as char, 2)
    else if t[1] == 't' then ReadRune(9 as char, 2)
    else if t[1] == 'v' then ReadRune(11 as char, 2)
    else if t[1] == 'x' && |t| >= 4 then ReadRune(RuneOf(HexValue(t[2..4])), 4)
    else if t[1] == 'u' && |t| >= 6 then ReadRune(RuneOf(HexValue(t[2..6])), 6)
    else if t[1] == 'U' && |t| >= 10 then ReadRune(RuneOf(HexValue(t[2..10])), 10)
    else ReadRune(t[1], 2)
  }

  datatype ReadString = ReadString(value: string, rest: string)

  /** The content up to the closing quote, and the text behind the quote. */
  function ReadQuoted(t: string): (r: ReadString)
    ensures |r.rest| <= |t|
    decreases |t|
  {
    if t == "" then ReadString("", "")
    else if t[0] == '\"' then ReadString("", t[1..])
    else
      var first := FirstRune(t);
      var tail := ReadQuoted(t[first.length..]);
      ReadString([first.rune] + tail.value, tail.rest)
  }

  lemma HexRune(r: char, letter: char, w: nat, rest: string)
    requires || (letter == 'x' && w == 2 && r as int < 256)
             || (letter == 'u' && w == 4 && r as int < 0x10000)
             || (letter == 'U' && w == 8)
    ensures FirstRune(['\\', letter] + Hex(r as int, w) + rest) == ReadRune(r, 2 + w)
  {
    var c := r as int;
    assert Power16(2) == 256 && Power16(4) == 0x10000 && Power16(8) == 0x1_0000_0000;
    HexReads(c, w);
    hide Hex, HexValue, Power16, FirstRune;
    var h := Hex(c, w);
    var t := ['\\', letter] + h + rest;
    assert t[2..2 + w] == h && t[0] == '\\' && t[1] == letter && |t| >= 2 + w;
    assert RuneOf(c) == r;
    HexFirst(t, w);
  }

  lemma HexFirst(t: string, w: nat)
    requires |t| >= 2 + w && t[0] == '\\'
    requires (t[1] == 'x' && w == 2) || (t[1] == 'u' && w == 4) || (t[1] == 'U' && w == 8)
    ensures FirstRune(t) == ReadRune(RuneOf(HexValue(t[2..2 + w])), 2 + w)
  {
    hide HexValue, RuneOf;
  }

  lemma QuotedRuneReads(r: char, rest: string, isPrint: char -> bool)
    ensures var q := QuotedRune(r, isPrint);
      && q != "" && q[0] != '\"' && FirstRune(q + rest) == ReadRune(r, |q|)
  {
    var c := r as int;
    hide Hex, HexValue;
    if r != '\"' && r != '\\' && !isPrint(r) && !(7 <= c <= 13) {
      if c < 0x20 || c == 0x7F {
        HexRune(r, 'x', 2, rest);
      } else if c < 0x10000 {
        HexRune(r, 'u', 4, rest);
      } else {
        HexRune(r, 'U', 8, rest);
      }
    }
  }

  /** A quoted string reads back, whatever stands behind it. */
  lemma {:induction false} QuotedReadsBack(s: string, rest: string, isPrint: char -> bool)
    ensures ReadQuoted(QuotedRunes(s, isPrint) + "\"" + rest) == ReadString(s, rest)
  {
    if s == "" {
      assert QuotedRunes(s, isPrint) + "\"" + rest == "\"" + rest;
      assert ("\"" + rest)[1..] == rest;
    } else {
      var q, qs := QuotedRune(s[0], isPrint), QuotedRunes(s[1..], isPrint);
      var tail := qs + "\"" + rest;
      assert QuotedRunes(s, isPrint) + "\"" + rest == q + tail;
      QuotedReadsBack(s[1..], rest, isPrint);
      QuotedRuneReads(s[0], tail, isPrint);
      hide QuotedRune, QuotedRunes, FirstRune;
      assert (q + tail)[|q|..] == tail && (q + tail)[0] == q[0];
      assert s == [s[0]] + s[1..];
    }
  }

  /* ---- Reading the metadata ---- */

  /** The position of the first equals sign, the length when there is none. */
  function FirstEquals(s: string): (n: nat)
    ensures n <= |s|
  {
    if s == "" || s[0] == '=' then 0 else 1 + FirstEquals(s[1..])
  }

  /** The entries of a head: each behind a blank, the key up to the equals sign, then the quoted value. */
  function ReadMeta(t: string): (entries: seq<MetaEntry>)
    decreases |t|
  {
    if t == "" || t[0] != ' ' then []
    else
      var eq := FirstEquals(t);
      if eq == 0 || eq + 1 >= |t| then []
      else
        var value := ReadQuoted(t[eq + 2..]);
        [MetaEntry(t[1..eq], value.value)] + ReadMeta(value.rest)
  }

  lemma {:induction false} EqualsAt(a: string, b: string)
    requires '=' !in a
    ensures FirstEquals(a + "=" + b) == |a|
  {
    if a == "" {
      assert a + "=" + b == "=" + b;
    } else {
      assert a[0] in a && forall c :: c in a[1..] ==> c in a;
      assert (a + "=" + b)[1..] == a[1..] + "=" + b;
      EqualsAt(a[1..], b);
    }
  }

  /** An entry with its value written out. */
  function EntryText(e: MetaEntry, isPrint: char -> bool): string {
    " " + e.key + "=" + Quoted(e.value, isPrint)
  }

  lemma EntryReads(e: MetaEntry, rest: string, isPrint: char -> bool)
    requires '=' !in e.key
    ensures ReadMeta(EntryText(e, isPrint) + rest) == [e] + ReadMeta(rest)
  {
    var q := QuotedRunes(e.value, isPrint);
    QuotedReadsBack(e.value, rest, isPrint);
    hide QuotedRunes, ReadQuoted, FirstEquals;
    var a, b := " " + e.key, "\"" + (q + "\"" + rest);
    var t := EntryText(e, isPrint) + rest;
    assert t == a + "=" + b;
    EqualsAt(a, b);
    assert t[0] == ' ' && t[1..|a|] == e.key && t[|a| + 2..] == q + "\"" + rest;
  }

  /** The entries as the frame carries them. */
  function Carried(meta: seq<MetaEntry>): (out: seq<MetaEntry>)
    ensures |out| == |meta|
    ensures forall k :: 0 <= k < |meta| ==> out[k] == MetaEntry(meta[k].key, CleanMeta(meta[k].value))
  {
    seq(|meta|, k requires 0 <= k < |meta| => MetaEntry(meta[k].key, CleanMeta(meta[k].value)))
  }

  lemma {:induction false} MetaTextReads(meta: seq<MetaEntry>, rest: string, isPrint: char -> bool)
    requires forall k :: 0 <= k < |meta| ==> '=' !in meta[k].key
    ensures ReadMeta(MetaText(meta, isPrint) + rest) == Carried(meta) + ReadMeta(rest)
  {
    hide *;
    if meta == [] {
      NoEntries(rest, isPrint);
    } else {
      var k := |meta| - 1;
      var e := MetaEntry(meta[k].key, CleanMeta(meta[k].value));
      MetaTextLast(meta, e, rest, isPrint);
      EntryReads(e, rest, isPrint);
      MetaTextReads(meta[..k], EntryText(e, isPrint) + rest, isPrint);
      CarriedLast(meta, e, ReadMeta(rest));
    }
  }

  lemma NoEntries(rest: string, isPrint: char -> bool)
    ensures MetaText([], isPrint) + rest == rest && Carried([]) + ReadMeta(rest) == ReadMeta(rest)
  {
    hide ReadMeta;
  }

  lemma MetaTextLast(meta: seq<MetaEntry>, e: MetaEntry, rest: string, isPrint: char -> bool)
    requires meta != [] && e == MetaEntry(meta[|meta| - 1].key, CleanMeta(meta[|meta| - 1].value))
    ensures MetaText(meta, isPrint) + rest == MetaText(meta[..|meta| - 1], isPrint) + (EntryText(e, isPrint) + rest)
  {
    MetaTextSnoc(meta, isPrint);
    hide MetaText, Quoted, CleanMeta;
    LastEntry(MetaText(meta[..|meta| - 1], isPrint), e.key, Quoted(e.value, isPrint), rest);
  }

  lemma CarriedLast(meta: seq<MetaEntry>, e: MetaEntry, rest: seq<MetaEntry>)
    requires meta != [] && e == MetaEntry(meta[|meta| - 1].key, CleanMeta(meta[|meta| - 1].value))
    ensures Carried(meta) + rest == Carried(meta[..|meta| - 1]) + ([e] + rest)
  {
    hide CleanMeta;
  }

  lemma LastEntry(before: string, key: string, quoted: string, rest: string)
    ensures before + " " + (key + "=" + quoted) + rest == before + (" " + key + "=" + quoted + rest)
  {
  }

  /** Whatever the values contain: the metadata can be read back from the head of a frame, key by key, with the values
      as they were cleaned. */
  lemma MetadataReadsBack(kind: string, meta: seq<MetaEntry>, isPrint: char -> bool)
    requires forall k :: 0 <= k < |meta| ==> '=' !in meta[k].key
    ensures var head, start := Head(kind, meta, isPrint), OPEN + " " + kind;
      start <= head && ReadMeta(head[|start|..]) == Carried(meta)
  {
    HeadIs(kind, meta, isPrint);
    MetaTextReads(meta, "]", isPrint);
    EndReads();
    hide *;
    var start, m := OPEN + " " + kind, MetaText(meta, isPrint) + "]";
    Joined(OPEN + " ", kind, MetaText(meta, isPrint));
    assert (start + m)[|start|..] == m;
    assert Carried(meta) + [] == Carried(meta);
  }

  lemma Joined(a: string, kind: string, m: string)
    ensures a + (kind + m + "]") == (a + kind) + (m + "]")
  {
  }

  lemma EndReads()
    ensures ReadMeta("]") == []
  {
  }

  /** A value that needs no cleaning is carried as it is. */
  lemma CleanValueKept(v: string)
    requires AllVisible(v) && Tight(v) && |v| <= 200
    requires !HasMarker(v) && '\"' !in v && '\n' !in v && '\t' !in v
    ensures CleanMeta(v) == v
  {
    PlainHasNoTriple(v);
    CleanIsCleaned(v);
    hide Cleaned, HasTriple, Neutralized, HasMarker, AllVisible, Tight;
    assert Sanitized(v, META_LIMIT) == v;
    assert forall i :: 0 <= i < |v| ==> v[i] in v;
    assert MetaRunes(v) == v;
    NeutralizedKeepsPlain(v);
  }

  /* ---- The limit ---- */

  /** A text that is cut keeps its first runes, and the note behind them says how many were cut off. */
  lemma CutSays(s: string, maxRunes: int) returns (digits: string)
    requires 0 < maxRunes < |Cleaned(s)|
    ensures Sanitized(s, maxRunes) == Cleaned(s)[..maxRunes] + ("\n[truncated " + digits + " characters]")
    ensures LedgerKey.IsDecimal(digits) && maxRunes + LedgerKey.Value(digits) == |Cleaned(s)|
  {
    hide Cleaned;
    var n := |Cleaned(s)| - maxRunes;
    digits := LedgerKey.Decimal(n);
    LedgerKey.ValueOfDecimal(n);
    hide LedgerKey.Decimal, LedgerKey.Value;
  }

  /** A text that is not longer than the limit, or has none, is only cleaned. */
  lemma NotCut(s: string, maxRunes: int)
    requires maxRunes <= 0 || |Cleaned(s)| <= maxRunes
    ensures Sanitized(s, maxRunes) == Cleaned(s)
  {
    hide Cleaned;
  }
}
