/** Go strings and the part of package `strings` that the transcript code uses.

    A Go string is a sequence of bytes.  Here it is a Dafny `string` with one character per
    byte, so `|s|` is `len(s)` and `s[i..j]` is Go's byte slicing. */
module GoStrings {

  /** The one-byte runes of `unicode.IsSpace`. */
  predicate AsciiSpace(c: char) {
    c == ' ' || '\t' <= c <= '\r'
  }

  /** The UTF-8 encodings of the two-byte and three-byte runes of `unicode.IsSpace`. */
  predicate WideSpace2(a: char, b: char) {
    a == '\U{C2}' && (b == '\U{85}' || b == '\U{A0}')
  }

  predicate WideSpace3(a: char, b: char, c: char) {
    || (a == '\U{E1}' && b == '\U{9A}' && c == '\U{80}')
    || (a == '\U{E2}' && b == '\U{80}' && ('\U{80}' <= c <= '\U{8A}' || c == '\U{A8}' || c == '\U{A9}' || c == '\U{AF}'))
    || (a == '\U{E2}' && b == '\U{81}' && c == '\U{9F}')
    || (a == '\U{E3}' && b == '\U{80}' && c == '\U{80}')
  }

  /** The size in bytes of the white space rune that `s` starts with, 0 when there is none. */
  function LeadingSpace(s: string): (n: nat)
    ensures n <= |s|
  {
    if |s| >= 1 && AsciiSpace(s[0]) then 1
    else if |s| >= 2 && WideSpace2(s[0], s[1]) then 2
    else if |s| >= 3 && WideSpace3(s[0], s[1], s[2]) then 3
    else 0
  }

  /** The size in bytes of the white space rune that `s` ends with, 0 when there is none. */
  function TrailingSpace(s: string): (n: nat)
    ensures n <= |s|
  {
    var k := |s|;
    if k >= 1 && AsciiSpace(s[k - 1]) then 1
    else if k >= 2 && WideSpace2(s[k - 2], s[k - 1]) then 2
    else if k >= 3 && WideSpace3(s[k - 3], s[k - 2], s[k - 1]) then 3
    else 0
  }

  function TrimLeft(s: string): string {
    var n := LeadingSpace(s);
    if n == 0 then s else TrimLeft(s[n..])
  }

  function TrimRight(s: string): string {
    var n := TrailingSpace(s);
    if n == 0 then s else TrimRight(s[..|s| - n])
  }

  /** `strings.TrimSpace`. */
  function TrimSpace(s: string): string {
    TrimRight(TrimLeft(s))
  }

  /** Trimmed text is exactly text that neither starts nor ends with white space. */
  predicate Trimmed(s: string) {
    LeadingSpace(s) == 0 && TrailingSpace(s) == 0
  }

  lemma {:induction false} TrimLeftStops(s: string)
    ensures LeadingSpace(TrimLeft(s)) == 0
    decreases |s|
  {
    var n := LeadingSpace(s);
    if n != 0 {
      TrimLeftStops(s[n..]);
    }
  }

  lemma {:induction false} TrimRightStops(s: string)
    ensures TrailingSpace(TrimRight(s)) == 0
    ensures TrimRight(s) <= s
    decreases |s|
  {
    var n := TrailingSpace(s);
    if n != 0 {
      TrimRightStops(s[..|s| - n]);
    }
  }

  lemma TrimSpaceTrims(s: string)
    ensures Trimmed(TrimSpace(s))
    ensures Trimmed(s) ==> TrimSpace(s) == s
    ensures TrimSpace(s) == s ==> Trimmed(s)
  {
    TrimLeftStops(s);
    TrimRightStops(TrimLeft(s));
  }

  /* ---- What is cut off ---- */

  /** White space runes in a row. */
  predicate Spaces(s: string)
    decreases |s|
  {
    s == "" || (LeadingSpace(s) > 0 && Spaces(s[LeadingSpace(s)..]))
  }

  lemma LeadingSpaceOf(a: string, b: string)
    requires LeadingSpace(a) > 0
    ensures LeadingSpace(a + b) == LeadingSpace(a)
  {
  }

  lemma {:induction false} SpacesAppend(a: string, b: string)
    requires Spaces(a) && Spaces(b)
    ensures Spaces(a + b)
    decreases |a|
  {
    if a == "" {
      assert a + b == b;
    } else {
      LeadingSpaceOf(a, b);
      var n := LeadingSpace(a);
      assert n > 0 && Spaces(a[n..]);
      hide *;
      SpacesAppend(a[n..], b);
      assert (a + b)[n..] == a[n..] + b;
      SpacesBehind(a + b, n);
    }
  }

  lemma SpacesBehind(s: string, n: nat)
    requires n == LeadingSpace(s) > 0 && Spaces(s[n..])
    ensures Spaces(s)
  {
    hide LeadingSpace;
  }

  lemma TrailingSpaceIsSpace(s: string)
    ensures Spaces(s[|s| - TrailingSpace(s)..])
  {
    var n := TrailingSpace(s);
    var t := s[|s| - n..];
    assert n > 0 ==> LeadingSpace(t) == n && t[n..] == "";
  }

  lemma {:induction false} TrimLeftCuts(s: string) returns (a: nat)
    ensures a <= |s| && TrimLeft(s) == s[a..] && Spaces(s[..a])
    decreases |s|
  {
    var n := LeadingSpace(s);
    a := 0;
    if n > 0 {
      var k := TrimLeftCuts(s[n..]);
      a := n + k;
      assert TrimLeft(s) == TrimLeft(s[n..]);
      LeadingSpaceIsSpace(s);
      hide *;
      assert s[n..][..k] == s[n..a] && s[n..][k..] == s[a..];
      assert s[..a] == s[..n] + s[n..a];
      SpacesAppend(s[..n], s[n..a]);
    }
  }

  lemma LeadingSpaceIsSpace(s: string)
    ensures Spaces(s[..LeadingSpace(s)])
  {
    var n := LeadingSpace(s);
    var t := s[..n];
    assert n > 0 ==> LeadingSpace(t) == n && t[n..] == "";
  }

  lemma {:induction false} TrimRightCuts(s: string) returns (b: nat)
    ensures b <= |s| && TrimRight(s) == s[..b] && Spaces(s[b..])
    decreases |s|
  {
    var n := TrailingSpace(s);
    b := |s|;
    if n > 0 {
      var rest := s[..|s| - n];
      b := TrimRightCuts(rest);
      TrailingSpaceIsSpace(s);
      hide TrailingSpace, LeadingSpace, Spaces;
      SpacesAppend(rest[b..], s[|s| - n..]);
      assert s[b..] == rest[b..] + s[|s| - n..] && rest[..b] == s[..b];
    }
  }

  /** Trimming cuts off white space at both ends, and nothing else. */
  lemma TrimSpaceCuts(s: string) returns (a: nat, b: nat)
    ensures a <= b <= |s| && TrimSpace(s) == s[a..b] && Spaces(s[..a]) && Spaces(s[b..])
  {
    a := TrimLeftCuts(s);
    b := TrimRightCuts(s[a..]);
    b := a + b;
    hide TrimLeft, TrimRight, Spaces;
    assert s[a..][b - a..] == s[b..] && s[a..][..b - a] == s[a..b];
  }
}
