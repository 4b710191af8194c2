/** The input that `KeyFor` hashes: a length-prefixed encoding of a list of byte strings. */
module LedgerKey {

  datatype Decoded = Parts(parts: seq<string>) | Malformed

  /* ---- Decimal numbers ---- */

  function DigitOf(n: nat): (c: char)
    requires n < 10
    ensures '0' <= c <= '9'
  {
    ('0' as int + n) as char
  }

  function Decimal(n: nat): (s: string)
    ensures s != "" && IsDecimal(s)
  {
    if n < 10 then [DigitOf(n)] else Decimal(n / 10) + [DigitOf(n % 10)]
  }

  predicate IsDecimal(s: string) {
    forall i :: 0 <= i < |s| ==> '0' <= s[i] <= '9'
  }

  function Value(s: string): nat
    requires IsDecimal(s)
  {
    if s == "" then 0 else Value(s[..|s| - 1]) * 10 + (s[|s| - 1] as int - '0' as int)
  }

  lemma {:induction false} ValueOfDecimal(n: nat)
    ensures Value(Decimal(n)) == n
  {
    if n >= 10 {
      ValueOfDecimal(n / 10);
      assert Decimal(n)[..|Decimal(n)| - 1] == Decimal(n / 10);
    } else {
      assert Decimal(n)[..0] == "";
    }
  }

  /* ---- The encoding ---- */

  /** One part: its length in decimal, a colon, the bytes, a bar. */
  function Part(p: string): (s: string)
    ensures |s| == |Decimal(|p|)| + |p| + 2
  {
    Decimal(|p|) + ":" + p + "|"
  }

  function Encoded(parts: seq<string>): string {
    if parts == [] then "" else Part(parts[0]) + Encoded(parts[1..])
  }

  method HashInput(parts: seq<string>) returns (input: string)
    ensures input == Encoded(parts)
  {
    hide Part;
    input := "";
    for i := 0 to |parts|
      invariant input + Encoded(parts[i..]) == Encoded(parts)
    {
      assert parts[i..][1..] == parts[i + 1..];
      assert input + (Part(parts[i]) + Encoded(parts[i + 1..])) == (input + Part(parts[i])) + Encoded(parts[i + 1..]);
      input := input + Part(parts[i]);
    }
    assert parts[|parts|..] == [];
  }

  /* ---- A decoder ---- */

  /** The position of the first colon, the length when there is none. */
  function Colon(s: string): (c: nat)
    ensures c <= |s| && (c < |s| ==> s[c] == ':')
    ensures forall i :: 0 <= i < c ==> s[i] != ':'
  {
    if s == "" || s[0] == ':' then 0 else 1 + Colon(s[1..])
  }

  /** Whether `s` starts with a well-formed part, whose length prefix ends at `c`. */
  predicate StartsWithPart(s: string, c: nat) {
    && c < |s| && s[c] == ':'
    && IsDecimal(s[..c])
    && var n := Value(s[..c]);
      Decimal(n) == s[..c] && c + n + 1 < |s| && s[c + n + 1] == '|'
  }

  function Decode(s: string): Decoded {
    var c := Colon(s);
    if s == "" then Parts([])
    else if !StartsWithPart(s, c) then Malformed
    else
      var n := Value(s[..c]);
      match Decode(s[c + n + 2..])
      case Malformed => Malformed
      case Parts(rest) => Parts([s[c + 1..c + n + 1]] + rest)
  }

  lemma {:induction false} ColonAfter(d: string, rest: string)
    requires IsDecimal(d)
    ensures Colon(d + ":" + rest) == |d|
  {
    if d != "" {
      ColonAfter(d[1..], rest);
      assert (d + ":" + rest)[1..] == d[1..] + ":" + rest;
    }
  }

  lemma PartSlices(d: string, p: string, rest: string)
    ensures var s, c := d + ":" + p + "|" + rest, |d|;
      && s[..c] == d && s[c] == ':' && s[c + 1..c + |p| + 1] == p
      && s[c + |p| + 1] == '|' && s[c + |p| + 2..] == rest
      && s == d + ":" + (p + "|" + rest)
  {
  }

  lemma PartLayout(p: string, rest: string)
    ensures var s, c := Part(p) + rest, |Decimal(|p|)|;
      && Colon(s) == c && s[..c] == Decimal(|p|) && StartsWithPart(s, c) && Value(s[..c]) == |p|
      && s[c + 1..c + |p| + 1] == p && s[c + |p| + 2..] == rest
  {
    var s, d := Part(p) + rest, Decimal(|p|);
    assert s == d + ":" + p + "|" + rest;
    hide Decimal, Part, Colon;
    PartSlices(d, p, rest);
    ColonAfter(d, p + "|" + rest);
    ValueOfDecimal(|p|);
    hide Value;
  }

  lemma DecodeUnfolds(s: string, p: string, rest: string)
    requires StartsWithPart(s, Colon(s)) && Decode(rest).Parts?
    requires var c := Colon(s); var n := Value(s[..c]); s[c + 1..c + n + 1] == p && s[c + n + 2..] == rest
    ensures Decode(s) == Parts([p] + Decode(rest).parts)
  {
    hide Part, Decimal, Colon, Value;
  }

  lemma DecodePart(p: string, rest: string)
    requires Decode(rest).Parts?
    ensures Decode(Part(p) + rest) == Parts([p] + Decode(rest).parts)
  {
    hide Part, Decimal, Colon, Value, Decode;
    PartLayout(p, rest);
    DecodeUnfolds(Part(p) + rest, p, rest);
  }

  /** Every list of strings can be read back from its encoding. */
  lemma {:induction false} DecodeEncoded(parts: seq<string>)
    ensures Decode(Encoded(parts)) == Parts(parts)
  {
    hide Part, Decode;
    if parts == [] {
      DecodeNothing();
    } else {
      DecodeEncoded(parts[1..]);
      DecodePart(parts[0], Encoded(parts[1..]));
    }
  }

  lemma DecodeNothing()
    ensures Decode("") == Parts([])
  {
  }

  lemma Pieces(s: string, c: nat, n: nat)
    requires c + n + 1 < |s| && s[c] == ':' && s[c + n + 1] == '|'
    ensures s == (s[..c] + ":" + s[c + 1..c + n + 1] + "|") + s[c + n + 2..]
  {
    hide *;
    var head := s[..c] + ":" + s[c + 1..c + n + 1] + "|";
    assert |head| == c + n + 2;
    assert forall i :: 0 <= i < |head| ==> head[i] == s[i];
    assert s == s[..c + n + 2] + s[c + n + 2..] && s[..c + n + 2] == head;
  }

  lemma PartRead(s: string, c: nat)
    requires StartsWithPart(s, c)
    ensures var n := Value(s[..c]); Part(s[c + 1..c + n + 1]) + s[c + n + 2..] == s
  {
    hide Decimal, Value;
    Pieces(s, c, Value(s[..c]));
  }

  lemma EncodedCons(p: string, rest: seq<string>)
    ensures Encoded([p] + rest) == Part(p) + Encoded(rest)
  {
    hide Part;
    assert ([p] + rest)[1..] == rest;
  }

  lemma DecodeStep(s: string) returns (p: string, rest: string)
    requires s != "" && Decode(s).Parts?
    ensures s == Part(p) + rest && |rest| < |s|
    ensures Decode(rest).Parts? && Decode(s) == Parts([p] + Decode(rest).parts)
  {
    hide Decimal, Colon, Value, Part;
    var c := Colon(s);
    var n := Value(s[..c]);
    p, rest := s[c + 1..c + n + 1], s[c + n + 2..];
    PartRead(s, c);
  }

  /** Only encodings can be read: nothing but the encoding of `parts` decodes to `parts`. */
  lemma {:induction false} EncodeDecoded(s: string)
    requires Decode(s).Parts?
    ensures Encoded(Decode(s).parts) == s
    decreases |s|
  {
    hide *;
    if s == "" {
      EncodedNothing();
      DecodeNothing();
    } else {
      var p, rest := DecodeStep(s);
      EncodeDecoded(rest);
      EncodedCons(p, Decode(rest).parts);
    }
  }

  lemma EncodedNothing()
    ensures Encoded([]) == ""
  {
  }

  /** Two different lists never give the hash the same bytes. */
  lemma EncodingInjective(a: seq<string>, b: seq<string>)
    requires Encoded(a) == Encoded(b)
    ensures a == b
  {
    DecodeEncoded(a);
    DecodeEncoded(b);
    hide *;
  }
}
