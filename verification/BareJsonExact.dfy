/** What is collected from a text, candidate by candidate. */
module BareJsonExact {
  import opened Picking
  import opened BareJson
  import opened BareJsonText

  /** What the decoder makes of the candidate at span `k`. */
  function DecodedAt(s: string, spans: seq<Span>, decode: string -> Decoded, k: nat): Decoded
    requires InBounds(s, spans) && k < |spans|
  {
    decode(s[spans[k].start..spans[k].end])
  }

  /** The calls a candidate gives. */
  function CallsIn(decoded: Decoded): seq<FoundCall> {
    match decoded
    case Single(call) => [call]
    case ToolUses(uses) => uses
    case _ => []
  }

  /** The calls of the first `n` candidates, one candidate after the other. */
  function CallsUpTo(s: string, spans: seq<Span>, decode: string -> Decoded, n: nat): seq<FoundCall>
    requires InBounds(s, spans) && n <= |spans|
  {
    if n == 0 then [] else CallsUpTo(s, spans, decode, n - 1) + CallsIn(DecodedAt(s, spans, decode, n - 1))
  }

  /** A call has been found in candidate `k` or in front of it. */
  ghost predicate FoundBy(s: string, spans: seq<Span>, decode: string -> Decoded, k: nat)
    requires InBounds(s, spans) && k < |spans|
  {
    exists j: nat :: j <= k && CallsIn(DecodedAt(s, spans, decode, j)) != []
  }

  /** A candidate is cut out when it is a call itself, or a list of tool uses once a call has been found. */
  ghost predicate CutOut(s: string, spans: seq<Span>, decode: string -> Decoded, k: nat)
    requires InBounds(s, spans) && k < |spans|
  {
    var decoded := DecodedAt(s, spans, decode, k);
    decoded.Single? || (decoded.ToolUses? && FoundBy(s, spans, decode, k))
  }

  lemma {:induction false} NoCallsUpTo(s: string, spans: seq<Span>, decode: string -> Decoded, n: nat)
    requires InBounds(s, spans) && n <= |spans|
    ensures CallsUpTo(s, spans, decode, n) != [] <==>
      exists j: nat :: j < n && CallsIn(DecodedAt(s, spans, decode, j)) != []
  {
    hide CallsIn, DecodedAt;
    if n > 0 {
      NoCallsUpTo(s, spans, decode, n - 1);
    }
  }

  /** The positions of the candidates that are cut out, among the first `n`. */
  ghost predicate CutPlaces(s: string, spans: seq<Span>, decode: string -> Decoded, n: nat, ps: seq<nat>)
    requires InBounds(s, spans) && n <= |spans|
  {
    forall k: nat :: k < n ==> (k in ps <==> CutOut(s, spans, decode, k))
  }

  lemma StepIs(f: Found, span: Span, decoded: Decoded)
    ensures var calls := f.calls + CallsIn(decoded);
      Step(f, span, decoded) ==
        Found(calls, if decoded.Single? || (decoded.ToolUses? && calls != []) then f.removed + [span] else f.removed)
  {
  }

  lemma {:induction false} CollectedExactly(s: string, spans: seq<Span>, decode: string -> Decoded, n: nat)
      returns (ps: seq<nat>)
    requires InBounds(s, spans) && n <= |spans|
    ensures Collected(s, spans[..n], decode).calls == CallsUpTo(s, spans, decode, n)
    ensures Picks(spans[..n], ps, Collected(s, spans[..n], decode).removed)
    ensures CutPlaces(s, spans, decode, n, ps)
  {
    if n == 0 {
      ps := [];
      PicksNothing<Span>([]);
    } else {
      ps := CollectedExactly(s, spans, decode, n - 1);
      ghost var f := Collected(s, spans[..n - 1], decode);
      assert spans[..n][..n - 1] == spans[..n - 1];
      assert Collected(s, spans[..n], decode) == Step(f, spans[n - 1], DecodedAt(s, spans, decode, n - 1));
      NoCallsUpTo(s, spans, decode, n);
      assert CallsUpTo(s, spans, decode, n) != [] <==> FoundBy(s, spans, decode, n - 1);
      StepIs(f, spans[n - 1], DecodedAt(s, spans, decode, n - 1));
      PicksSnoc(spans[..n - 1], spans[n - 1], ps, f.removed, spans[..n]);
      hide Collected, FoundBy, DecodedAt, Picks, Step, CallsIn;
      if CutOut(s, spans, decode, n - 1) {
        ps := ps + [n - 1];
      }
    }
  }

  /** The calls are those of all candidates, in the order of the text; and what is cut out are exactly the
      candidates that are calls, and the lists of tool uses by which at least one call has been found. */
  lemma ExtractsExactly(content: string, decode: string -> Decoded) returns (ps: seq<nat>)
    ensures var spans, f := Spans(content, 0), Extraction(content, decode);
      && InBounds(content, spans)
      && f.calls == CallsUpTo(content, spans, decode, |spans|)
      && Picks(spans, ps, f.removed)
      && forall k: nat :: k < |spans| ==> (k in ps <==> CutOut(content, spans, decode, k))
  {
    SpansFit(content, 0);
    var spans := Spans(content, 0);
    ps := CollectedExactly(content, spans, decode, |spans|);
    assert spans[..|spans|] == spans;
    hide Spans, Collected, CutOut;
  }
}
