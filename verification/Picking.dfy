/** Picking some elements of a sequence in their order. */
module Picking {

  /** Positions below `n`, in increasing order. */
  ghost predicate Places(ps: seq<nat>, n: nat) {
    && (forall k :: 0 <= k < |ps| ==> ps[k] < n)
    && (forall a, b :: 0 <= a < b < |ps| ==> ps[a] < ps[b])
  }

  /** `out` are the elements of `s` at the positions. */
  ghost predicate Picks<T>(s: seq<T>, ps: seq<nat>, out: seq<T>) {
    Places(ps, |s|) && |out| == |ps| && forall k :: 0 <= k < |ps| ==> out[k] == s[ps[k]]
  }

  lemma PicksNothing<T>(s: seq<T>)
    ensures Picks(s, [], [])
  {
  }

  /** One more element, which is picked or not. */
  lemma PicksSnoc<T>(s: seq<T>, x: T, ps: seq<nat>, out: seq<T>, all: seq<T>)
    requires Picks(s, ps, out) && all == s + [x]
    ensures Picks(all, ps, out) && Picks(all, ps + [|s|], out + [x])
    ensures |s| !in ps && forall i :: i in ps + [|s|] <==> i in ps || i == |s|
  {
  }
}
