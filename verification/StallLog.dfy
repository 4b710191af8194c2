/** The stall tracker's counters as functions of the reports it has seen. */
module StallLog {

  const STALL_LIMIT: nat := 3

  /** What a heartbeat cycle reports about a mission: its progress, or that it is not in progress. */
  datatype Report = Progress(value: int) | NotInProgress

  /** The progress values reported since the mission was last reported as not in progress. */
  function Streak(reports: seq<Report>): (values: seq<int>)
    ensures |values| <= |reports|
  {
    if reports == [] || reports[|reports| - 1].NotInProgress? then []
    else Streak(reports[..|reports| - 1]) + [reports[|reports| - 1].value]
  }

  /** The highest value since the last zero; zero when there is none. */
  function High(values: seq<int>): (h: int)
    ensures h >= 0
  {
    if values == [] then 0
    else
      var last, before := values[|values| - 1], High(values[..|values| - 1]);
      if last == 0 then 0 else if last > before then last else before
  }

  /** The `k`-th report starts the count again: it is zero or a new high. */
  predicate Restarts(values: seq<int>, k: nat)
    requires k < |values|
  {
    values[k] == 0 || values[k] > High(values[..k])
  }

  /** The number of reports since the last one that restarted the count. */
  function Stalled(values: seq<int>): (n: nat)
    ensures n <= |values|
  {
    if values == [] || Restarts(values, |values| - 1) then 0 else Stalled(values[..|values| - 1]) + 1
  }

  /** The report number `k` makes the tracker escalate. */
  predicate Escalates(values: seq<int>, k: nat)
    requires k < |values|
  {
    Stalled(values[..k + 1]) == STALL_LIMIT
  }

  /* ---- What the definitions mean ---- */

  /** For reports that are never negative, `High` is the maximum since the last zero. */
  lemma {:induction false} HighIsMaximum(values: seq<int>) returns (start: nat)
    requires forall i :: 0 <= i < |values| ==> values[i] >= 0
    ensures start <= |values| && (start == 0 || values[start - 1] == 0)
    ensures forall i :: start <= i < |values| ==> 0 < values[i] <= High(values)
    ensures High(values) == 0 <==> start == |values|
    ensures High(values) > 0 ==> exists i :: start <= i < |values| && values[i] == High(values)
  {
    start := 0;
    if values != [] {
      var k := |values| - 1;
      start := HighIsMaximum(values[..k]);
      if values[k] == 0 {
        start := |values|;
      } else if values[k] > High(values[..k]) {
        assert values[k] == High(values);
      } else {
        var i :| start <= i < k && values[..k][i] == High(values[..k]);
        assert values[i] == High(values);
      }
    }
  }

  lemma RestartsPrefix(values: seq<int>, n: nat, k: nat)
    requires k < n <= |values|
    ensures Restarts(values[..n], k) <==> Restarts(values, k)
  {
    assert values[..n][..k] == values[..k];
  }

  /** None of the last `Stalled(values)` reports restarts the count, and the one before them does. */
  lemma {:induction false} StalledMeans(values: seq<int>, k: nat)
    requires k < |values|
    ensures |values| - Stalled(values) <= k ==> !Restarts(values, k)
    ensures k == |values| - Stalled(values) - 1 ==> Restarts(values, k)
  {
    var last := |values| - 1;
    if !Restarts(values, last) && k < last {
      StalledMeans(values[..last], k);
      RestartsPrefix(values, last, k);
    }
  }

  lemma {:induction false} StalledFrom(values: seq<int>, i: nat, j: nat)
    requires i <= j <= |values| && forall k :: i <= k < j ==> !Restarts(values, k)
    ensures Stalled(values[..j]) == Stalled(values[..i]) + (j - i)
  {
    if i < j {
      StalledFrom(values, i, j - 1);
      assert values[..j][..j - 1] == values[..j - 1];
      assert !Restarts(values, j - 1);
    }
  }

  /** One escalation per streak: between two of them some report restarts the count. */
  lemma EscalatesOnce(values: seq<int>, i: nat, j: nat)
    requires i < j < |values| && Escalates(values, i) && Escalates(values, j)
    ensures exists k :: i < k <= j && Restarts(values, k)
  {
    if forall k :: i < k <= j ==> !Restarts(values, k) {
      StalledFrom(values, i + 1, j + 1);
    }
  }

  /** A mission that stays at zero never escalates. */
  lemma ZeroNeverEscalates(values: seq<int>, k: nat)
    requires k < |values| && values[k] == 0
    ensures !Escalates(values, k)
  {
    assert values[..k + 1][k] == 0;
  }

  /** Exactly when report `k` escalates: three reports in a row that do not restart the count, behind
      one that does or behind the start of the streak. */
  lemma EscalatesExactly(values: seq<int>, k: nat)
    requires k < |values|
    ensures Escalates(values, k) <==>
      && k >= 2 && !Restarts(values, k) && !Restarts(values, k - 1) && !Restarts(values, k - 2)
      && (k >= 3 ==> Restarts(values, k - 3))
  {
    if k >= 2 && !Restarts(values, k) && !Restarts(values, k - 1) && !Restarts(values, k - 2) {
      StalledFrom(values, k - 2, k + 1);
      if k >= 3 {
        assert values[..k - 2][..k - 3] == values[..k - 3];
      }
    } else if Escalates(values, k) {
      var v := values[..k + 1];
      forall j | k - 2 <= j <= k
        ensures !Restarts(values, j)
      {
        StalledMeans(v, j);
        RestartsPrefix(values, k + 1, j);
      }
    }
  }
}
