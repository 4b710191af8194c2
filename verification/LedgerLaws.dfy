/** What every interleaving of ledger callers, with any errors and crashes, keeps. */
module LedgerLaws {
  import opened GoStrings
  import opened Ledger

  /** What the phase of the lock holder says about the row of its key. */
  predicate PhaseFits(s: State, phase: Phase) {
    match phase
    case Reading(_, _) => true
    case Reserving(key, _) => key !in s.table
    case Holding(key, existed, sent) => key in s.table && s.table[key].sent == sent && (sent ==> existed)
    case Delivered(key, _) => key in s.table && !s.table[key].sent
  }

  /** A provider call for the key succeeded and its caller is about to record it. */
  predicate InFlight(s: State, k: string) {
    k in s.locks && s.locks[k] in s.callers && s.callers[s.locks[k]].Delivered?
  }

  predicate IsSent(s: State, k: string) {
    k in s.table && s.table[k].sent
  }

  predicate OwnsLock(s: State, c: nat) {
    c in s.callers ==> s.callers[c].key in s.locks && s.locks[s.callers[c].key] == c
  }

  predicate LockOwned(s: State, k: string) {
    k in s.locks ==>
      var c := s.locks[k]; c in s.callers && s.callers[c].key == k && PhaseFits(s, s.callers[c])
  }

  function One(b: bool): nat { if b then 1 else 0 }

  /** The accounts of one key. */
  predicate Balanced(s: State, k: string) {
    && s.reserved[k] <= One(k in s.table)
    && s.recorded[k] == One(IsSent(s, k))
    && s.delivered[k] == s.recorded[k] + s.lost[k] + One(InFlight(s, k))
  }

  ghost predicate Inv(s: State) {
    && (forall c :: OwnsLock(s, c))
    && (forall k :: LockOwned(s, k))
    && (forall k :: Balanced(s, k))
  }

  /** Rows stay, keep their payload hash, and do not change any more once they are sent. */
  ghost predicate RowsKept(s: State, t: State) {
    forall k :: k in s.table ==>
      k in t.table && t.table[k].hash == s.table[k].hash && (s.table[k].sent ==> t.table[k] == s.table[k])
  }

  /* ---- One step ---- */

  /** Nothing but the given key changes in the table and the accounts. */
  ghost predicate SameRows(s: State, t: State, key: string) {
    forall k :: k != key ==> (k in s.table <==> k in t.table) && (k in s.table ==> s.table[k] == t.table[k])
  }

  ghost predicate SameCounts(s: State, t: State, key: string) {
    forall k :: k != key ==>
      && s.reserved[k] == t.reserved[k] && s.recorded[k] == t.recorded[k]
      && s.delivered[k] == t.delivered[k] && s.lost[k] == t.lost[k]
  }

  ghost predicate SameLocks(s: State, t: State, key: string) {
    forall k :: k != key ==> (k in s.locks <==> k in t.locks) && (k in s.locks ==> s.locks[k] == t.locks[k])
  }

  ghost predicate SameCallers(s: State, t: State, c: nat) {
    forall d :: d != c ==> (d in s.callers <==> d in t.callers) && (d in s.callers ==> s.callers[d] == t.callers[d])
  }

  /** The step works for one caller on one key: nothing else changes. */
  ghost predicate OnlyTouches(s: State, t: State, c: nat, key: string) {
    && SameRows(s, t, key) && SameCounts(s, t, key) && SameLocks(s, t, key) && SameCallers(s, t, c)
    && (c in s.callers ==> s.callers[c].key == key)
    && (c in t.callers ==> t.callers[c].key == key)
  }

  /** The lock of the key is free or held by the caller, before and after. */
  ghost predicate LocalLock(s: State, c: nat, key: string) {
    (key in s.locks <==> c in s.callers) && (key in s.locks ==> s.locks[key] == c)
  }

  lemma LocalStep(s: State, t: State, c: nat, key: string)
    requires Inv(s) && OnlyTouches(s, t, c, key) && LocalLock(s, c, key) && LocalLock(t, c, key)
    requires LockOwned(t, key) && Balanced(t, key)
    ensures Inv(t)
  {
    forall d
      ensures OwnsLock(t, d)
    {
      assert OwnsLock(s, d);
    }
    forall k
      ensures LockOwned(t, k) && Balanced(t, k)
    {
      if k != key {
        assert LockOwned(s, k) && Balanced(s, k);
      }
    }
  }

  /** The key a step works on. */
  function KeyOf(s: State, a: Action): string
    requires Enabled(s, a) && !a.Crash?
  {
    if a.Lock? then a.key else s.callers[a.caller].key
  }

  lemma TableEffect(s: State, a: Action)
    requires Enabled(s, a) && !a.Crash?
    ensures var t, key := Apply(s, a).table, KeyOf(s, a);
      t == s.table || (key in t && t == s.table[key := t[key]])
  {
    hide TrimSpace, Unrecorded, Released;
  }

  lemma StepRows(s: State, a: Action)
    requires Enabled(s, a) && !a.Crash?
    ensures SameRows(s, Apply(s, a), KeyOf(s, a))
  {
    TableEffect(s, a);
    hide Enabled, Apply;
  }

  lemma StepCounts(s: State, a: Action)
    requires Enabled(s, a) && !a.Crash?
    ensures SameCounts(s, Apply(s, a), KeyOf(s, a))
  {
    hide TrimSpace, Unrecorded, Released;
  }

  lemma StepLocks(s: State, a: Action)
    requires Enabled(s, a) && !a.Crash?
    ensures SameLocks(s, Apply(s, a), KeyOf(s, a))
  {
    hide TrimSpace, Unrecorded, Recorded;
  }

  lemma CallersEffect(s: State, a: Action)
    requires Enabled(s, a) && !a.Crash?
    ensures var t, c := Apply(s, a).callers, a.caller;
      t == s.callers - {c} || t == s.callers || (c in t && t == s.callers[c := t[c]])
  {
    hide TrimSpace, Unrecorded, Recorded;
  }

  lemma StepCallers(s: State, a: Action)
    requires Enabled(s, a) && !a.Crash?
    ensures SameCallers(s, Apply(s, a), a.caller)
  {
    CallersEffect(s, a);
    hide Enabled, Apply;
  }

  lemma StepLocalLock(s: State, a: Action)
    requires Enabled(s, a) && !a.Crash? && LocalLock(s, a.caller, KeyOf(s, a))
    ensures LocalLock(Apply(s, a), a.caller, KeyOf(s, a))
  {
    hide TrimSpace, Unrecorded, Recorded;
  }

  lemma StepCallerKey(s: State, a: Action)
    requires Enabled(s, a) && !a.Crash?
    ensures var t := Apply(s, a); a.caller in t.callers ==> t.callers[a.caller].key == KeyOf(s, a)
  {
    hide TrimSpace, Unrecorded, Recorded;
  }

  lemma StepTouches(s: State, a: Action)
    requires Enabled(s, a) && !a.Crash? && LocalLock(s, a.caller, KeyOf(s, a))
    ensures OnlyTouches(s, Apply(s, a), a.caller, KeyOf(s, a))
  {
    hide Apply, LocalLock, SameRows, SameCounts, SameLocks, SameCallers;
    StepRows(s, a);
    StepCounts(s, a);
    StepLocks(s, a);
    StepCallers(s, a);
    StepCallerKey(s, a);
  }

  lemma StepLockOwned(s: State, a: Action)
    requires Enabled(s, a) && !a.Crash? && LocalLock(s, a.caller, KeyOf(s, a)) && LockOwned(s, KeyOf(s, a))
    ensures LockOwned(Apply(s, a), KeyOf(s, a))
  {
    hide TrimSpace;
  }

  lemma StepBalanced(s: State, a: Action)
    requires Enabled(s, a) && !a.Crash? && LocalLock(s, a.caller, KeyOf(s, a))
    requires LockOwned(s, KeyOf(s, a)) && Balanced(s, KeyOf(s, a))
    ensures Balanced(Apply(s, a), KeyOf(s, a))
  {
    hide TrimSpace;
  }

  lemma StepRowsKept(s: State, a: Action)
    requires Enabled(s, a) && !a.Crash? && LocalLock(s, a.caller, KeyOf(s, a)) && LockOwned(s, KeyOf(s, a))
    ensures RowsKept(s, Apply(s, a))
  {
    hide TrimSpace;
  }

  lemma CrashStep(s: State)
    requires Inv(s)
    ensures Inv(Apply(s, Crash)) && RowsKept(s, Apply(s, Crash))
  {
    var t := Apply(s, Crash);
    forall k
      ensures Balanced(t, k)
    {
      assert Balanced(s, k) && LockOwned(s, k);
      assert k in Unrecorded(s) <==> InFlight(s, k) by {
        if k in Unrecorded(s) {
          var c :| c in s.callers && s.callers[c].Delivered? && s.callers[c].key == k;
          assert OwnsLock(s, c);
        }
      }
    }
  }

  lemma StepKeepsInv(s: State, a: Action)
    requires Inv(s) && Enabled(s, a)
    ensures Inv(Apply(s, a)) && RowsKept(s, Apply(s, a))
  {
    if a.Crash? {
      CrashStep(s);
    } else {
      var key := KeyOf(s, a);
      assert OwnsLock(s, a.caller) && LockOwned(s, key) && Balanced(s, key);
      assert LocalLock(s, a.caller, key) by { hide TrimSpace; }
      hide Apply, Enabled, Inv, LockOwned, Balanced, OnlyTouches, LocalLock;
      StepTouches(s, a);
      StepLocalLock(s, a);
      StepLockOwned(s, a);
      StepBalanced(s, a);
      StepRowsKept(s, a);
      LocalStep(s, Apply(s, a), a.caller, key);
    }
  }

  /* ---- Whole runs ---- */

  lemma RowsKeptTransitive(s: State, t: State, u: State)
    requires RowsKept(s, t) && RowsKept(t, u)
    ensures RowsKept(s, u)
  {
  }

  lemma {:induction false} RunKeepsInv(s: State, actions: seq<Action>)
    requires Inv(s) && AllEnabled(s, actions)
    ensures Inv(Run(s, actions)) && RowsKept(s, Run(s, actions))
    decreases |actions|
  {
    hide Inv, Apply, Enabled;
    if actions == [] {
      assert RowsKept(s, s);
    } else {
      hide RowsKept;
      var t := Apply(s, actions[0]);
      StepKeepsInv(s, actions[0]);
      RunKeepsInv(t, actions[1..]);
      RowsKeptTransitive(s, t, Run(t, actions[1..]));
    }
  }

  lemma EmptyInv()
    ensures Inv(EMPTY)
  {
  }

  /** Over every interleaving of callers, with any read, write and provider errors and any number of
      crashes: a key is reported as new at most once; its lock has one holder; a reservation never
      meets an existing row; and every delivery is recorded, in flight, or its acknowledgement was lost. */
  lemma AtMostOnce(actions: seq<Action>, key: string)
    requires AllEnabled(EMPTY, actions)
    ensures var s := Run(EMPTY, actions);
      && s.reserved[key] <= 1
      && (forall c, d :: c in s.callers && d in s.callers && s.callers[c].key == s.callers[d].key ==> c == d)
      && (forall c :: c in s.callers && s.callers[c].Reserving? ==> s.callers[c].key !in s.table)
      && s.delivered[key] == One(IsSent(s, key)) + s.lost[key] + One(InFlight(s, key)) <= 1 + s.lost[key]
  {
    EmptyInv();
    RunKeepsInv(EMPTY, actions);
    hide Run, AllEnabled;
    var s := Run(EMPTY, actions);
    assert Balanced(s, key) && LockOwned(s, key);
    forall c, d | c in s.callers && d in s.callers && s.callers[c].key == s.callers[d].key
      ensures c == d
    {
      assert OwnsLock(s, c) && OwnsLock(s, d);
    }
    forall c | c in s.callers && s.callers[c].Reserving?
      ensures s.callers[c].key !in s.table
    {
      assert OwnsLock(s, c) && LockOwned(s, s.callers[c].key);
    }
  }

  lemma {:induction false} RunAppend(s: State, a: seq<Action>, b: seq<Action>)
    requires AllEnabled(s, a + b)
    ensures AllEnabled(s, a) && AllEnabled(Run(s, a), b) && Run(s, a + b) == Run(Run(s, a), b)
    decreases |a|
  {
    hide Apply, Enabled;
    if a == [] {
      assert a + b == b;
    } else {
      assert (a + b)[0] == a[0] && (a + b)[1..] == a[1..] + b;
      RunAppend(Apply(s, a[0]), a[1..], b);
    }
  }

  /** Rows are never removed, their payload hash never changes, and a sent row stays as it is. */
  lemma RowsForever(before: seq<Action>, later: seq<Action>)
    requires AllEnabled(EMPTY, before + later)
    ensures AllEnabled(EMPTY, before) && RowsKept(Run(EMPTY, before), Run(EMPTY, before + later))
  {
    hide Inv, RowsKept, Run, AllEnabled;
    RunAppend(EMPTY, before, later);
    EmptyInv();
    RunKeepsInv(EMPTY, before);
    RunKeepsInv(Run(EMPTY, before), later);
  }

  lemma RunOne(s: State, a: Action, rest: seq<Action>)
    requires Enabled(s, a) && AllEnabled(Apply(s, a), rest)
    ensures AllEnabled(s, [a] + rest) && Run(s, [a] + rest) == Run(Apply(s, a), rest)
  {
    hide Enabled, Apply;
    assert ([a] + rest)[1..] == rest;
  }

  /** The next attempt after a crash. */
  function Retry(key: string, hash: string, d: nat, messageId: string): seq<Action> {
    [Crash] + ([Lock(d, key, hash)] + ([Read(d)] + ([Deliver(d, messageId)] + [])))
  }

  /** From every reachable state in which the provider has delivered and the table does not say so yet:
      after a crash the next attempt finds the row pending and the provider delivers again. */
  lemma CrashDeliversAgain(s: State, c: nat, hash: string, d: nat, messageId: string)
    requires Inv(s) && c in s.callers && s.callers[c].Delivered? && TrimSpace(s.callers[c].key) != ""
    ensures var key := s.callers[c].key;
      AllEnabled(s, Retry(key, hash, d, messageId)) &&
      Run(s, Retry(key, hash, d, messageId)).delivered[key] == s.delivered[key] + 1
  {
    var key := s.callers[c].key;
    assert OwnsLock(s, c) && LockOwned(s, key);
    hide TrimSpace;
    var s1 := Apply(s, Crash);
    var s2 := Apply(s1, Lock(d, key, hash));
    var s3 := Apply(s2, Read(d));
    assert s3.callers[d] == Holding(key, true, false);
    var s4 := Apply(s3, Deliver(d, messageId));
    hide Apply, Enabled;
    RunOne(s3, Deliver(d, messageId), []);
    RunOne(s2, Read(d), [Deliver(d, messageId)] + []);
    RunOne(s1, Lock(d, key, hash), [Read(d)] + ([Deliver(d, messageId)] + []));
    RunOne(s, Crash, [Lock(d, key, hash)] + ([Read(d)] + ([Deliver(d, messageId)] + [])));
  }
}
