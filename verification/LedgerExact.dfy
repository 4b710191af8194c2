/** Where the rows of the ledger come from. */
module LedgerExact {
  import opened Ledger
  import opened LedgerLaws

  /** The keys and hashes that calls began with. */
  ghost function Begun(actions: seq<Action>): set<(string, string)> {
    set a | a in actions && a.Lock? :: (a.key, a.hash)
  }

  /** The message ids the provider gave. */
  ghost function Acknowledged(actions: seq<Action>): set<string> {
    set a | a in actions && a.Deliver? :: a.messageId
  }

  predicate CallerFrom(phase: Phase, begun: set<(string, string)>, ids: set<string>) {
    match phase
    case Reading(key, hash) => (key, hash) in begun
    case Reserving(key, hash) => (key, hash) in begun
    case Holding(_, _, _) => true
    case Delivered(_, id) => id in ids
  }

  /** A row has the payload hash of a call that began on its key; it carries a message id the provider gave when it is
      sent, and none before. */
  predicate RowFrom(key: string, row: Entry, begun: set<(string, string)>, ids: set<string>) {
    (key, row.hash) in begun && if row.sent then row.messageId in ids else row.messageId == ""
  }

  ghost predicate From(s: State, begun: set<(string, string)>, ids: set<string>) {
    && (forall c :: c in s.callers ==> CallerFrom(s.callers[c], begun, ids))
    && (forall k :: k in s.table ==> RowFrom(k, s.table[k], begun, ids))
  }

  lemma CallersFrom(s: State, a: Action, begun: set<(string, string)>, ids: set<string>)
    requires From(s, begun, ids) && Enabled(s, a)
    requires a.Lock? ==> (a.key, a.hash) in begun
    requires a.Deliver? ==> a.messageId in ids
    ensures var t := Apply(s, a); forall c :: c in t.callers ==> CallerFrom(t.callers[c], begun, ids)
  {
  }

  lemma RowWritten(s: State, a: Action, begun: set<(string, string)>, ids: set<string>)
    requires From(s, begun, ids) && Enabled(s, a) && !a.Crash?
    ensures var t, key := Apply(s, a).table, KeyOf(s, a); key in t && t != s.table ==> RowFrom(key, t[key], begun, ids)
  {
    assert !a.Lock? ==> CallerFrom(s.callers[a.caller], begun, ids);
    assert KeyOf(s, a) in s.table ==> RowFrom(KeyOf(s, a), s.table[KeyOf(s, a)], begun, ids);
    hide From;
  }

  lemma RowsFrom(s: State, a: Action, begun: set<(string, string)>, ids: set<string>)
    requires From(s, begun, ids) && Enabled(s, a)
    ensures var t := Apply(s, a); forall k :: k in t.table ==> RowFrom(k, t.table[k], begun, ids)
  {
    if a.Crash? {
      assert Apply(s, a).table == s.table;
    } else {
      TableEffect(s, a);
      RowWritten(s, a, begun, ids);
    }
    hide Enabled, Apply, KeyOf, RowFrom;
  }

  lemma {:induction false} RunFrom(s: State, actions: seq<Action>, begun: set<(string, string)>, ids: set<string>)
    requires From(s, begun, ids) && AllEnabled(s, actions)
    requires Begun(actions) <= begun && Acknowledged(actions) <= ids
    ensures From(Run(s, actions), begun, ids)
    decreases |actions|
  {
    hide From, Enabled, Apply;
    if actions != [] {
      var a := actions[0];
      assert a in actions && forall x :: x in actions[1..] ==> x in actions;
      assert a.Lock? ==> (a.key, a.hash) in Begun(actions);
      assert a.Deliver? ==> a.messageId in Acknowledged(actions);
      CallersFrom(s, a, begun, ids);
      RowsFrom(s, a, begun, ids);
      assert From(Apply(s, a), begun, ids) by { FromParts(Apply(s, a), begun, ids); }
      RunFrom(Apply(s, a), actions[1..], begun, ids);
    }
  }

  lemma FromParts(s: State, begun: set<(string, string)>, ids: set<string>)
    requires forall c :: c in s.callers ==> CallerFrom(s.callers[c], begun, ids)
    requires forall k :: k in s.table ==> RowFrom(k, s.table[k], begun, ids)
    ensures From(s, begun, ids)
  {
  }

  /** Over every interleaving, with any errors and crashes: each row has the hash of a call that began on its key, and a
      row is sent only with a message id the provider gave. */
  lemma RowsComeFromCalls(actions: seq<Action>, key: string)
    requires AllEnabled(EMPTY, actions)
    requires key in Run(EMPTY, actions).table
    ensures var row := Run(EMPTY, actions).table[key];
      && (exists a :: a in actions && a.Lock? && a.key == key && a.hash == row.hash)
      && if row.sent then exists a :: a in actions && a.Deliver? && a.messageId == row.messageId else row.messageId == ""
  {
    RunFrom(EMPTY, actions, Begun(actions), Acknowledged(actions));
    var row := Run(EMPTY, actions).table[key];
    hide Run, AllEnabled;
    assert RowFrom(key, row, Begun(actions), Acknowledged(actions));
  }
}
