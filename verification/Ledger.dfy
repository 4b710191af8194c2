/** The idempotency ledger as a system of steps: callers, in-process locks, a durable table, crashes. */
module Ledger {
  import opened GoStrings

  /** A row of the table; its state is `pending` or `sent`. */
  datatype Entry = Entry(hash: string, sent: bool, messageId: string)

  /** Where a caller that holds the lock of its key stands. */
  datatype Phase =
    | Reading(key: string, hash: string)
    | Reserving(key: string, hash: string)
    | Holding(key: string, existed: bool, sent: bool)
    | Delivered(key: string, messageId: string)

  /** `table` is durable; `locks` (key to holder) and `callers` live in the process. The multisets
      count, per key: reports of a new key, deliveries by the provider, deliveries the table records,
      and deliveries whose acknowledgement was lost. */
  datatype State = State(table: map<string, Entry>, locks: map<string, nat>, callers: map<nat, Phase>,
                         reserved: multiset<string>, delivered: multiset<string>,
                         recorded: multiset<string>, lost: multiset<string>)

  datatype Action =
    | Lock(caller: nat, key: string, hash: string)
    | Read(caller: nat)
    | ReadFails(caller: nat)
    | Reserve(caller: nat)
    | ReserveFails(caller: nat, written: bool)
    | Replay(caller: nat)
    | Deliver(caller: nat, messageId: string)
    | DeliveryFails(caller: nat, deliveredAnyway: bool, again: bool)
    | Complete(caller: nat)
    | CompleteFails(caller: nat, written: bool)
    | Crash

  const EMPTY := State(map[], map[], map[], multiset{}, multiset{}, multiset{}, multiset{})

  /* ---- Steps ---- */

  /** The caller gives the lock back and is gone. */
  function Released(s: State, c: nat): (t: State)
    requires c in s.callers
    ensures t == s.(locks := t.locks, callers := t.callers)
  {
    s.(locks := s.locks - {s.callers[c].key}, callers := s.callers - {c})
  }

  /** The keys whose provider call succeeded but is not recorded yet. */
  function Unrecorded(s: State): set<string> {
    set c | c in s.callers && s.callers[c].Delivered? :: s.callers[c].key
  }

  predicate Enabled(s: State, a: Action) {
    match a
    case Lock(c, key, hash) => TrimSpace(key) != "" && c !in s.callers && key !in s.locks
    case Crash => true
    case Read(c) => c in s.callers && s.callers[c].Reading?
    case ReadFails(c) => c in s.callers && s.callers[c].Reading?
    case Reserve(c) => c in s.callers && s.callers[c].Reserving?
    case ReserveFails(c, written) => c in s.callers && s.callers[c].Reserving?
    case Replay(c) => c in s.callers && s.callers[c].Holding? && s.callers[c].existed && s.callers[c].sent
    case Deliver(c, id) => c in s.callers && s.callers[c].Holding? && !(s.callers[c].existed && s.callers[c].sent)
    case DeliveryFails(c, _, _) => c in s.callers && s.callers[c].Holding? && !(s.callers[c].existed && s.callers[c].sent)
    case Complete(c) => c in s.callers && s.callers[c].Delivered?
    case CompleteFails(c, written) => c in s.callers && s.callers[c].Delivered?
  }

  /** The UPDATE of `Complete`: it changes a row that exists. */
  function Recorded(s: State, key: string, messageId: string): (t: State)
    ensures t == s.(table := t.table, recorded := t.recorded, lost := t.lost)
  {
    if key in s.table then
      s.(table := s.table[key := s.table[key].(sent := true, messageId := messageId)],
         recorded := s.recorded + multiset{key})
    else s.(lost := s.lost + multiset{key})
  }

  function Apply(s: State, a: Action): State
    requires Enabled(s, a)
  {
    match a
    case Lock(c, key, hash) => s.(locks := s.locks[key := c], callers := s.callers[c := Reading(key, hash)])
    case Read(c) =>
      var key := s.callers[c].key;
      if key in s.table then s.(callers := s.callers[c := Holding(key, true, s.table[key].sent)])
      else s.(callers := s.callers[c := Reserving(key, s.callers[c].hash)])
    case ReadFails(c) => Released(s, c)
    case Reserve(c) =>
      var key := s.callers[c].key;
      if key in s.table then Released(s, c)
      else s.(table := s.table[key := Entry(s.callers[c].hash, false, "")],
              callers := s.callers[c := Holding(key, false, false)],
              reserved := s.reserved + multiset{key})
    case ReserveFails(c, written) =>
      var key := s.callers[c].key;
      var r := Released(s, c);
      if written && key !in s.table then r.(table := s.table[key := Entry(s.callers[c].hash, false, "")]) else r
    case Replay(c) => Released(s, c)
    case Deliver(c, id) =>
      var key := s.callers[c].key;
      s.(callers := s.callers[c := Delivered(key, id)], delivered := s.delivered + multiset{key})
    case DeliveryFails(c, deliveredAnyway, again) =>
      var key := s.callers[c].key;
      var r := if again then s else Released(s, c);
      if deliveredAnyway then r.(delivered := s.delivered + multiset{key}, lost := s.lost + multiset{key}) else r
    case Complete(c) => Released(Recorded(s, s.callers[c].key, s.callers[c].messageId), c)
    case CompleteFails(c, written) =>
      if written then Released(Recorded(s, s.callers[c].key, s.callers[c].messageId), c)
      else Released(s, c).(lost := s.lost + multiset{s.callers[c].key})
    case Crash => s.(locks := map[], callers := map[], lost := s.lost + multiset(Unrecorded(s)))
  }

  ghost predicate AllEnabled(s: State, actions: seq<Action>)
    decreases |actions|
  {
    actions == [] || (Enabled(s, actions[0]) && AllEnabled(Apply(s, actions[0]), actions[1..]))
  }

  ghost function Run(s: State, actions: seq<Action>): State
    requires AllEnabled(s, actions)
    decreases |actions|
  {
    if actions == [] then s else Run(Apply(s, actions[0]), actions[1..])
  }
}
