/** The ledger object and `Send`: an uninterrupted attempt is a run of the step system. */
module LedgerStore {
  import opened GoStrings
  import opened Ledger
  import opened LedgerLaws

  const RETRIES: nat := 2

  /** How a database write can go wrong: it reports an error, and the row may be written or not. */
  datatype Fault = NoFault | Fails(written: bool)

  datatype BeginResult = NoKey | ReadError | ReserveError | Begun(existed: bool, entry: Entry)

  /** What the provider answers to one call. */
  datatype Reply = Success(messageId: string) | Transient(delivered: bool) | Permanent(delivered: bool)

  datatype SendResult = Refused | NotSent | Sent(messageId: string, replayed: bool)

  /** What `Begin` answers. */
  function Answer(table: map<string, Entry>, key: string, hash: string, readFails: bool, reserve: Fault): BeginResult {
    if TrimSpace(key) == "" then NoKey
    else if readFails then ReadError
    else if key in table then Begun(true, table[key])
    else if reserve.Fails? then ReserveError
    else Begun(false, Entry(hash, false, ""))
  }

  /** The table after `Begin`. */
  function Reservation(table: map<string, Entry>, key: string, hash: string, readFails: bool,
      reserve: Fault): map<string, Entry> {
    if TrimSpace(key) != "" && !readFails && key !in table && (reserve.NoFault? || reserve.written)
    then table[key := Entry(hash, false, "")] else table
  }

  /** A call that begins holds the row it is told of; a row of its own has its hash. */
  lemma BeginAnswers(table: map<string, Entry>, key: string, hash: string, readFails: bool, reserve: Fault)
    ensures var b, t := Answer(table, key, hash, readFails, reserve), Reservation(table, key, hash, readFails, reserve);
      && (b.Begun? <==> TrimSpace(key) != "" && !readFails && (key in table || reserve.NoFault?))
      && (key in table ==> t == table)
      && (b.Begun? ==> key in t && t[key] == b.entry && t - {key} == table - {key} && (b.existed <==> key in table))
      && (b.Begun? && key !in table ==> b.entry == Entry(hash, false, ""))
  {
  }

  /* ---- The steps an attempt takes ---- */

  lemma LockStep(s: State, c: nat, key: string, hash: string)
    requires Enabled(s, Lock(c, key, hash))
    ensures Apply(s, Lock(c, key, hash)) == s.(locks := s.locks[key := c], callers := s.callers[c := Reading(key, hash)])
  {
  }

  lemma ReadStep(s: State, c: nat)
    requires Enabled(s, Read(c))
    ensures var key := s.callers[c].key;
      Apply(s, Read(c)) == s.(callers := s.callers[c := if key in s.table then Holding(key, true, s.table[key].sent)
                                                        else Reserving(key, s.callers[c].hash)])
  {
  }

  lemma ReserveStep(s: State, c: nat)
    requires Enabled(s, Reserve(c)) && s.callers[c].key !in s.table
    ensures var key, t := s.callers[c].key, Apply(s, Reserve(c));
      && t.table == s.table[key := Entry(s.callers[c].hash, false, "")] && t.locks == s.locks
      && t.callers == s.callers[c := Holding(key, false, false)]
  {
  }

  /** The lock is given back, the rest is as the step says. */
  ghost predicate Gone(s: State, t: State, c: nat) {
    c in s.callers && t.locks == s.locks - {s.callers[c].key} && t.callers == s.callers - {c}
  }

  lemma FailureSteps(s: State, c: nat)
    ensures Enabled(s, ReadFails(c)) ==> Apply(s, ReadFails(c)) == Released(s, c)
    ensures Enabled(s, Replay(c)) ==> Apply(s, Replay(c)) == Released(s, c)
    ensures c in s.callers ==> Gone(s, Released(s, c), c)
  {
  }

  lemma ReserveFailsStep(s: State, c: nat, written: bool)
    requires Enabled(s, ReserveFails(c, written)) && s.callers[c].key !in s.table
    ensures var t := Apply(s, ReserveFails(c, written));
      && Gone(s, t, c)
      && t.table == if written then s.table[s.callers[c].key := Entry(s.callers[c].hash, false, "")] else s.table
  {
  }

  lemma DeliverSteps(s: State, c: nat, messageId: string, delivered: bool)
    requires Enabled(s, Deliver(c, messageId))
    ensures var t := Apply(s, Deliver(c, messageId));
      t.table == s.table && t.locks == s.locks && t.callers == s.callers[c := Delivered(s.callers[c].key, messageId)]
    ensures Enabled(s, DeliveryFails(c, delivered, false)) && Enabled(s, DeliveryFails(c, delivered, true))
    ensures var t := Apply(s, DeliveryFails(c, delivered, false)); Gone(s, t, c) && t.table == s.table
    ensures var t := Apply(s, DeliveryFails(c, delivered, true));
      t.table == s.table && t.locks == s.locks && t.callers == s.callers
  {
  }

  /* ---- The object ---- */

  /** The steps can be taken from the empty system and lead to the state. */
  ghost predicate IsRun(trace: seq<Action>, s: State) {
    AllEnabled(EMPTY, trace) && Run(EMPTY, trace) == s
  }

  lemma RunSnoc(trace: seq<Action>, s: State, a: Action)
    requires IsRun(trace, s) && Enabled(s, a)
    ensures IsRun(trace + [a], Apply(s, a))
  {
    RunThen(EMPTY, trace, a);
    hide Enabled, Apply;
  }

  lemma {:induction false} RunThen(s: State, trace: seq<Action>, a: Action)
    requires AllEnabled(s, trace) && Enabled(Run(s, trace), a)
    ensures AllEnabled(s, trace + [a]) && Run(s, trace + [a]) == Apply(Run(s, trace), a)
    decreases |trace|
  {
    hide Enabled, Apply;
    if trace == [] {
      assert [] + [a] == [a] && [a][1..] == [];
    } else {
      assert (trace + [a])[0] == trace[0] && (trace + [a])[1..] == trace[1..] + [a];
      RunThen(Apply(s, trace[0]), trace[1..], a);
    }
  }

  class Store {
    var table: map<string, Entry>
    var locked: set<string>
    ghost var trace: seq<Action>
    ghost var state: State

    /** The object shows the state that the steps taken so far lead to. */
    ghost predicate Valid()
      reads this
    {
      Inv(state) && IsRun(trace, state) && state.table == table && state.locks.Keys == locked
    }

    constructor ()
      ensures Valid() && trace == [] && state == EMPTY
    {
      table, locked := map[], {};
      trace, state := [], EMPTY;
      new;
      EmptyInv();
    }

    /** One step of the system is taken. */
    ghost method Step(a: Action)
      requires Inv(state) && IsRun(trace, state) && Enabled(state, a)
      modifies this`state, this`trace
      ensures trace == old(trace) + [a] && IsRun(trace, state)
      ensures state == Apply(old(state), a) && Inv(state) && RowsKept(old(state), state)
    {
      StepKeepsInv(state, a);
      RunSnoc(trace, state, a);
      hide *;
      trace := trace + [a];
      state := Apply(state, a);
    }

    /** The INSERT of `Begin`; on an error the lock is given back. */
    method Insert(ghost c: nat, key: string, hash: string, reserve: Fault) returns (r: BeginResult)
      requires Valid() && c in state.callers && state.callers[c] == Reserving(key, hash)
      modifies this
      ensures Valid() && old(trace) <= trace && key !in old(table)
      ensures r == if reserve.Fails? then ReserveError else Begun(false, Entry(hash, false, ""))
      ensures table == if reserve != Fails(false) then old(table)[key := Entry(hash, false, "")] else old(table)
      ensures locked == if reserve.Fails? then old(locked) - {key} else old(locked)
      ensures state.callers == if reserve.Fails? then old(state.callers) - {c}
                               else old(state.callers)[c := Holding(key, false, false)]
    {
      assert OwnsLock(state, c) && LockOwned(state, key);
      hide Inv, IsRun, RowsKept, Apply;
      match reserve {
        case NoFault =>
          ReserveStep(state, c);
          Step(Reserve(c));
          table := table[key := Entry(hash, false, "")];
          return Begun(false, Entry(hash, false, ""));
        case Fails(written) =>
          ReserveFailsStep(state, c, written);
          Step(ReserveFails(c, written));
          if written {
            table := table[key := Entry(hash, false, "")];
          }
          locked := locked - {key};
          return ReserveError;
      }
    }

    /** The SELECT of `Begin`, and the INSERT when there is no row. */
    method Lookup(ghost c: nat, key: string, hash: string, readFails: bool, reserve: Fault) returns (r: BeginResult)
      requires Valid() && c in state.callers && state.callers[c] == Reading(key, hash) && TrimSpace(key) != ""
      modifies this
      ensures Valid() && old(trace) <= trace
      ensures r == Answer(old(table), key, hash, readFails, reserve)
      ensures table == Reservation(old(table), key, hash, readFails, reserve)
      ensures locked == if r.Begun? then old(locked) else old(locked) - {key}
      ensures state.callers == if r.Begun? then old(state.callers)[c := Holding(key, r.existed, r.entry.sent)]
                               else old(state.callers) - {c}
    {
      hide Inv, IsRun, RowsKept, TrimSpace, Apply, Released;
      if readFails {
        FailureSteps(state, c);
        Step(ReadFails(c));
        locked := locked - {key};
        return ReadError;
      }
      ReadStep(state, c);
      Step(Read(c));
      if key in table {
        return Begun(true, table[key]);
      }
      r := Insert(c, key, hash, reserve);
    }

    /** Reserves the key for caller `c`; the source waits while the key is locked. */
    method Begin(ghost c: nat, key: string, hash: string, readFails: bool, reserve: Fault) returns (r: BeginResult)
      requires Valid() && key !in locked && c !in state.callers
      modifies this
      ensures Valid() && old(trace) <= trace
      ensures r == Answer(old(table), key, hash, readFails, reserve)
      ensures table == Reservation(old(table), key, hash, readFails, reserve)
      ensures locked == if r.Begun? then old(locked) + {key} else old(locked)
      ensures state.callers == if r.Begun? then old(state.callers)[c := Holding(key, r.existed, r.entry.sent)]
                               else old(state.callers)
    {
      hide Inv, IsRun, RowsKept, TrimSpace, Apply, Released;
      if TrimSpace(key) == "" {
        return NoKey;
      }
      LockStep(state, c, key, hash);
      Step(Lock(c, key, hash));
      locked := locked + {key};
      hide Enabled, Answer, Reservation;
      r := Lookup(c, key, hash, readFails, reserve);
    }

    /** `Complete` followed by the unlock. */
    method Complete(ghost c: nat, key: string, messageId: string, fault: Fault)
      requires Valid() && c in state.callers && state.callers[c] == Delivered(key, messageId)
      modifies this
      ensures Valid() && old(trace) <= trace
      ensures key in old(table)
      ensures table == if fault == Fails(false) then old(table)
                       else old(table)[key := Entry(old(table)[key].hash, true, messageId)]
      ensures locked == old(locked) - {key} && state.callers == old(state.callers) - {c}
    {
      assert OwnsLock(state, c) && LockOwned(state, key);
      hide Inv, IsRun, RowsKept;
      match fault {
        case NoFault =>
          Step(Ledger.Complete(c));
          table := table[key := table[key].(sent := true, messageId := messageId)];
        case Fails(written) =>
          Step(CompleteFails(c, written));
          if written {
            table := table[key := table[key].(sent := true, messageId := messageId)];
          }
      }
      locked := locked - {key};
    }

    /** One provider call; unless it succeeds or is tried again, the caller gives up its lock. */
    method Call(ghost c: nat, key: string, reply: Reply, again: bool)
      requires Valid() && c in state.callers && state.callers[c].Holding? && state.callers[c].key == key
      requires !(state.callers[c].existed && state.callers[c].sent)
      modifies this`state, this`trace, this`locked
      ensures Valid() && old(trace) <= trace
      ensures locked == if reply.Success? || (reply.Transient? && again) then old(locked) else old(locked) - {key}
      ensures state.callers == if reply.Success? then old(state.callers)[c := Delivered(key, reply.messageId)]
                               else if reply.Transient? && again then old(state.callers) else old(state.callers) - {c}
    {
      hide Inv, IsRun, RowsKept, Apply;
      match reply {
        case Success(id) =>
          DeliverSteps(state, c, id, false);
          Step(Deliver(c, id));
        case Transient(delivered) =>
          DeliverSteps(state, c, "", delivered);
          Step(DeliveryFails(c, delivered, again));
          locked := if again then locked else locked - {key};
        case Permanent(delivered) =>
          DeliverSteps(state, c, "", delivered);
          Step(DeliveryFails(c, delivered, false));
          locked := locked - {key};
      }
    }

    /** Calls the provider until it succeeds, fails for good or has been tried three times. */
    method WriteCall(ghost c: nat, key: string, replies: nat -> Reply) returns (ok: bool, messageId: string, calls: nat)
      requires Valid() && c in state.callers && state.callers[c].Holding? && state.callers[c].key == key
      requires !(state.callers[c].existed && state.callers[c].sent)
      modifies this`state, this`trace, this`locked
      ensures Valid() && old(trace) <= trace && 1 <= calls <= RETRIES + 1
      ensures forall n :: 0 <= n < calls - 1 ==> replies(n).Transient?
      ensures replies(calls - 1).Transient? ==> calls == RETRIES + 1
      ensures ok <==> replies(calls - 1).Success?
      ensures if ok then
                && replies(calls - 1) == Success(messageId) && locked == old(locked)
                && state.callers == old(state.callers)[c := Delivered(key, messageId)]
              else locked == old(locked) - {key} && state.callers == old(state.callers) - {c}
    {
      hide *;
      calls, messageId := 0, "";
      while true
        invariant Valid() && old(trace) <= trace && state.callers == old(state.callers) && locked == old(locked)
        invariant calls <= RETRIES && forall n :: 0 <= n < calls ==> replies(n).Transient?
        decreases RETRIES - calls
      {
        var reply := replies(calls);
        Call(c, key, reply, calls < RETRIES);
        calls := calls + 1;
        if reply.Success? {
          return true, reply.messageId, calls;
        }
        if reply.Permanent? || calls > RETRIES {
          return false, "", calls;
        }
      }
    }

    /** The provider call and the record of it. */
    method CallAndRecord(ghost c: nat, key: string, replies: nat -> Reply,
        record: Fault) returns (r: SendResult, calls: nat)
      requires Valid() && c in state.callers && state.callers[c].Holding? && state.callers[c].key == key
      requires !(state.callers[c].existed && state.callers[c].sent)
      modifies this
      ensures Valid() && old(trace) <= trace && locked == old(locked) - {key} && state.callers == old(state.callers) - {c}
      ensures r == NotSent || (r.Sent? && !r.replayed && calls > 0 && replies(calls - 1) == Success(r.messageId))
      ensures key in old(table)
      ensures table == if r.Sent? && record != Fails(false)
                       then old(table)[key := Entry(old(table)[key].hash, true, r.messageId)] else old(table)
      ensures 1 <= calls <= RETRIES + 1
    {
      assert OwnsLock(state, c) && LockOwned(state, key);
      hide Inv, IsRun, RowsKept, Enabled;
      assert key in table;
      var ok, id, n := WriteCall(c, key, replies);
      if !ok {
        return NotSent, n;
      }
      Complete(c, key, id, record);
      return Sent(id, false), n;
    }

    /** Nothing is sent again: the lock is given back. */
    method ReplaySent(ghost c: nat, key: string)
      requires Valid() && c in state.callers && state.callers[c].Holding? && state.callers[c].key == key
      requires state.callers[c].existed && state.callers[c].sent
      modifies this`state, this`trace, this`locked
      ensures Valid() && old(trace) <= trace && locked == old(locked) - {key} && state.callers == old(state.callers) - {c}
    {
      hide Inv, IsRun, RowsKept, Apply, Released;
      FailureSteps(state, c);
      Step(Replay(c));
      locked := locked - {key};
    }

    /** One attempt to send: a recorded message is replayed without a provider call. */
    method Send(ghost c: nat, key: string, hash: string, readFails: bool, reserve: Fault,
        replies: nat -> Reply, record: Fault)
        returns (r: SendResult, calls: nat)
      requires Valid() && key !in locked && c !in state.callers
      modifies this
      ensures Valid() && old(trace) <= trace && locked == old(locked) && state.callers == old(state.callers)
      ensures r == Refused <==> !Answer(old(table), key, hash, readFails, reserve).Begun?
      ensures r == Refused ==> calls == 0
      ensures key in old(table) && old(table)[key].sent && !readFails && TrimSpace(key) != "" ==>
        r == Sent(old(table)[key].messageId, true)
      ensures r.Sent? && r.replayed ==>
        calls == 0 && table == old(table) && key in table && table[key].sent && table[key].messageId == r.messageId
      ensures r.Sent? && !r.replayed ==> calls > 0 && replies(calls - 1) == Success(r.messageId)
      ensures r.Sent? && record != Fails(false) ==> key in table && table[key].sent && table[key].messageId == r.messageId
      ensures r == NotSent || r.Sent? ==> key in table && table - {key} == old(table) - {key}
      ensures r == NotSent || r.Sent? ==> table[key].hash == if key in old(table) then old(table)[key].hash else hash
      ensures r == NotSent || (r.Sent? && !r.replayed && record == Fails(false)) ==> !table[key].sent
      ensures key in old(table) && old(table)[key].sent ==> calls == 0 && table == old(table)
      ensures calls <= RETRIES + 1
    {
      hide *;
      BeginAnswers(table, key, hash, readFails, reserve);
      var b := Begin(c, key, hash, readFails, reserve);
      if !b.Begun? {
        return Refused, 0;
      }
      assert state.callers - {c} == old(state.callers) && locked - {key} == old(locked);
      if b.existed && b.entry.sent {
        ReplaySent(c, key);
        return Sent(b.entry.messageId, true), 0;
      }
      r, calls := CallAndRecord(c, key, replies, record);
    }
  }
}
