/** Proposals for rules and the race between their decisions: concurrent `Approve` and `Reject` calls. */
module Proposals {

  datatype Decision = Undecided | Approved(ruleId: string) | Rejected

  /** What a rule in the store is there for: a call still works on it, an approval recorded it, or a
      store error or a crash left it behind. */
  datatype Use = InFlight(caller: nat) | Recorded | Leftover

  datatype StoredRule = StoredRule(proposal: string, use: Use)

  /** Where a call stands. */
  datatype Phase =
    | Reading(id: string)
    | Creating(id: string)
    | Updating(id: string, ruleId: string)
    | Undoing(id: string, ruleId: string)
    | Rejecting(id: string)
    | Rechecking(id: string)

  /** `proposals` and `rules` are the tables. The multisets count, per proposal: changes of its status,
      calls that report success, and calls that report that it was already decided. `started` are the stored
      proposals on which a call was begun. */
  datatype State = State(proposals: map<string, Decision>, rules: map<string, StoredRule>, callers: map<nat, Phase>,
                         changed: multiset<string>, won: multiset<string>, late: multiset<string>, faults: nat,
                         started: set<string>)

  /** Steps of a call that end in a store error carry whether the write took effect all the same. */
  datatype Action =
    | Propose(id: string)
    | Approve(caller: nat, id: string)
    | Reject(caller: nat, id: string)
    | Read(caller: nat)
    | Create(caller: nat, ruleId: string)
    | Update(caller: nat)
    | UpdateFails(caller: nat, written: bool)
    | Delete(caller: nat)
    | DeleteFails(caller: nat)
    | UpdateRejected(caller: nat)
    | UpdateRejectedFails(caller: nat, written: bool)
    | Recheck(caller: nat)
    | OtherFails(caller: nat)
    | Crash

  const EMPTY := State(map[], map[], map[], multiset{}, multiset{}, multiset{}, 0, {})

  predicate IsUndecided(s: State, id: string) {
    id in s.proposals && s.proposals[id] == Undecided
  }

  /** The call returns. */
  function Gone(s: State, c: nat): map<nat, Phase> {
    s.callers - {c}
  }

  /** Ids of new proposals and rules are random: they are not in use. */
  predicate Enabled(s: State, a: Action) {
    match a
    case Propose(id) => id !in s.proposals && forall c <- s.callers :: s.callers[c].id != id
    case Approve(c, _) => c !in s.callers
    case Reject(c, _) => c !in s.callers
    case Read(c) => c in s.callers && s.callers[c].Reading?
    case Create(c, ruleId) => c in s.callers && s.callers[c].Creating? && ruleId !in s.rules
    case Update(c) => c in s.callers && s.callers[c].Updating? && s.callers[c].ruleId in s.rules
    case UpdateFails(c, _) => c in s.callers && s.callers[c].Updating? && s.callers[c].ruleId in s.rules
    case Delete(c) => c in s.callers && s.callers[c].Undoing?
    case DeleteFails(c) => c in s.callers && s.callers[c].Undoing? && s.callers[c].ruleId in s.rules
    case UpdateRejected(c) => c in s.callers && s.callers[c].Rejecting?
    case UpdateRejectedFails(c, _) => c in s.callers && s.callers[c].Rejecting?
    case Recheck(c) => c in s.callers && s.callers[c].Rechecking?
    case OtherFails(c) => c in s.callers && (s.callers[c].Reading? || s.callers[c].Creating? || s.callers[c].Rechecking?)
    case Crash => true
  }

  /** The rule gets another use. */
  function Marked(s: State, ruleId: string, use: Use): map<string, StoredRule>
    requires ruleId in s.rules
  {
    s.rules[ruleId := s.rules[ruleId].(use := use)]
  }

  /** A call is begun. */
  function Begun(s: State, id: string): State {
    if id in s.proposals then s.(started := s.started + {id}) else s
  }

  /** A crash: every call is gone, and what it worked on is left behind. */
  function AfterCrash(s: State): State {
    s.(callers := map[], faults := s.faults + 1,
       rules := map r | r in s.rules :: if s.rules[r].use.InFlight? then s.rules[r].(use := Leftover) else s.rules[r])
  }

  predicate OfApproval(a: Action) {
    a.Read? || a.Create? || a.Update? || a.UpdateFails? || a.Delete? || a.DeleteFails?
  }

  predicate OfRejection(a: Action) {
    a.UpdateRejected? || a.UpdateRejectedFails? || a.Recheck?
  }

  /** Steps of an approval. */
  function ApplyApproval(s: State, a: Action): State
    requires Enabled(s, a) && OfApproval(a)
  {
    var c := a.caller;
    var id := s.callers[c].id;
    match a
    case Read(_) =>
      if id !in s.proposals then s.(callers := Gone(s, c))
      else if s.proposals[id] != Undecided then s.(callers := Gone(s, c), late := s.late + multiset{id})
      else s.(callers := s.callers[c := Creating(id)])
    case Create(_, ruleId) =>
      s.(rules := s.rules[ruleId := StoredRule(id, InFlight(c))], callers := s.callers[c := Updating(id, ruleId)])
    case Update(_) =>
      var ruleId := s.callers[c].ruleId;
      if IsUndecided(s, id) then
        s.(proposals := s.proposals[id := Approved(ruleId)], rules := Marked(s, ruleId, Recorded), callers := Gone(s, c),
           changed := s.changed + multiset{id}, won := s.won + multiset{id})
      else s.(callers := s.callers[c := Undoing(id, ruleId)])
    case UpdateFails(_, written) =>
      var ruleId := s.callers[c].ruleId;
      if written && IsUndecided(s, id) then
        s.(proposals := s.proposals[id := Approved(ruleId)], rules := Marked(s, ruleId, Recorded), callers := Gone(s, c),
           changed := s.changed + multiset{id}, faults := s.faults + 1)
      else s.(rules := Marked(s, ruleId, Leftover), callers := Gone(s, c), faults := s.faults + 1)
    case Delete(_) =>
      s.(rules := s.rules - {s.callers[c].ruleId}, callers := Gone(s, c), late := s.late + multiset{id})
    case DeleteFails(_) =>
      s.(rules := Marked(s, s.callers[c].ruleId, Leftover), callers := Gone(s, c), late := s.late + multiset{id},
         faults := s.faults + 1)
  }

  /** Steps of a rejection. */
  function ApplyRejection(s: State, a: Action): State
    requires Enabled(s, a) && OfRejection(a)
  {
    var c := a.caller;
    var id := s.callers[c].id;
    match a
    case UpdateRejected(_) =>
      if IsUndecided(s, id) then
        s.(proposals := s.proposals[id := Rejected], callers := Gone(s, c),
           changed := s.changed + multiset{id}, won := s.won + multiset{id})
      else s.(callers := s.callers[c := Rechecking(id)])
    case UpdateRejectedFails(_, written) =>
      if written && IsUndecided(s, id) then
        s.(proposals := s.proposals[id := Rejected], callers := Gone(s, c),
           changed := s.changed + multiset{id}, faults := s.faults + 1)
      else s.(callers := Gone(s, c), faults := s.faults + 1)
    case Recheck(_) =>
      s.(callers := Gone(s, c), late := if id in s.proposals then s.late + multiset{id} else s.late)
  }

  function Apply(s: State, a: Action): State
    requires Enabled(s, a)
  {
    if OfApproval(a) then ApplyApproval(s, a)
    else if OfRejection(a) then ApplyRejection(s, a)
    else match a
    case Propose(id) => s.(proposals := s.proposals[id := Undecided])
    case Approve(c, id) => Begun(s, id).(callers := s.callers[c := Reading(id)])
    case Reject(c, id) => Begun(s, id).(callers := s.callers[c := Rejecting(id)])
    case OtherFails(c) => s.(callers := Gone(s, c), faults := s.faults + 1)
    case Crash => AfterCrash(s)
  }

  ghost predicate AllEnabled(s: State, actions: seq<Action>)
    decreases |actions|
  {
    actions == [] || (Enabled(s, actions[0]) && AllEnabled(Apply(s, actions[0]), actions[1..]))
  }

  ghost function Run(s: State, actions: seq<Action>): State
    requires AllEnabled(s, actions)
    decreases |actions|
  {
    if actions == [] then s else Run(Apply(s, actions[0]), actions[1..])
  }
}
