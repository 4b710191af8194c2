/** What every interleaving of decisions on proposals keeps. */
module ProposalLaws {
  import opened Proposals

  function One(b: bool): nat { if b then 1 else 0 }

  predicate IsDecided(s: State, id: string) {
    id in s.proposals && s.proposals[id] != Undecided
  }

  /** What the phase of a call says about the tables. */
  predicate CallFits(s: State, c: nat) {
    c in s.callers ==>
      match s.callers[c]
      case Updating(id, ruleId) =>
        id in s.proposals && ruleId in s.rules && s.rules[ruleId] == StoredRule(id, InFlight(c))
      case Undoing(id, ruleId) => IsDecided(s, id) && ruleId in s.rules && s.rules[ruleId] == StoredRule(id, InFlight(c))
      case Creating(id) => id in s.proposals
      case Rechecking(id) => id in s.proposals ==> IsDecided(s, id)
      case _ => true
  }

  /** Every rule is recorded by its proposal, held by a call, or left behind by a fault. */
  predicate RuleFits(s: State, r: string) {
    r in s.rules ==>
      var p := s.rules[r].proposal;
      match s.rules[r].use
      case Recorded => p in s.proposals && s.proposals[p] == Approved(r)
      case InFlight(c) =>
        c in s.callers && (s.callers[c].Updating? || s.callers[c].Undoing?) && s.callers[c].id == p && s.callers[c].ruleId == r
      case Leftover => s.faults > 0
  }

  /** The accounts of one proposal. */
  predicate DecisionFits(s: State, id: string) {
    && (id in s.proposals && s.proposals[id].Approved? ==>
      s.proposals[id].ruleId in s.rules && s.rules[s.proposals[id].ruleId] == StoredRule(id, Recorded))
    && s.changed[id] == One(IsDecided(s, id))
    && s.won[id] <= s.changed[id]
    && (s.faults == 0 ==> s.won[id] == s.changed[id])
    && (s.late[id] > 0 ==> IsDecided(s, id))
  }

  /** Some call works on the proposal. */
  ghost predicate Working(s: State, id: string) {
    exists c :: c in s.callers && s.callers[c].id == id
  }

  /** A begun call does not vanish without a fault: the proposal is decided, or some call still works on it. */
  ghost predicate Underway(s: State, id: string) {
    id in s.started ==> id in s.proposals && (s.faults == 0 ==> IsDecided(s, id) || Working(s, id))
  }

  ghost predicate Inv(s: State) {
    && (forall c :: CallFits(s, c))
    && (forall r :: RuleFits(s, r))
    && (forall id :: DecisionFits(s, id))
    && (forall id :: Underway(s, id))
  }

  /** A decision, once made, never changes; proposals stay. */
  ghost predicate DecisionsKept(s: State, t: State) {
    forall id :: id in s.proposals ==>
      id in t.proposals && (s.proposals[id] != Undecided ==> t.proposals[id] == s.proposals[id])
  }

  /* ---- One step ---- */

  /** The parts of the invariant for one call, one rule and one proposal. */
  predicate Fits(s: State, c: nat, r: string, id: string) {
    CallFits(s, c) && RuleFits(s, r) && DecisionFits(s, id)
  }

  lemma ApprovalCall(s: State, a: Action, c: nat)
    requires Enabled(s, a) && OfApproval(a) && CallFits(s, a.caller) && CallFits(s, c)
    ensures CallFits(ApplyApproval(s, a), c)
  {
  }

  lemma ApprovalRule(s: State, a: Action, r: string)
    requires Enabled(s, a) && OfApproval(a) && CallFits(s, a.caller) && RuleFits(s, r)
    ensures RuleFits(ApplyApproval(s, a), r)
  {
  }

  lemma ApprovalDecision(s: State, a: Action, id: string)
    requires Enabled(s, a) && OfApproval(a) && CallFits(s, a.caller) && DecisionFits(s, id)
    ensures DecisionFits(ApplyApproval(s, a), id)
  {
  }

  lemma RejectionStep(s: State, a: Action, c: nat, r: string, id: string)
    requires Enabled(s, a) && OfRejection(a) && CallFits(s, a.caller) && Fits(s, c, r, id)
    ensures Fits(ApplyRejection(s, a), c, r, id)
  {
  }

  lemma OtherStep(s: State, a: Action, c: nat, r: string, id: string)
    requires Enabled(s, a) && !OfApproval(a) && !OfRejection(a) && Fits(s, c, r, id)
    requires !a.Propose? && !a.Crash? ==> CallFits(s, a.caller)
    ensures Fits(Apply(s, a), c, r, id)
  {
  }

  lemma StepFits(s: State, a: Action, c: nat, r: string, id: string)
    requires Inv(s) && Enabled(s, a)
    ensures Fits(Apply(s, a), c, r, id)
  {
    assert CallFits(s, c) && RuleFits(s, r) && DecisionFits(s, id);
    assert !a.Propose? && !a.Crash? ==> CallFits(s, a.caller);
    hide Inv, CallFits, RuleFits, DecisionFits, ApplyApproval, ApplyRejection, AfterCrash, Enabled;
    if OfApproval(a) {
      ApprovalCall(s, a, c);
      ApprovalRule(s, a, r);
      ApprovalDecision(s, a, id);
    } else if OfRejection(a) {
      RejectionStep(s, a, c, r, id);
    } else {
      OtherStep(s, a, c, r, id);
    }
  }

  /** A step of one call: the call stays at its proposal, or the proposal is decided, or there was a fault. */
  lemma CallStays(s: State, a: Action)
    requires Enabled(s, a) && !a.Propose? && !a.Approve? && !a.Reject? && !a.Crash? && CallFits(s, a.caller)
    requires s.callers[a.caller].id in s.proposals
    ensures var t, id := Apply(s, a), s.callers[a.caller].id;
      IsDecided(t, id) || t.faults > 0 || (a.caller in t.callers && t.callers[a.caller].id == id)
  {
  }

  lemma OthersStay(s: State, a: Action, c: nat)
    requires Enabled(s, a) && !a.Crash? && c in s.callers && (a.Propose? || c != a.caller)
    ensures c in Apply(s, a).callers && Apply(s, a).callers[c] == s.callers[c]
  {
  }

  lemma StartedStep(s: State, a: Action, id: string)
    requires Enabled(s, a)
    ensures var t := Apply(s, a);
      && s.faults <= t.faults && (a.Crash? ==> t.faults > 0)
      && (id in t.started ==> id in s.started || ((a.Approve? || a.Reject?) && a.id == id && id in s.proposals))
      && (a.Approve? || a.Reject? ==> a.caller in t.callers && t.callers[a.caller].id == a.id)
  {
  }

  lemma StepUnderway(s: State, a: Action, id: string)
    requires Inv(s) && Enabled(s, a)
    ensures Underway(Apply(s, a), id)
  {
    var t := Apply(s, a);
    assert Underway(s, id);
    assert !a.Propose? && !a.Crash? ==> CallFits(s, a.caller);
    StartedStep(s, a, id);
    StepKeepsDecisions(s, a);
    assert !a.Propose? && !a.Approve? && !a.Reject? && !a.Crash? ==> a.caller in s.callers;
    hide Apply, Enabled, Inv, CallFits;
    if id in t.started && t.faults == 0 && !IsDecided(t, id) {
      if id in s.started {
        var c :| c in s.callers && s.callers[c].id == id;
        if a.Propose? || c != a.caller {
          OthersStay(s, a, c);
        } else {
          StillThere(s, a, c);
        }
      }
    }
  }

  /** The acting call itself is still there, if its proposal is undecided and there was no fault. */
  lemma StillThere(s: State, a: Action, c: nat)
    requires Enabled(s, a) && !a.Propose? && !a.Crash? && CallFits(s, c) && c == a.caller && c in s.callers
    requires s.callers[c].id in s.proposals
    requires Apply(s, a).faults == 0 && !IsDecided(Apply(s, a), s.callers[c].id)
    ensures c in Apply(s, a).callers && Apply(s, a).callers[c].id == s.callers[c].id
  {
    CallStays(s, a);
  }

  lemma StepKeepsDecisions(s: State, a: Action)
    requires Enabled(s, a)
    ensures DecisionsKept(s, Apply(s, a))
  {
  }

  lemma StepKeepsInv(s: State, a: Action)
    requires Inv(s) && Enabled(s, a)
    ensures Inv(Apply(s, a)) && DecisionsKept(s, Apply(s, a))
  {
    StepKeepsDecisions(s, a);
    var t := Apply(s, a);
    hide Apply, Enabled, CallFits, RuleFits, DecisionFits, Underway, DecisionsKept;
    forall c
      ensures CallFits(t, c)
    {
      StepFits(s, a, c, "", "");
    }
    forall r
      ensures RuleFits(t, r)
    {
      StepFits(s, a, 0, r, "");
    }
    forall id
      ensures DecisionFits(t, id)
    {
      StepFits(s, a, 0, "", id);
    }
    forall id
      ensures Underway(t, id)
    {
      StepUnderway(s, a, id);
    }
  }

  /* ---- Whole runs ---- */

  lemma EmptyInv()
    ensures Inv(EMPTY)
  {
  }

  lemma {:induction false} RunKeepsInv(s: State, actions: seq<Action>)
    requires Inv(s) && AllEnabled(s, actions)
    ensures Inv(Run(s, actions)) && DecisionsKept(s, Run(s, actions))
    decreases |actions|
  {
    hide Inv, Apply, Enabled;
    if actions != [] {
      var t := Apply(s, actions[0]);
      StepKeepsInv(s, actions[0]);
      RunKeepsInv(t, actions[1..]);
    }
  }

  /** No call works on the proposal. */
  ghost predicate Quiet(s: State, id: string) {
    forall c :: c in s.callers ==> s.callers[c].id != id
  }

  /** The rules in the store that come from the proposal. */
  function RulesOf(s: State, id: string): set<string> {
    set r | r in s.rules && s.rules[r].proposal == id
  }

  /** Over every interleaving of calls without store errors and crashes: a proposal is decided at most
      once; a call that has reported success or "already decided" means exactly one success; and once all
      calls on it have returned, exactly one of them has won if any was begun, and the rules that come from
      it are the recorded one when it was approved, and none otherwise. */
  lemma OneDecisionWins(actions: seq<Action>, id: string)
    requires AllEnabled(EMPTY, actions) && Run(EMPTY, actions).faults == 0
    ensures var s := Run(EMPTY, actions);
      && s.won[id] == One(IsDecided(s, id))
      && (s.won[id] + s.late[id] > 0 ==> s.won[id] == 1)
      && (id in s.started && Quiet(s, id) ==> s.won[id] == 1)
      && (Quiet(s, id) ==>
        RulesOf(s, id) == if id in s.proposals && s.proposals[id].Approved? then {s.proposals[id].ruleId} else {})
  {
    EmptyInv();
    RunKeepsInv(EMPTY, actions);
    hide Run, AllEnabled;
    var s := Run(EMPTY, actions);
    assert DecisionFits(s, id) && Underway(s, id);
    if Quiet(s, id) {
      forall r | r in RulesOf(s, id)
        ensures id in s.proposals && s.proposals[id] == Approved(r)
      {
        assert RuleFits(s, r);
      }
    }
  }

  /** With store errors and crashes, too: at most one call succeeds, the status changes at most once, and
      a rule that no call works on is the recorded one or was left behind. */
  lemma DecidedOnce(actions: seq<Action>, id: string)
    requires AllEnabled(EMPTY, actions)
    ensures var s := Run(EMPTY, actions);
      && s.won[id] <= s.changed[id] == One(IsDecided(s, id))
      && (id in s.proposals && s.proposals[id].Approved? ==> s.proposals[id].ruleId in RulesOf(s, id))
      && (Quiet(s, id) ==> forall r :: r in RulesOf(s, id) ==>
        s.rules[r].use == Leftover || (id in s.proposals && s.proposals[id] == Approved(r)))
  {
    EmptyInv();
    RunKeepsInv(EMPTY, actions);
    hide Run, AllEnabled;
    var s := Run(EMPTY, actions);
    assert DecisionFits(s, id);
    if Quiet(s, id) {
      forall r | r in RulesOf(s, id)
        ensures s.rules[r].use == Leftover || (id in s.proposals && s.proposals[id] == Approved(r))
      {
        assert RuleFits(s, r);
      }
    }
  }

  /** The decision of a proposal is final. */
  lemma DecisionIsFinal(s: State, actions: seq<Action>, id: string)
    requires Inv(s) && AllEnabled(s, actions) && IsDecided(s, id)
    ensures id in Run(s, actions).proposals && Run(s, actions).proposals[id] == s.proposals[id]
  {
    RunKeepsInv(s, actions);
    hide Run, AllEnabled, Inv;
  }
}
