/** The decision that wins is the one its call asked for. */
module ProposalWinners {
  import opened Proposals
  import opened ProposalLaws

  /* ---- The winning step ---- */

  /** The step records an approval: of the call's own rule, which is in the store and stays there. */
  ghost predicate Approves(s: State, a: Action, t: State, id: string) {
    && (a.Update? || a.UpdateFails?)
    && a.caller in s.callers && s.callers[a.caller].Updating? && s.callers[a.caller].id == id
    && var ruleId := s.callers[a.caller].ruleId;
      && id in t.proposals && t.proposals[id] == Approved(ruleId)
      && ruleId in t.rules && t.rules[ruleId] == StoredRule(id, Recorded)
  }

  /** The step records a rejection. */
  ghost predicate Rejects(s: State, a: Action, t: State, id: string) {
    && (a.UpdateRejected? || a.UpdateRejectedFails?) && a.caller in s.callers && s.callers[a.caller] == Rejecting(id)
    && id in t.proposals && t.proposals[id] == Rejected
  }

  /** Whenever a step changes the decision of a stored proposal, or makes a call report success on it, it is the
      step of an approval that records its own rule, or that of a rejection, and the proposal was undecided. */
  lemma WinnerDecides(s: State, a: Action, id: string)
    requires Inv(s) && Enabled(s, a)
    requires var t := Apply(s, a);
      t.won[id] > s.won[id] || (id in s.proposals && id in t.proposals && t.proposals[id] != s.proposals[id])
    ensures var t := Apply(s, a); IsUndecided(s, id) && (Approves(s, a, t, id) || Rejects(s, a, t, id))
  {
    assert !a.Propose? && !a.Crash? ==> CallFits(s, a.caller);
    hide Inv;
  }

  /** What a call reports: success exactly when its own step decided, without a store error. */
  lemma WinnerReports(s: State, a: Action, id: string)
    requires Enabled(s, a)
    ensures var t := Apply(s, a);
      t.won[id] > s.won[id] <==>
        (a.Update? || a.UpdateRejected?) && s.callers[a.caller].id == id && IsUndecided(s, id)
  {
  }

  /* ---- Whole runs ---- */

  /** No rejection of the proposal was begun. */
  ghost predicate NoRejection(actions: seq<Action>, id: string) {
    forall k :: 0 <= k < |actions| ==> !(actions[k].Reject? && actions[k].id == id)
  }

  /** No approval of the proposal was begun. */
  ghost predicate NoApproval(actions: seq<Action>, id: string) {
    forall k :: 0 <= k < |actions| ==> !(actions[k].Approve? && actions[k].id == id)
  }

  predicate OfReject(phase: Phase) {
    phase.Rejecting? || phase.Rechecking?
  }

  /** Every call on the proposal is of the given kind, and so is its decision. */
  ghost predicate OneSided(s: State, id: string, rejections: bool) {
    && (forall c :: c in s.callers && s.callers[c].id == id ==> OfReject(s.callers[c]) == rejections)
    && (id in s.proposals && s.proposals[id] != Undecided ==> s.proposals[id].Rejected? == rejections)
  }

  lemma OneSidedStep(s: State, a: Action, id: string, rejections: bool)
    requires OneSided(s, id, rejections) && Enabled(s, a)
    requires if rejections then !(a.Approve? && a.id == id) else !(a.Reject? && a.id == id)
    ensures OneSided(Apply(s, a), id, rejections)
  {
    CallsOneSided(s, a, id, rejections);
    DecisionOneSided(s, a, id, rejections);
    hide Apply, Enabled;
  }

  lemma CallsOneSided(s: State, a: Action, id: string, rejections: bool)
    requires OneSided(s, id, rejections) && Enabled(s, a)
    requires if rejections then !(a.Approve? && a.id == id) else !(a.Reject? && a.id == id)
    ensures var t := Apply(s, a);
      forall c :: c in t.callers && t.callers[c].id == id ==> OfReject(t.callers[c]) == rejections
  {
  }

  lemma DecisionOneSided(s: State, a: Action, id: string, rejections: bool)
    requires OneSided(s, id, rejections) && Enabled(s, a)
    ensures var t := Apply(s, a);
      id in t.proposals && t.proposals[id] != Undecided ==> t.proposals[id].Rejected? == rejections
  {
  }

  lemma {:induction false} OneSidedRun(s: State, actions: seq<Action>, id: string, rejections: bool)
    requires OneSided(s, id, rejections) && AllEnabled(s, actions)
    requires if rejections then NoApproval(actions, id) else NoRejection(actions, id)
    ensures OneSided(Run(s, actions), id, rejections)
    decreases |actions|
  {
    hide OneSided, Enabled, Apply;
    if actions != [] {
      OneSidedStep(s, actions[0], id, rejections);
      OneSidedRun(Apply(s, actions[0]), actions[1..], id, rejections);
    }
  }

  /** Over every interleaving without store errors and crashes: once all calls on a proposal have returned, it is
      approved, with its recorded rule in the store, when only approvals were begun, and rejected, with no rule in
      the store, when only rejections were. */
  lemma DecidedAsAsked(actions: seq<Action>, id: string)
    requires AllEnabled(EMPTY, actions)
    requires var s := Run(EMPTY, actions); s.faults == 0 && id in s.started && Quiet(s, id)
    ensures var s := Run(EMPTY, actions);
      && id in s.proposals
      && (NoRejection(actions, id) ==>
        s.proposals[id].Approved? && s.proposals[id].ruleId in s.rules && RulesOf(s, id) == {s.proposals[id].ruleId})
      && (NoApproval(actions, id) ==> s.proposals[id] == Rejected && RulesOf(s, id) == {})
  {
    OneDecisionWins(actions, id);
    assert OneSided(EMPTY, id, true) && OneSided(EMPTY, id, false);
    if NoRejection(actions, id) {
      OneSidedRun(EMPTY, actions, id, false);
    }
    if NoApproval(actions, id) {
      OneSidedRun(EMPTY, actions, id, true);
    }
    hide Run, AllEnabled, NoRejection, NoApproval;
    var s := Run(EMPTY, actions);
    assert s.proposals[id].Approved? ==> s.proposals[id].ruleId in RulesOf(s, id);
  }
}
