/** What every run of operations on a goal keeps. */
module GoalFacts {
  import opened Basics
  import opened Utf
  import opened GoalText
  import opened Spaces
  import opened Goals

  predicate CriteriaHold(cs: seq<Criterion>) {
    forall c | c in cs :: (c.status.Met? ==> SomeNonblank(c.evidence)) && (c.status.Deferred? ==> !c.required)
  }

  predicate Chained(h: seq<Transition>) {
    && (forall i | 0 <= i < |h| :: h[i].from != h[i].to)
    && (forall i | 0 < i < |h| :: h[i - 1].to == h[i].from)
  }

  predicate HistoryHolds(g: Goal) {
    |g.history| <= MAX_HISTORY && Chained(g.history) && (g.history != [] ==> g.history[|g.history| - 1].to == g.status)
  }

  ghost predicate Inv(g: Goal) {
    && CriteriaHold(g.criteria)
    && HistoryHolds(g)
    && (g.status.Complete? ==> !AnyNotMet(g.criteria))
    && (g.status.Accepted8020? ==> !AnyUnmet(g.criteria) && !AnyOpenOptional(g.criteria))
    // A pending proposal would still be accepted.
    && (g.proposal.Some? ==> Objection(g.criteria, g.proposal.value, false).None?)
  }

  lemma ChainedSnoc(h: seq<Transition>, t: Transition)
    requires Chained(h) && |h| <= MAX_HISTORY && t.from != t.to && (h != [] ==> h[|h| - 1].to == t.from)
    ensures var r := Last(h + [t], MAX_HISTORY); Chained(r) && r != [] && r[|r| - 1] == t
  {
    var s := h + [t];
    assert Chained(s);
    if |s| > MAX_HISTORY {
      assert forall i | 0 < i < |s| - 1 :: s[i..][..1] == [s[i]];
    }
  }

  lemma MovedHolds(g: Goal, to: Status, reason: Text)
    requires HistoryHolds(g)
    ensures HistoryHolds(Moved(g, to, reason)) && Moved(g, to, reason).status == to
  {
    if g.status != to { ChainedSnoc(g.history, Transition(g.status, to, Clean(reason, MAX_SHORT))); }
  }

  /** A move to a status that promises nothing keeps the invariant. */
  lemma MovedInv(g: Goal, to: Status, reason: Text)
    requires Inv(g) && !to.Complete? && !to.Accepted8020?
    ensures Inv(Moved(g, to, reason))
  {
    hide Objection, AnyNotMet, AnyUnmet, AnyOpenOptional, CriteriaHold, HistoryHolds;
    MovedHolds(g, to, reason);
  }

  lemma CreateInv(valid: Validator, id: Text, objective: Text, criteria: seq<NewCriterion>, status: Status)
    requires status.Active? || status.Proposed?
    ensures var r := Create(valid, id, objective, criteria, status);
      r.Ok? ==> Inv(r.value) && r.value.status == status && r.value.proposal.None?
  {
    hide Clean, ByteLength, Trim;
  }

  // ---- Progress ---------------------------------------------------------------------------

  lemma UpdateOneHolds(cs: seq<Criterion>, u: CriterionUpdate)
    requires CriteriaHold(cs)
    ensures UpdateOne(cs, u).Ok? ==> CriteriaHold(UpdateOne(cs, u).value)
  {
    hide SomeNonblank, Evidence;
    if UpdateOne(cs, u).Ok? {
      var n, next := Find(cs, u.id).value, UpdateOne(cs, u).value;
      assert cs[n] in cs;
      if u.status.Met? { EvidenceSurvives(u.evidence.value); }
      forall c | c in next ensures (c.status.Met? ==> SomeNonblank(c.evidence)) && (c.status.Deferred? ==> !c.required) {
        var i :| 0 <= i < |next| && next[i] == c;
        if i != n { assert cs[i] in cs; }
      }
    }
  }

  lemma {:induction false} UpdateAllHolds(cs: seq<Criterion>, us: seq<CriterionUpdate>)
    requires CriteriaHold(cs)
    ensures UpdateAll(cs, us).Ok? ==> CriteriaHold(UpdateAll(cs, us).value)
  {
    hide CriteriaHold, UpdateOne;
    if us != [] {
      UpdateAllHolds(cs, us[..|us| - 1]);
      if UpdateAll(cs, us[..|us| - 1]).Ok? {
        UpdateOneHolds(UpdateAll(cs, us[..|us| - 1]).value, us[|us| - 1]);
      }
    }
  }

  // ---- Settlement ----------------------------------------------------------------------------

  /** Cleaning an outcome twice finds nothing more to object to. */
  lemma RecordedStaysAcceptable(cs: seq<Criterion>, o: Outcome, before: Option<Verification>, v: Option<Verification>)
    requires Objection(cs, o, false).None?
    ensures Objection(cs, Recorded(o, before).(verification := v), false).None?
  {
    hide Clean, Nonblank, SomeNonblank, FilteredEvidence, AnyUnmet, AnyUndocumented, AnyOpenOptional, AnyDeferred;
    CleanNonblank(o.delivered, MAX_TEXT);
    CleanNonblank(Clean(o.delivered, MAX_TEXT), MAX_TEXT);
    FilteredSurvives(o.evidence);
  }

  lemma SettleInv(valid: Validator, g: Goal, o: Outcome, all: bool)
    requires Inv(g)
    ensures var r := Settle(valid, g, o, all);
      r.Ok? ==>
        && Inv(r.value) && r.value.proposal.None? && r.value.criteria == g.criteria
        && r.value.status == (if all then Complete else Accepted8020)
        && Objection(g.criteria, o, all).None?
        && r.value.outcome == Recorded(o, g.outcome.verification)
  {
    hide Clean, SomeNonblank, Recorded, CriteriaHold, HistoryHolds;
    var to := if all then Complete else Accepted8020;
    MovedHolds(g, to, if all then COMPLETION else ACCEPTANCE);
    hide AnyUnmet, AnyUndocumented, AnyOpenOptional, AnyDeferred, AnyNotMet;
    if Settle(valid, g, o, all).Ok? {
      var s := Settle(valid, g, o, all).value;
      HistoryOnly(s, Moved(g, to, if all then COMPLETION else ACCEPTANCE));
    }
  }

  lemma HistoryOnly(a: Goal, b: Goal)
    requires a.history == b.history && a.status == b.status && HistoryHolds(b)
    ensures HistoryHolds(a)
  {
  }

  lemma ProposeInv(valid: Validator, g: Goal, o: Outcome, all: bool)
    requires Inv(g)
    ensures var r := SettleOrPropose(valid, g, o, all);
      r.Ok? ==> Inv(r.value) && (if all then r.value.status.Complete? else r.value.status.Active? && r.value.proposal.Some?)
  {
    hide Settle, Objection, Recorded, CriteriaHold, HistoryHolds, AnyNotMet, AnyUnmet, AnyOpenOptional;
    SettleInv(valid, g, o, all);
    if !all && SettleOrPropose(valid, g, o, all).Ok? {
      NotActiveIsRefused(valid, g, o, all);
      var next := SettleOrPropose(valid, g, o, all).value;
      RecordedStaysAcceptable(g.criteria, o, g.outcome.verification, next.proposal.value.verification);
      HistoryOnly(next, g);
    }
  }

  lemma NotActiveIsRefused(valid: Validator, g: Goal, o: Outcome, all: bool)
    ensures Settle(valid, g, o, all).Ok? ==> g.status.Active?
  {
  }

  /** The user can always take a pending proposal of an active goal, validation aside:
      also after it was paused, blocked and resumed. */
  lemma PendingProposalIsAcceptable(valid: Validator, g: Goal)
    requires Inv(g) && g.status.Active? && g.proposal.Some?
    ensures var r := AcceptSettlement(valid, g);
      if r.Ok? then r.value.status.Accepted8020? && r.value.proposal.None? else r.error.Rejected?
  {
    hide Objection, HistoryHolds, CriteriaHold, Recorded;
  }

  // ---- Every operation --------------------------------------------------------------------------

  lemma ResumeInv(valid: Validator, g: Goal)
    requires Inv(g) && Resume(valid, g).Ok?
    ensures Inv(Resume(valid, g).value)
  {
    hide Objection, HistoryHolds, CriteriaHold, AnyNotMet, AnyUnmet, AnyOpenOptional, Moved;
    var next := Resume(valid, g).value;
    if g.status.Active? && g.proposal.Some? {
      HistoryOnly(next, g);
    } else {
      MovedInv(g, Active, Ascii("goal resumed by user"));
      HistoryOnly(next, Moved(g, Active, Ascii("goal resumed by user")));
    }
  }

  lemma BlockInv(valid: Validator, g: Goal, reason: Text, evidence: seq<Text>, unblock: Text)
    requires Inv(g) && BlockGoal(valid, g, reason, evidence, unblock).Ok?
    ensures Inv(BlockGoal(valid, g, reason, evidence, unblock).value)
  {
    hide Objection, HistoryHolds, CriteriaHold, AnyNotMet, AnyUnmet, AnyOpenOptional, Clean, FilteredEvidence, Moved;
    var m := Moved(g, Blocked, Clean(reason, MAX_SHORT));
    MovedInv(g, Blocked, Clean(reason, MAX_SHORT));
    MovedTo(g, Blocked, Clean(reason, MAX_SHORT));
    HistoryOnly(BlockGoal(valid, g, reason, evidence, unblock).value, m);
  }

  lemma MovedTo(g: Goal, to: Status, reason: Text)
    ensures Moved(g, to, reason).status == to
  {
  }

  lemma UpdateInv(valid: Validator, g: Goal, us: seq<CriterionUpdate>, progress: seq<Text>, risks: Option<seq<Text>>)
    requires Inv(g) && Update(valid, g, us, progress, risks).Ok?
    ensures Inv(Update(valid, g, us, progress, risks).value)
  {
    hide Objection, HistoryHolds, CriteriaHold, AnyNotMet, AnyUnmet, AnyOpenOptional, UpdateAll;
    UpdateAllHolds(g.criteria, us);
    HistoryOnly(Update(valid, g, us, progress, risks).value, g);
  }

  lemma ApplyInv(valid: Validator, g: Goal, op: Operation)
    requires Inv(g)
    ensures Apply(valid, g, op).Ok? ==> Inv(Apply(valid, g, op).value)
  {
    hide Inv, Moved, Resume, BlockGoal, Update, SettleOrPropose, Settle;
    if Apply(valid, g, op).Ok? {
      match op
      case Accepting => MovedInv(g, Active, Ascii("user accepted skill proposal"));
      case Resuming => ResumeInv(valid, g);
      case Pausing => MovedInv(g, Paused, Ascii("goal paused by user"));
      case Cancelling => MovedInv(g, Cancelled, Ascii("goal cancelled by user"));
      case Blocking(reason, evidence, unblock) => BlockInv(valid, g, reason, evidence, unblock);
      case Updating(updates, progress, risks) => UpdateInv(valid, g, updates, progress, risks);
      case Settling(outcome, all) => ProposeInv(valid, g, outcome, all);
      case AcceptingSettlement =>
        WithoutProposal(g);
        SettleInv(valid, g.(proposal := None), g.proposal.value, false);
    }
  }

  lemma WithoutProposal(g: Goal)
    requires Inv(g)
    ensures Inv(g.(proposal := None))
  {
    hide Objection, CriteriaHold, AnyNotMet, AnyUnmet, AnyOpenOptional, Chained;
  }

  /** Every goal that was created and then worked on keeps the invariant. */
  lemma {:induction false} RunInv(valid: Validator, g: Goal, ops: seq<Operation>)
    requires Inv(g)
    ensures Inv(Run(valid, g, ops))
  {
    hide Inv, Apply;
    if ops != [] {
      RunInv(valid, g, ops[..|ops| - 1]);
      ApplyInv(valid, Run(valid, g, ops[..|ops| - 1]), ops[|ops| - 1]);
    }
  }

  /** From creation on: a complete goal has met every criterion with evidence that says
      something, a partly settled one every required criterion, with nothing optional open. */
  lemma SettledGoalsAreBacked(valid: Validator, id: Text, objective: Text, criteria: seq<NewCriterion>, status: Status, ops: seq<Operation>)
    requires status.Active? || status.Proposed?
    requires Create(valid, id, objective, criteria, status).Ok?
    ensures var g := Run(valid, Create(valid, id, objective, criteria, status).value, ops);
      && (g.status.Complete? ==> forall c | c in g.criteria :: c.status.Met? && SomeNonblank(c.evidence))
      && (g.status.Accepted8020? ==> forall c | c in g.criteria ::
            if c.required then c.status.Met? && SomeNonblank(c.evidence) else !c.status.Open?)
  {
    hide SomeNonblank, Run, Create, HistoryHolds, Objection;
    CreateInv(valid, id, objective, criteria, status);
    RunInv(valid, Create(valid, id, objective, criteria, status).value, ops);
  }

  /** Complete and cancelled goals refuse every operation. */
  lemma TerminalIsAbsorbing(valid: Validator, g: Goal, op: Operation)
    requires Terminal(g.status)
    ensures Apply(valid, g, op).Err?
  {
    hide Clean, Objection, UpdateAll;
  }

  lemma {:induction false} TerminalRun(valid: Validator, g: Goal, ops: seq<Operation>)
    requires Terminal(g.status)
    ensures Run(valid, g, ops) == g
  {
    hide Apply;
    if ops != [] {
      TerminalRun(valid, g, ops[..|ops| - 1]);
      TerminalIsAbsorbing(valid, g, ops[|ops| - 1]);
    }
  }

  /** Only the user's acceptance of a pending proposal makes a goal settled in part. */
  lemma OnlyTheUserSettlesInPart(valid: Validator, g: Goal, op: Operation)
    requires Apply(valid, g, op).Ok? && Apply(valid, g, op).value.status.Accepted8020?
    ensures op.AcceptingSettlement? && g.status.Active? && g.proposal.Some?
    ensures Apply(valid, g, op).value.outcome == Recorded(g.proposal.value, g.outcome.verification)
    ensures Apply(valid, g, op).value.criteria == g.criteria
  {
    hide Clean, Objection, UpdateAll, Recorded, FilteredEvidence;
  }

  /** The outcome as it is proposed: cleaned, its verification unknown unless one is given. */
  function AsProposed(o: Outcome, before: Option<Verification>): Outcome {
    var r := Recorded(o, before);
    if r.verification.Some? then r else r.(verification := Some(Unknown))
  }

  /** A pending proposal goes when the user declines or accepts it, when the goal is settled
      or when there is new progress; a second one replaces it; nothing else touches it. */
  lemma WhatEndsAProposal(valid: Validator, g: Goal, op: Operation)
    requires Apply(valid, g, op).Ok? && g.proposal.Some?
    ensures Apply(valid, g, op).value.proposal ==
      if op.Updating? || op.AcceptingSettlement? || (op.Settling? && op.all) || (op.Resuming? && g.status.Active?) then None
      else if op.Settling? then Some(AsProposed(op.outcome, g.outcome.verification))
      else g.proposal
  {
    hide Clean, Objection, UpdateAll, Recorded, FilteredEvidence;
  }
}
