/**
 The life of a goal: proposed, worked on, and ended with evidence. Each operation
 clones the goal, edits the copy and has it validated; which copies a validator
 rejects (byte caps, identifier shapes) is a parameter here.
 */
module Goals {
  import opened Basics
  import opened Utf
  import opened GoalText
  import opened Spaces

  datatype Status = Proposed | Active | Accepted8020 | Complete | Blocked | Paused | Cancelled

  datatype CriterionStatus = Open | Met | Deferred

  datatype Criterion = Criterion(id: Text, text: Text, required: bool, status: CriterionStatus, evidence: seq<Text>)

  datatype Transition = Transition(from: Status, to: Status, reason: Text)

  datatype DeferredItem = DeferredItem(value: Text, risk: Text, rationale: Text)

  datatype Verification = Verified | Unverified | NoGate | Unchanged | Unknown

  /** A JavaScript number used as a confidence. */
  datatype Number = NotFinite | Finite(value: real)

  /** What a settlement records: also the content of a proposed one. */
  datatype Outcome = Outcome(delivered: Text, confidence: Number, risks: seq<Text>, deferred: seq<DeferredItem>,
                             evidence: seq<Text>, verification: Option<Verification>)

  datatype Block = Block(reason: Text, evidence: seq<Text>, unblock: Text)

  datatype Goal = Goal(
    id: Text, criteria: seq<Criterion>, status: Status, blocked: Option<Block>,
    proposal: Option<Outcome>, outcome: Outcome, history: seq<Transition>)

  datatype GoalError =
    | NoObjective | NotProposed | NotResumable | NotPausable | AlreadyTerminal | NotActive
    | NoReason | UnknownCriterion | RequiredDeferred | MetWithoutEvidence
    | NoDeliveredValue | BadConfidence | RequiredOpen | CriterionWithoutEvidence | NoEvidence
    | NotAllMet | OptionalOpen | NoRationale | NoProposal
    | Rejected

  datatype Result<T> = Ok(value: T) | Err(error: GoalError)

  type Validator = Goal -> bool

  const MAX_HISTORY: nat := 32

  function Checked(valid: Validator, g: Goal): Result<Goal> { if valid(g) then Ok(g) else Err(Rejected) }

  predicate Terminal(s: Status) { s.Complete? || s.Cancelled? }

  function Moved(g: Goal, to: Status, reason: Text): Goal {
    if g.status == to then g
    else g.(status := to, history := Last(g.history + [Transition(g.status, to, Clean(reason, MAX_SHORT))], MAX_HISTORY))
  }

  function Move(valid: Validator, g: Goal, to: Status, reason: Text): Result<Goal> { Checked(valid, Moved(g, to, reason)) }

  // ---- User and lifecycle operations -----------------------------------------------------

  datatype NewCriterion = NewCriterion(id: Text, text: Text, required: bool)

  function Opened(c: NewCriterion): Criterion { Criterion(c.id, Clean(c.text, MAX_TEXT), c.required, Open, []) }

  function OpenedAll(cs: seq<NewCriterion>): (r: seq<Criterion>)
    ensures |r| == |cs|
    ensures forall c | c in r :: c.status.Open?
  {
    if cs == [] then [] else [Opened(cs[0])] + OpenedAll(cs[1..])
  }

  const DEFAULT_CRITERION: NewCriterion :=
    NewCriterion(Ascii("criterion-1"), Ascii("Deliver the requested outcome with evidence."), true)

  const NO_OUTCOME: Outcome := Outcome([], NotFinite, [], [], [], None)

  /** A new goal; identifiers are given, and an empty list of criteria gets the default one. */
  function Create(valid: Validator, id: Text, objective: Text, criteria: seq<NewCriterion>, status: Status): Result<Goal>
    requires status.Active? || status.Proposed?
  {
    if ByteLength(Trim(objective)) > MAX_TEXT || Clean(objective, MAX_TEXT) == [] then Err(NoObjective)
    else
      var given := if criteria == [] then [DEFAULT_CRITERION] else criteria;
      Checked(valid, Goal(id, OpenedAll(given), status, None, None, NO_OUTCOME, []))
  }

  function Accept(valid: Validator, g: Goal): Result<Goal> {
    if !g.status.Proposed? then Err(NotProposed) else Move(valid, g, Active, Ascii("user accepted skill proposal"))
  }

  function Resume(valid: Validator, g: Goal): Result<Goal> {
    if g.status.Active? && g.proposal.Some? then Checked(valid, g.(proposal := None))
    else if !(g.status.Accepted8020? || g.status.Paused? || g.status.Blocked?) then Err(NotResumable)
    else
      match Move(valid, g, Active, Ascii("goal resumed by user"))
      case Err(e) => Err(e)
      case Ok(next) => Checked(valid, next.(blocked := None))
  }

  function Pause(valid: Validator, g: Goal): Result<Goal> {
    if !(g.status.Active? || g.status.Blocked?) then Err(NotPausable)
    else Move(valid, g, Paused, Ascii("goal paused by user"))
  }

  function Cancel(valid: Validator, g: Goal): Result<Goal> {
    if Terminal(g.status) then Err(AlreadyTerminal) else Move(valid, g, Cancelled, Ascii("goal cancelled by user"))
  }

  function BlockGoal(valid: Validator, g: Goal, reason: Text, evidence: seq<Text>, unblock: Text): Result<Goal> {
    var why, until := Clean(reason, MAX_SHORT), Clean(unblock, MAX_SHORT);
    if !g.status.Active? then Err(NotActive)
    else if why == [] || until == [] then Err(NoReason)
    else
      match Move(valid, g, Blocked, why)
      case Err(e) => Err(e)
      case Ok(next) =>
        var shown := FilteredEvidence(evidence);
        Checked(valid, next.(
          blocked := Some(Block(why, shown, until)),
          outcome := next.outcome.(
            evidence := Last(Dedupe(next.outcome.evidence + shown), MAX_LIST),
            risks := Last(Dedupe(next.outcome.risks + [why]), MAX_LIST))))
  }

  // ---- Progress ---------------------------------------------------------------------------

  datatype CriterionUpdate = CriterionUpdate(id: Text, status: CriterionStatus, evidence: Option<seq<Text>>)

  /** The last criterion with the id: a later one hides an earlier one in the map. */
  function Find(cs: seq<Criterion>, id: Text): (n: Option<nat>)
    ensures n.Some? ==> n.value < |cs| && cs[n.value].id == id
  {
    if cs == [] then None
    else if cs[|cs| - 1].id == id then Some(|cs| - 1)
    else Find(cs[..|cs| - 1], id)
  }

  predicate GivesEvidence(u: CriterionUpdate) { u.evidence.Some? && SomeNonblank(u.evidence.value) }

  function UpdateOne(cs: seq<Criterion>, u: CriterionUpdate): Result<seq<Criterion>> {
    match Find(cs, u.id)
    case None => Err(UnknownCriterion)
    case Some(n) =>
      if cs[n].required && u.status.Deferred? then Err(RequiredDeferred)
      else if u.status.Met? && !GivesEvidence(u) then Err(MetWithoutEvidence)
      else Ok(cs[n := cs[n].(status := u.status, evidence := if u.evidence.Some? then Evidence(u.evidence.value) else cs[n].evidence)])
  }

  function UpdateAll(cs: seq<Criterion>, us: seq<CriterionUpdate>): Result<seq<Criterion>> {
    if us == [] then Ok(cs)
    else
      match UpdateAll(cs, us[..|us| - 1])
      case Err(e) => Err(e)
      case Ok(next) => UpdateOne(next, us[|us| - 1])
  }

  method ApplyUpdates(cs: seq<Criterion>, us: seq<CriterionUpdate>) returns (r: Result<seq<Criterion>>)
    ensures r == UpdateAll(cs, us)
  {
    var next := cs;
    for i := 0 to |us|
      invariant UpdateAll(cs, us[..i]) == Ok(next)
    {
      assert us[..i + 1][..i] == us[..i];
      var u := us[i];
      var at := Find(next, u.id);
      if at.None? { FirstError(cs, us, i + 1); return Err(UnknownCriterion); }
      var c := next[at.value];
      if c.required && u.status.Deferred? { FirstError(cs, us, i + 1); return Err(RequiredDeferred); }
      if u.status.Met? && !GivesEvidence(u) { FirstError(cs, us, i + 1); return Err(MetWithoutEvidence); }
      c := c.(status := u.status);
      if u.evidence.Some? { c := c.(evidence := Evidence(u.evidence.value)); }
      next := next[at.value := c];
    }
    assert us[..|us|] == us;
    r := Ok(next);
  }

  lemma {:induction false} FirstError(cs: seq<Criterion>, us: seq<CriterionUpdate>, n: nat)
    requires n <= |us| && UpdateAll(cs, us[..n]).Err?
    ensures UpdateAll(cs, us) == UpdateAll(cs, us[..n])
  {
    if n < |us| {
      assert us[..|us| - 1][..n] == us[..n];
      FirstError(cs, us[..|us| - 1], n);
    } else {
      assert us[..n] == us;
    }
  }

  function Update(valid: Validator, g: Goal, us: seq<CriterionUpdate>, progress: seq<Text>, risks: Option<seq<Text>>): Result<Goal> {
    if !g.status.Active? then Err(NotActive)
    else
      match UpdateAll(g.criteria, us)
      case Err(e) => Err(e)
      case Ok(criteria) =>
        Checked(valid, g.(
          criteria := criteria,
          proposal := None,
          outcome := g.outcome.(
            evidence := Last(NonEmpty(Dedupe(g.outcome.evidence + CleanAll(progress, MAX_SHORT))), MAX_LIST),
            risks := Take(NonEmpty(CleanAll(if risks.Some? then risks.value else g.outcome.risks, MAX_SHORT)), MAX_LIST))))
  }

  // ---- Settlement ----------------------------------------------------------------------------

  predicate InUnit(n: Number) { n.Finite? && 0.0 <= n.value <= 1.0 }

  predicate Unmet(c: Criterion) { c.required && !c.status.Met? }

  predicate Undocumented(c: Criterion) { c.required && c.status.Met? && c.evidence == [] }

  predicate OpenOptional(c: Criterion) { !c.required && c.status.Open? }

  predicate AnyUnmet(cs: seq<Criterion>) { exists c | c in cs :: Unmet(c) }

  predicate AnyUndocumented(cs: seq<Criterion>) { exists c | c in cs :: Undocumented(c) }

  predicate AnyOpenOptional(cs: seq<Criterion>) { exists c | c in cs :: OpenOptional(c) }

  predicate AnyNotMet(cs: seq<Criterion>) { exists c | c in cs :: !c.status.Met? }

  predicate AnyDeferred(cs: seq<Criterion>) { exists c | c in cs :: c.status.Deferred? }

  /** What stands in the way of settling criteria with an outcome, in the order it is looked for. */
  function Objection(cs: seq<Criterion>, o: Outcome, all: bool): Option<GoalError> {
    if Clean(o.delivered, MAX_TEXT) == [] then Some(NoDeliveredValue)
    else if !InUnit(o.confidence) then Some(BadConfidence)
    else if AnyUnmet(cs) then Some(RequiredOpen)
    else if AnyUndocumented(cs) then Some(CriterionWithoutEvidence)
    else if !SomeNonblank(o.evidence) then Some(NoEvidence)
    else if all && AnyNotMet(cs) then Some(NotAllMet)
    else if !all && AnyOpenOptional(cs) then Some(OptionalOpen)
    else if !all && AnyDeferred(cs) && o.deferred == [] then Some(NoRationale)
    else None
  }

  function CleanItem(d: DeferredItem): DeferredItem {
    DeferredItem(Clean(d.value, MAX_SHORT), Clean(d.risk, MAX_SHORT), Clean(d.rationale, MAX_TEXT))
  }

  /** The cleaned outcome a settlement records; an unknown verification keeps the earlier one. */
  function Recorded(o: Outcome, before: Option<Verification>): Outcome {
    Outcome(
      Clean(o.delivered, MAX_TEXT),
      o.confidence,
      Take(NonEmpty(CleanAll(o.risks, MAX_SHORT)), MAX_LIST),
      Take(seq(|o.deferred|, i requires 0 <= i < |o.deferred| => CleanItem(o.deferred[i])), MAX_LIST),
      FilteredEvidence(o.evidence),
      if o.verification.Some? then o.verification else before)
  }

  const COMPLETION: Text := Ascii("evidence-backed completion")
  const ACCEPTANCE: Text := Ascii("evidence-backed 80/20 acceptance")

  function Settle(valid: Validator, g: Goal, o: Outcome, all: bool): Result<Goal> {
    if !g.status.Active? then Err(NotActive)
    else
      match Objection(g.criteria, o, all)
      case Some(e) => Err(e)
      case None =>
        match Move(valid, g, if all then Complete else Accepted8020, if all then COMPLETION else ACCEPTANCE)
        case Err(e) => Err(e)
        case Ok(next) => Checked(valid, next.(outcome := Recorded(o, next.outcome.verification), proposal := None))
  }

  /** The model's path: a partial settlement only becomes a proposal. */
  function SettleOrPropose(valid: Validator, g: Goal, o: Outcome, all: bool): Result<Goal> {
    match Settle(valid, g, o, all)
    case Err(e) => Err(e)
    case Ok(settled) =>
      if all then Ok(settled)
      else
        var v := if settled.outcome.verification.Some? then settled.outcome.verification else Some(Unknown);
        Checked(valid, g.(proposal := Some(settled.outcome.(verification := v))))
  }

  /** The user's path: take the pending proposal as it is. */
  function AcceptSettlement(valid: Validator, g: Goal): Result<Goal> {
    if !g.status.Active? || g.proposal.None? then Err(NoProposal)
    else Settle(valid, g.(proposal := None), g.proposal.value, false)
  }

  // ---- Runs ------------------------------------------------------------------------------------

  datatype Operation =
    | Accepting | Resuming | Pausing | Cancelling
    | Blocking(reason: Text, evidence: seq<Text>, unblock: Text)
    | Updating(updates: seq<CriterionUpdate>, progress: seq<Text>, risks: Option<seq<Text>>)
    | Settling(outcome: Outcome, all: bool)
    | AcceptingSettlement

  function Apply(valid: Validator, g: Goal, op: Operation): Result<Goal> {
    match op
    case Accepting => Accept(valid, g)
    case Resuming => Resume(valid, g)
    case Pausing => Pause(valid, g)
    case Cancelling => Cancel(valid, g)
    case Blocking(reason, evidence, unblock) => BlockGoal(valid, g, reason, evidence, unblock)
    case Updating(updates, progress, risks) => Update(valid, g, updates, progress, risks)
    case Settling(outcome, all) => SettleOrPropose(valid, g, outcome, all)
    case AcceptingSettlement => AcceptSettlement(valid, g)
  }

  /** The goal after some operations; a refused one leaves it as it was. */
  function Run(valid: Validator, g: Goal, ops: seq<Operation>): Goal {
    if ops == [] then g
    else
      var before := Run(valid, g, ops[..|ops| - 1]);
      match Apply(valid, before, ops[|ops| - 1])
      case Ok(next) => next
      case Err(_) => before
  }
}
