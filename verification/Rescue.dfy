/**
 A budget that is spent when the model heard the message: the rescue of pseudo tool
 calls parks one proposal at a time and is charged when the boundary it was made for
 delivers it. One end of a turn runs the rescue's handler, then those of later producers,
 then the arbiter's.
 */
module Rescue {
  import opened Utf
  import opened Arbiter
  import opened ArbiterFacts
  import Authority

  datatype Parked = Parked(id: Text, boundary: int)

  /** `turn` is the index of the next turn to end; it starts again with every agent run. */
  datatype State = State(queue: Queue, rescues: nat, parked: Option<Parked>, turn: nat)

  function Zeros(): (t: Text)
    ensures Authority.IsHash(t)
  {
    seq(64, i requires 0 <= i < 64 => 48)
  }

  type Hash = t: Text | Authority.IsHash(t) witness Zeros()

  /** A text that looks like a tool call, with the digests minted for its proposal and whether
      the arbiter enforces when that is looked up. */
  datatype Pseudo = Pseudo(id: Hash, cooldown: Hash, message: Text, enforcing: bool)

  /** The other producers propose between turns or, behind the rescue, when one ends. Whether
      the arbiter is there and what its mode is may change from turn to turn. */
  datatype Event =
    | Proposed(envelope: Envelope)
    | TurnEnd(pseudo: Option<Pseudo>, others: seq<Envelope>, mode: Option<Mode>)
    | AgentStart
    | SessionStart

  const MAX_RESCUES: nat := 2
  const START: State := State([], 0, None, 0)

  function RescueOf(p: Pseudo, turn: nat): Envelope {
    Envelope(
      Proposal(p.id, turn, ToolRescue, PriorityOf(ToolRescue), PseudoToolCall, ToolCallRescue, p.cooldown, ToolRescueText, Message, !p.enforcing),
      Delivery(Some(p.message), false, false))
  }

  /** Only a proposal that passes the validator reaches the queue. */
  function Emitted(q: Queue, e: Envelope): Queue { if IsProposal(e.proposal) then Added(q, e) else q }

  function EmittedAll(q: Queue, es: seq<Envelope>): Queue {
    if es == [] then q else Emitted(EmittedAll(q, es[..|es| - 1]), es[|es| - 1])
  }

  function Rescued(s: State, p: Pseudo): State {
    if s.rescues >= MAX_RESCUES then s
    else
      var t := s.(queue := Emitted(s.queue, RescueOf(p, s.turn)));
      if p.enforcing then t.(parked := Some(Parked(p.id, s.turn))) else t.(rescues := t.rescues + 1)
  }

  /** What has happened when the arbiter's handler begins. */
  function Offered(s: State, pseudo: Option<Pseudo>, others: seq<Envelope>): State {
    var t := if pseudo.Some? then Rescued(s, pseudo.value) else s;
    t.(queue := EmittedAll(t.queue, others))
  }

  function Settle(s: State, d: Decision): State {
    if s.parked.None? || d.boundary != s.parked.value.boundary then s
    else s.(parked := None, rescues := s.rescues + if s.parked.value.id in d.delivered then 1 else 0)
  }

  /** A boundary nobody proposed for is not announced. */
  function Announced(s: State, mode: Mode): State {
    var (queue, o) := Deciding(s.queue, s.turn, mode);
    var t := s.(queue := queue);
    if o.decision.proposalCount > 0 && IsDecision(o.decision) then Settle(t, o.decision) else t
  }

  function Step(s: State, e: Event): State {
    match e
    case Proposed(envelope) => s.(queue := Emitted(s.queue, envelope))
    case TurnEnd(pseudo, others, mode) =>
      var t := Offered(s, pseudo, others);
      (if mode.Some? then Announced(t, mode.value) else t).(turn := s.turn + 1)
    case AgentStart => State([], s.rescues, None, 0)
    case SessionStart => START.(turn := s.turn)
  }

  function Run(events: seq<Event>): State {
    if events == [] then START else Step(Run(events[..|events| - 1]), events[|events| - 1])
  }

  // ---- What was heard ---------------------------------------------------------------------

  /** Whether the model hears a rescue at the end of a turn: the rescue steers by itself, or the
      arbiter's decision of that very turn delivers its proposal. */
  predicate Hears(s: State, e: Event) {
    && e.TurnEnd? && e.pseudo.Some? && s.rescues < MAX_RESCUES
    && (e.pseudo.value.enforcing ==>
          && e.mode.Some?
          && e.pseudo.value.id in Deciding(Offered(s, e.pseudo, e.others).queue, s.turn, e.mode.value).1.decision.delivered)
  }

  /** The turns since the session started at whose end the model heard a rescue. */
  function Heard(events: seq<Event>): nat {
    if events == [] || events[|events| - 1].SessionStart? then 0
    else
      var before := events[..|events| - 1];
      Heard(before) + if Hears(Run(before), events[|events| - 1]) then 1 else 0
  }

  // ---- Invariants -------------------------------------------------------------------------

  /** What is still parked was made for a turn that has ended. */
  ghost predicate Inv(s: State) {
    && ValidQueue(s.queue) && s.rescues <= MAX_RESCUES
    && (s.parked.Some? ==> s.parked.value.boundary < s.turn)
  }

  lemma EmittedValid(q: Queue, e: Envelope)
    requires ValidQueue(q)
    ensures ValidQueue(Emitted(q, e))
  {
    hide ValidQueue, Added;
    if IsProposal(e.proposal) { AddedValid(q, e); }
  }

  lemma {:induction false} EmittedAllValid(q: Queue, es: seq<Envelope>)
    requires ValidQueue(q)
    ensures ValidQueue(EmittedAll(q, es))
  {
    hide ValidQueue, Emitted;
    if es != [] {
      EmittedAllValid(q, es[..|es| - 1]);
      EmittedValid(EmittedAll(q, es[..|es| - 1]), es[|es| - 1]);
    }
  }

  lemma OfferedHolds(s: State, pseudo: Option<Pseudo>, others: seq<Envelope>)
    requires Inv(s)
    ensures var t := Offered(s, pseudo, others);
      && ValidQueue(t.queue) && t.turn == s.turn
      && (pseudo.None? || s.rescues >= MAX_RESCUES ==> t.parked == s.parked && t.rescues == s.rescues)
      && (pseudo.Some? && s.rescues < MAX_RESCUES ==>
            if pseudo.value.enforcing then t.parked == Some(Parked(pseudo.value.id, s.turn)) && t.rescues == s.rescues
            else t.parked == s.parked && t.rescues == s.rescues + 1)
  {
    hide ValidQueue, Emitted, EmittedAll;
    if pseudo.Some? { EmittedValid(s.queue, RescueOf(pseudo.value, s.turn)); }
    EmittedAllValid((if pseudo.Some? then Rescued(s, pseudo.value) else s).queue, others);
  }

  /** A decision that delivers something is announced. */
  lemma DeliveringIsAnnounced(q: Queue, boundary: nat, mode: Mode)
    requires ValidQueue(q)
    ensures var (r, o) := Deciding(q, boundary, mode);
      && ValidQueue(r) && o.decision.boundary == boundary
      && (o.decision.delivered != [] ==> o.decision.proposalCount > 0 && IsDecision(o.decision))
      && (EntriesAt(q, boundary) != [] ==> o.decision.proposalCount > 0 && IsDecision(o.decision))
  {
    hide ValidQueue, Decided, IsDecision, Without, EntriesAt, BucketAt;
    WithoutHolds(q, boundary);
    DecidedBoundary(EntriesAt(q, boundary), boundary, mode);
    if boundary <= MAX_SAFE { DecisionsAreValid(q, boundary, mode); } else { NoneBeyond(q, boundary); }
  }

  lemma DecidedBoundary(es: seq<Envelope>, boundary: int, mode: Mode)
    ensures var d := Decided(es, boundary, mode).decision;
      d.boundary == boundary && d.proposalCount == |es| && (es == [] ==> d.delivered == [])
  {
    hide WithRequirement, WithLens, Acts, Requirement, Lens, LegacyCount;
    if es == [] { NoWinner(); }
  }

  lemma NoneBeyond(q: Queue, boundary: int)
    requires ValidQueue(q) && boundary > MAX_SAFE
    ensures EntriesAt(q, boundary) == []
  {
    hide ValidQueue;
    EntriesIn(q, boundary);
    var es := EntriesAt(q, boundary);
    assert es != [] ==> es[0] in es && IsProposal(es[0].proposal);
  }

  /** Every event keeps the invariant, and charges exactly when the model hears. */
  lemma StepInv(s: State, e: Event)
    requires Inv(s)
    ensures var t := Step(s, e);
      && Inv(t)
      && (!e.SessionStart? ==> t.rescues == s.rescues + if Hears(s, e) then 1 else 0)
  {
    hide ValidQueue, Emitted, Deciding, IsDecision, Offered;
    match e
    case Proposed(envelope) => EmittedValid(s.queue, envelope);
    case TurnEnd(pseudo, others, mode) =>
      OfferedHolds(s, pseudo, others);
      if mode.Some? { DeliveringIsAnnounced(Offered(s, pseudo, others).queue, s.turn, mode.value); }
    case AgentStart => EmptyIsValid();
    case SessionStart => EmptyIsValid();
  }

  lemma EmptyIsValid()
    ensures ValidQueue([])
  {
  }

  /** Whatever the arbiter does in which turn, at most two rescues are charged, and exactly
      those that the model heard. */
  lemma {:induction false} RescuesAreHeard(events: seq<Event>)
    ensures Inv(Run(events)) && Run(events).rescues == Heard(events) <= 2
  {
    if events == [] {
      EmptyIsValid();
    } else {
      hide Inv, Step, Hears;
      var n := |events| - 1;
      RescuesAreHeard(events[..n]);
      StepInv(Run(events[..n]), events[n]);
      FreshStart(Run(events[..n]), events[n]);
      InvBounds(Run(events));
    }
  }

  lemma FreshStart(s: State, e: Event)
    ensures e.SessionStart? ==> Step(s, e).rescues == 0
  {
  }

  lemma InvBounds(s: State)
    requires Inv(s)
    ensures s.rescues <= MAX_RESCUES
  {
  }

  // ---- A proposal is settled at the end of its turn ---------------------------------------

  lemma {:induction false} OthersKeepEntries(q: Queue, es: seq<Envelope>, boundary: int)
    requires ValidQueue(q) && EntriesAt(q, boundary) != [] && forall e | e in es :: e.proposal.boundary == boundary
    ensures EntriesAt(EmittedAll(q, es), boundary) != []
  {
    hide ValidQueue, EntriesAt, Added;
    if es != [] {
      var n := |es| - 1;
      var q' := EmittedAll(q, es[..n]);
      OthersKeepEntries(q, es[..n], boundary);
      EmittedAllValid(q, es[..n]);
      EmittedStands(q', es[n]);
    }
  }

  lemma EmittedStands(q: Queue, e: Envelope)
    requires ValidQueue(q)
    ensures IsProposal(e.proposal) ==> EntriesAt(Emitted(q, e), e.proposal.boundary) != []
  {
    hide ValidQueue, EntriesAt, Added;
    if IsProposal(e.proposal) {
      if HasId(EntriesAt(q, e.proposal.boundary), e.proposal.id) {
        AddedValid(q, e);
      } else {
        AddingEvictsOnlyTheOldest(q, e);
      }
    }
  }

  /** When the producers behind the rescue propose for the turn that ends and the arbiter is
      there, nothing made for that turn stays parked. */
  lemma TurnSettles(s: State, p: Pseudo, others: seq<Envelope>, mode: Mode)
    requires Inv(s) && s.turn <= MAX_SAFE && s.rescues < MAX_RESCUES && p.enforcing
    requires forall e | e in others :: e.proposal.boundary == s.turn
    ensures Step(s, TurnEnd(Some(p), others, Some(mode))).parked == None
  {
    hide ValidQueue, Deciding, IsDecision, EntriesAt, Emitted, EmittedAll;
    EmittedStands(s.queue, RescueOf(p, s.turn));
    EmittedValid(s.queue, RescueOf(p, s.turn));
    OthersKeepEntries(Emitted(s.queue, RescueOf(p, s.turn)), others, s.turn);
    EmittedAllValid(Emitted(s.queue, RescueOf(p, s.turn)), others);
    DeliveringIsAnnounced(Offered(s, Some(p), others).queue, s.turn, mode);
  }
}
