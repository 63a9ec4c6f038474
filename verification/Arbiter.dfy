/**
 The control arbiter's queue. Producers propose corrections for a turn boundary; at
 the boundary one of them wins, two losers may be merged into its message, and the
 decision names every proposal whose content reached the model.
 */
module Arbiter {
  import opened Basics
  import opened Utf
  import opened StableSort
  import Authority

  datatype Kind = SafeAbort | VerificationRequired | FailureRecovery | PlanResolution | ToolRescue | ContextHint

  datatype Reason =
    | PolicyRejection | CompileOrLint | LoopHardStop | SemanticTier | OutcomeRepeat | SessionRepeat | ExactGateMissing
    | VerificationPlateau | LoopRecovery | PlanBlocked | PseudoToolCall | ResearchUnverified | StateLens

  datatype Source = LoopBreaker | VerifyGate | ToolCallRescue | SessionBlackboard | PlanRunner | Ketch

  datatype Factory =
    | LoopSemantic | LoopOutcome | LoopSession | LoopTier | VerifyWrap | VerificationPlateauText | ToolRescueText
    | StateLensText | PlanHold | ResearchWrap

  datatype Effect = Message | Abort | Shutdown

  datatype Mode = Shadow | Enforce | Off

  datatype Proposal = Proposal(
    id: Text, boundary: int, kind: Kind, priority: int, reason: Reason, source: Source, cooldown: Text,
    factory: Factory, effect: Effect, legacyActed: bool)

  /** The callbacks are either there or not. */
  datatype Delivery = Delivery(message: Option<Text>, abort: bool, shutdown: bool)

  datatype Envelope = Envelope(proposal: Proposal, delivery: Delivery)

  datatype Bucket = Bucket(boundary: int, entries: seq<Envelope>)

  /** Buckets in the order their boundaries were first proposed for. */
  type Queue = seq<Bucket>

  datatype Decision = Decision(
    boundary: int, mode: Mode, proposalCount: int, collisionCount: int, legacyActionCount: int,
    winner: Option<Proposal>, delivered: seq<Text>)

  datatype Outcome = Outcome(decision: Decision, delivery: Option<Delivery>, lensMerged: bool, verificationMerged: bool)

  const MAX_PENDING: nat := 128
  const MAX_MESSAGE_CHARS: nat := 4000
  const MAX_SAFE: int := 0x1F_FFFF_FFFF_FFFF
  const SEPARATOR: Text := [10, 10]

  function PriorityOf(k: Kind): int {
    match k
    case SafeAbort => 700
    case FailureRecovery => 600
    case VerificationRequired => 500
    case PlanResolution => 300
    case ToolRescue => 200
    case ContextHint => 100
  }

  predicate IsProposal(p: Proposal) {
    Authority.IsHash(p.id) && Authority.IsHash(p.cooldown) && 0 <= p.boundary <= MAX_SAFE && p.priority == PriorityOf(p.kind)
  }

  /** The validator of published decisions. */
  predicate IsDecision(d: Decision) {
    && 0 <= d.boundary <= MAX_SAFE
    && 0 <= d.proposalCount <= MAX_SAFE && 0 <= d.legacyActionCount <= d.proposalCount
    && d.collisionCount == (if d.proposalCount > 0 then d.proposalCount - 1 else 0)
    && (forall id | id in d.delivered :: Authority.IsHash(id))
    && |d.delivered| <= d.proposalCount
    && (d.mode.Enforce? || d.delivered == [])
    && (if d.proposalCount == 0 then d.winner.None? else d.winner.Some? && IsProposal(d.winner.value))
  }

  // ---- Adding --------------------------------------------------------------------------------

  function Bounded(e: Envelope): Envelope {
    e.(delivery := e.delivery.(message := if e.delivery.message.None? then None else Some(Take(e.delivery.message.value, MAX_MESSAGE_CHARS))))
  }

  function BucketAt(q: Queue, boundary: int): (n: nat)
    ensures n <= |q|
    ensures n < |q| ==> q[n].boundary == boundary
    ensures forall i | 0 <= i < n :: q[i].boundary != boundary
    ensures n == |q| ==> forall b | b in q :: b.boundary != boundary
  {
    if q == [] then 0
    else if q[0].boundary == boundary then 0
    else
      assert forall i | 0 < i < |q| :: q[i] == q[1..][i - 1];
      1 + BucketAt(q[1..], boundary)
  }

  function EntriesAt(q: Queue, boundary: int): seq<Envelope> {
    var n := BucketAt(q, boundary);
    if n < |q| then q[n].entries else []
  }

  predicate HasId(es: seq<Envelope>, id: Text) { exists e | e in es :: e.proposal.id == id }

  function Inserted(q: Queue, e: Envelope): Queue {
    var n := BucketAt(q, e.proposal.boundary);
    if n < |q| then q[n := q[n].(entries := q[n].entries + [Bounded(e)])]
    else q + [Bucket(e.proposal.boundary, [Bounded(e)])]
  }

  function Total(q: Queue): nat {
    if q == [] then 0 else |q[0].entries| + Total(q[1..])
  }

  /** Without the first entry of the oldest bucket. */
  function EvictOldest(q: Queue): Queue
    requires q != []
  {
    if |q[0].entries| <= 1 then q[1..] else [q[0].(entries := q[0].entries[1..])] + q[1..]
  }

  function Added(q: Queue, e: Envelope): Queue {
    if HasId(EntriesAt(q, e.proposal.boundary), e.proposal.id) then q
    else
      var next := Inserted(q, e);
      if Total(next) > MAX_PENDING && next != [] then EvictOldest(next) else next
  }

  // ---- Deciding ------------------------------------------------------------------------------

  predicate Terminal(p: Proposal) { !p.effect.Message? }

  type Ranked = (Envelope, int)

  /** Terminal proposals first, then the higher priority, then the earlier one. */
  function Rank(r: Ranked): Key { (if Terminal(r.0.proposal) then -1 else 0, -r.0.proposal.priority, r.1) }

  function Indexed(es: seq<Envelope>): (r: seq<Ranked>)
    ensures |r| == |es|
    ensures forall i | 0 <= i < |es| :: r[i] == (es[i], i)
  {
    seq(|es|, i requires 0 <= i < |es| => (es[i], i))
  }

  predicate HasText(e: Envelope) { e.delivery.message.Some? && e.delivery.message.value != [] }

  predicate IsRequirement(e: Envelope) {
    && e.proposal.kind.VerificationRequired? && e.proposal.source.VerifyGate? && e.proposal.reason.ExactGateMissing?
    && e.proposal.factory.VerifyWrap? && e.proposal.effect.Message? && HasText(e)
  }

  predicate IsLens(e: Envelope) {
    e.proposal.reason.StateLens? && e.proposal.source.SessionBlackboard? && e.proposal.effect.Message? && HasText(e)
  }

  function FirstThat(es: seq<Envelope>, test: Envelope -> bool): (r: Option<Envelope>)
    ensures r.Some? ==> r.value in es && test(r.value)
    ensures r.None? ==> forall e | e in es :: !test(e)
  {
    if es == [] then None
    else if test(es[0]) then Some(es[0])
    else FirstThat(es[1..], test)
  }

  /** `head` cut so that it fits in front of a text that is kept whole, if there is room. */
  function Joined(head: Text, tail: Text): Option<Text> {
    if |tail| + |SEPARATOR| < MAX_MESSAGE_CHARS then
      Some(Take(head, MAX_MESSAGE_CHARS - |tail| - |SEPARATOR|) + SEPARATOR + tail)
    else None
  }

  /** The loser whose requirement belongs behind the winner's message. */
  function Requirement(es: seq<Envelope>, winner: Envelope, mode: Mode): Option<Envelope> {
    if mode.Enforce? && winner.proposal.kind.FailureRecovery? && winner.proposal.effect.Message? then FirstThat(es, IsRequirement)
    else None
  }

  /** The loser whose lens belongs in front of it. */
  function Lens(es: seq<Envelope>, winner: Envelope, mode: Mode): Option<Envelope> {
    if mode.Enforce? && winner.proposal.effect.Message? && !winner.proposal.reason.StateLens? then FirstThat(es, IsLens)
    else None
  }

  function WithRequirement(d: Delivery, v: Option<Envelope>): (r: (Delivery, bool)) {
    if v.None? || d.message.None? || v.value.delivery.message.None? then (d, false)
    else
      match Joined(d.message.value, v.value.delivery.message.value)
      case None => (d, false)
      case Some(m) => (d.(message := Some(m)), true)
  }

  function WithLens(d: Delivery, l: Option<Envelope>): (r: (Delivery, bool)) {
    if l.None? || d.message.None? || l.value.delivery.message.None? then (d, false)
    else
      match Joined(l.value.delivery.message.value, d.message.value)
      case None => (d, false)
      case Some(m) => (d.(message := Some(m)), true)
  }

  /** Whether the arbiter really does what the winner asks for. */
  predicate Acts(p: Proposal, d: Delivery) {
    match p.effect
    case Abort => d.abort
    case Shutdown => d.shutdown
    case Message => d.message.Some? && d.message.value != []
  }

  function LegacyCount(es: seq<Envelope>): (n: nat)
    ensures n <= |es|
  {
    if es == [] then 0 else (if es[0].proposal.legacyActed then 1 else 0) + LegacyCount(es[1..])
  }

  function Winner(es: seq<Envelope>): Option<Envelope> {
    if es == [] then None
    else
      SortSorts(Indexed(es), Rank);
      Some(Sort(Indexed(es), Rank)[0].0)
  }

  function Decided(es: seq<Envelope>, boundary: int, mode: Mode): Outcome {
    var count, collisions := |es|, if |es| > 0 then |es| - 1 else 0;
    match Winner(es)
    case None => Outcome(Decision(boundary, mode, count, collisions, LegacyCount(es), None, []), None, false, false)
    case Some(w) =>
      var v, l := Requirement(es, w, mode), Lens(es, w, mode);
      var (d1, verified) := WithRequirement(w.delivery, v);
      var (d2, lensed) := WithLens(d1, l);
      var delivered :=
        if mode.Enforce? && Acts(w.proposal, d2) then
          [w.proposal.id] + (if verified && v.Some? then [v.value.proposal.id] else [])
                          + (if lensed && l.Some? then [l.value.proposal.id] else [])
        else [];
      Outcome(Decision(boundary, mode, count, collisions, LegacyCount(es), Some(w.proposal), delivered), Some(d2), lensed, verified)
  }

  function Without(q: Queue, boundary: int): Queue {
    var n := BucketAt(q, boundary);
    if n < |q| then q[..n] + q[n + 1..] else q
  }

  /** The queue and the outcome after a boundary is decided. */
  function Deciding(q: Queue, boundary: int, mode: Mode): (Queue, Outcome) {
    (Without(q, boundary), Decided(EntriesAt(q, boundary), boundary, mode))
  }
}
