/**
 Admission of provider requests. Every request is accounted for before it is sent; an
 admitted one leaves an allowance from which tools reserve their output. The state
 changes by events: reservations and releases, requests, model and session changes,
 compaction.
 */
module Admission {
  import opened Basics
  import opened Utf
  import opened Reservations

  // ---- Budgets -----------------------------------------------------------------------------

  /** A finite number above zero, rounded down: 0 for one below one. */
  function FinitePositive(n: Num): (r: Option<nat>)
    ensures r.Some? <==> n.Finite? && n.value > 0.0
    ensures r.Some? ==> r.value as real <= n.value < r.value as real + 1.0
  {
    if n.Finite? && n.value > 0.0 then Some(n.value.Floor) else None
  }

  function FinitePositiveOf(n: Option<Num>): Option<nat> { if n.None? then None else FinitePositive(n.value) }

  datatype Profile = Profile(epoch: Epoch, safeInput: Option<nat>, outputReserve: Num, overhead: Num)

  // ---- Accounting ----------------------------------------------------------------------------

  datatype Tokenization = Exact | Estimated | Uncounted

  /** The counted payload; `tokens` is its count or estimate. */
  datatype Payload = Payload(tokens: nat, tokenization: Tokenization, digest: Text)

  /** An observed context size, bound to the epoch and compaction it was seen in. */
  datatype Observation = Observation(tokens: Num, window: Option<Num>, epoch: Epoch, generation: nat)

  datatype Relation = NotAvailable | Within | Over | Mismatch

  datatype Verdict = Admitted | WindowUnknown | PayloadUnavailable | StaleUsage | ObservedOver | AggregateOver

  datatype Budget = Budget(window: Option<nat>, completion: nat, overhead: nat, input: nat)

  datatype Accounting = Accounting(
    budget: Budget, payload: nat, observed: Option<nat>, observedWindow: Option<nat>, margin: nat, reserved: nat,
    relation: Relation, verdict: Verdict, digest: Text)
  {
    function Load(): nat { if observed.Some? && observed.value > payload then observed.value else payload }

    function Remaining(): int { budget.input - Load() - margin - reserved }

    function Total(): nat { payload + budget.overhead + margin + reserved + budget.completion }
  }

  function BudgetOf(p: Profile): Budget {
    var served := FinitePositiveOf(p.epoch.served);
    var window := if served.Some? then served else FinitePositiveOf(p.epoch.declared);
    var completion := FinitePositive(p.outputReserve);
    var c := if completion.Some? then completion.value else 0;
    var o: nat := if p.overhead.Finite? && p.overhead.value >= 0.0 then p.overhead.value.Floor else 0;
    var safe := if p.safeInput.Some? then p.safeInput.value else 0;
    Budget(window, c, o, if window.None? then 0 else Max(0, Min(safe, window.value - c - o)))
  }

  function MarginOf(p: Payload): nat { if p.tokenization.Estimated? then Max(32, (p.tokens * 12 + 99) / 100) else 0 }

  function RelationOf(b: Budget, p: Profile, o: Option<Observation>, generation: nat): Relation {
    if o.None? || FinitePositive(o.value.tokens).None? then NotAvailable
    else
      var seen := FinitePositiveOf(o.value.window);
      if o.value.epoch != p.epoch || o.value.generation != generation || (seen.Some? && b.window.Some? && seen != b.window) then Mismatch
      else if FinitePositive(o.value.tokens).value <= b.input then Within
      else Over
  }

  function VerdictOf(a: Accounting, t: Tokenization): Verdict {
    if a.budget.window.None? then WindowUnknown
    else if t.Uncounted? then PayloadUnavailable
    else if a.relation.Mismatch? then StaleUsage
    else if a.relation.Over? && a.Total() <= a.budget.window.value then ObservedOver
    else if a.Remaining() < 0 then AggregateOver
    else Admitted
  }

  function Account(p: Profile, payload: Payload, o: Option<Observation>, generation: nat, reserved: nat): Accounting {
    var b := BudgetOf(p);
    var a := Accounting(
      b, payload.tokens,
      if o.None? then None else FinitePositive(o.value.tokens),
      if o.None? then None else FinitePositiveOf(o.value.window),
      MarginOf(payload), reserved, RelationOf(b, p, o, generation), Admitted, payload.digest);
    a.(verdict := VerdictOf(a, payload.tokenization))
  }

  /** The request, its uncertainty, what is reserved beside it and what is kept for the
      answer all fit in the window. */
  predicate Fits(a: Accounting, reserved: nat) {
    a.budget.window.Some? && a.Load() + a.margin + reserved + a.budget.overhead + a.budget.completion <= a.budget.window.value
  }

  /** An admitted request fits, unless it counts as nothing and the kept part alone does not fit. */
  lemma AdmittedFitsExactly(p: Profile, payload: Payload, o: Option<Observation>, generation: nat, reserved: nat)
    requires Account(p, payload, o, generation, reserved).verdict.Admitted?
    ensures var a := Account(p, payload, o, generation, reserved);
      && a.Remaining() >= 0 && (a.relation.NotAvailable? || a.relation.Within?)
      && (Fits(a, reserved) <==>
           a.Load() + a.margin + reserved > 0 || a.budget.completion + a.budget.overhead <= a.budget.window.value)
  {
    hide MarginOf, FinitePositiveOf;
  }

  /** With an estimated count the margin is never zero, so every admitted request fits. */
  lemma EstimatedAdmittedFits(p: Profile, payload: Payload, o: Option<Observation>, generation: nat, reserved: nat)
    requires Account(p, payload, o, generation, reserved).verdict.Admitted? && payload.tokenization.Estimated?
    ensures Fits(Account(p, payload, o, generation, reserved), reserved)
  {
    AdmittedFitsExactly(p, payload, o, generation, reserved);
  }

  // ---- The state ---------------------------------------------------------------------------------

  datatype RecoveryKey = RecoveryKey(epoch: Epoch, request: Text)

  datatype Serving = Serving(profile: Option<Profile>, epoch: Option<Epoch>)

  /** What tools may reserve; the accounting of the admitted request it comes from, if it does. */
  datatype Capacity = Capacity(allowance: Option<int>, admitted: Option<Accounting>)

  datatype Seen = Seen(overflow: Option<Observation>, generation: nat)

  datatype Recovery = Recovery(pending: Option<RecoveryKey>, attempted: set<RecoveryKey>)

  datatype Holdings = Holdings(active: set<Text>, ledger: seq<Reservation>)

  datatype State = State(serving: Serving, capacity: Capacity, seen: Seen, recovery: Recovery, holdings: Holdings)

  const NO_CAPACITY: Capacity := Capacity(None, None)
  const NOTHING_HELD: Holdings := Holdings({}, [])
  const START: State := State(Serving(None, None), NO_CAPACITY, Seen(None, 0), Recovery(None, {}), NOTHING_HELD)

  const MAX_ATTEMPTS: nat := 32

  /** The context usage a request event reports. */
  datatype Usage = Usage(tokens: Num, window: Option<Num>)

  datatype Event =
    | Reserve(id: Text, tokens: Num)
    | Release(id: Text)
    | SessionStart(profile: Option<Profile>)
    | ModelSelect(profile: Option<Profile>)
    | SessionCompact
    | Request(enabled: bool, profile: Option<Profile>, payload: Option<Payload>, usage: Option<Usage>)
    | AgentSettled(enabled: bool, canCompact: bool, leased: bool)
    | RecoveryFinished(epoch: Option<Epoch>)
    | SessionShutdown

  function Sync(s: State, p: Option<Profile>): State {
    if p.None? then
      s.(serving := s.serving.(epoch := None), capacity := NO_CAPACITY, holdings := s.holdings.(ledger := []))
    else if s.serving.epoch == Some(p.value.epoch) then s
    else
      State(
        s.serving.(epoch := Some(p.value.epoch)), NO_CAPACITY, s.seen.(overflow := None), s.recovery.(pending := None),
        Holdings({}, Only(s.holdings.ledger, p.value.epoch)))
  }

  /** The state after a reservation was asked for, and the answer. */
  function ReserveStep(s: State, id: Text, tokens: Num): (State, ReservationResult) {
    if s.serving.profile.None? then (s, Refused(Unavailable))
    else
      var p := s.serving.profile.value;
      var t := Sync(s, Some(p));
      if p.safeInput.None? || t.capacity.allowance.None? then (t, Refused(Unavailable))
      else
        var (ledger, answer) := Reserving(t.holdings.ledger, id, p.epoch, tokens, Finite(t.capacity.allowance.value as real));
        (t.(holdings := Holdings(if answer.Reserved? then t.holdings.active + {id} else t.holdings.active, ledger)), answer)
  }

  function ReleaseStep(h: Holdings, id: Text): Holdings {
    if id !in h.active then h else Holdings(h.active - {id}, Remove(h.ledger, id))
  }

  predicate Usable(u: Option<Usage>) { u.Some? && u.value.tokens.Finite? && u.value.tokens.value >= 0.0 }

  function Observed(s: State, p: Profile, u: Option<Usage>): Option<Observation> {
    if Usable(u) then Some(Observation(u.value.tokens, u.value.window, p.epoch, s.seen.generation)) else s.seen.overflow
  }

  function AccountFor(s: State, p: Profile, payload: Payload, u: Option<Usage>): Accounting {
    Account(p, payload, Observed(s, p, u), s.seen.generation, Sum(s.holdings.ledger, p.epoch))
  }

  /** A fresh overflow is remembered and a fresh fit forgets it. */
  function Remembered(s: State, p: Profile, a: Accounting, u: Option<Usage>): Seen {
    if !Usable(u) then s.seen
    else if a.relation.Over? && a.observed.Some? then
      var w := if a.observedWindow.Some? then a.observedWindow else if a.budget.window.Some? then a.budget.window else Some(0);
      s.seen.(overflow := Some(Observation(Finite(a.observed.value as real), Some(Finite(w.value as real)), p.epoch, s.seen.generation)))
    else if a.relation.Within? then s.seen.(overflow := None)
    else s.seen
  }

  function CapacityOf(a: Accounting): Capacity {
    if a.verdict.Admitted? then Capacity(Some(Max(0, a.Remaining() + a.reserved)), Some(a)) else Capacity(Some(0), None)
  }

  function RequestStep(s: State, p: Option<Profile>, payload: Option<Payload>, u: Option<Usage>): State {
    var s0 := s.(recovery := s.recovery.(pending := None));
    if p.None? then s0
    else
      var t := Sync(s0.(serving := s0.serving.(profile := p)), p);
      if payload.None? then t
      else
        var a := AccountFor(t, p.value, payload.value, u);
        t.(
          capacity := CapacityOf(a),
          seen := Remembered(t, p.value, a, u),
          recovery := if a.verdict.AggregateOver? || a.verdict.ObservedOver?
                      then t.recovery.(pending := Some(RecoveryKey(p.value.epoch, a.digest))) else t.recovery)
  }

  /** Whether settling starts a compaction, and the recovery state after it. */
  function SettleStep(s: State, enabled: bool, canCompact: bool, leased: bool): (State, bool) {
    var t := s.(holdings := NOTHING_HELD);
    var r := s.recovery;
    if r.pending.None? || r.pending.value in r.attempted || s.serving.epoch != Some(r.pending.value.epoch) || !enabled
       || !canCompact || |r.attempted| >= MAX_ATTEMPTS || !leased then (t, false)
    else (t.(recovery := Recovery(None, r.attempted + {r.pending.value})), true)
  }

  function StartStep(s: State, p: Option<Profile>): State {
    Sync(State(Serving(p, None), s.capacity, s.seen.(generation := 0), Recovery(None, {}), NOTHING_HELD), p)
  }

  function Step(s: State, e: Event): State {
    match e
    case Reserve(id, tokens) => ReserveStep(s, id, tokens).0
    case Release(id) => s.(holdings := ReleaseStep(s.holdings, id))
    case SessionStart(p) => StartStep(s, p)
    case ModelSelect(p) => Sync(s.(serving := s.serving.(profile := p)), p)
    case SessionCompact => s.(seen := s.seen.(generation := s.seen.generation + 1), capacity := NO_CAPACITY)
    case Request(enabled, p, payload, u) => if enabled then RequestStep(s, p, payload, u) else s
    case AgentSettled(enabled, canCompact, leased) => SettleStep(s, enabled, canCompact, leased).0
    case RecoveryFinished(epoch) => if epoch == s.serving.epoch then s.(capacity := NO_CAPACITY) else s
    case SessionShutdown => s.(serving := Serving(None, None), holdings := NOTHING_HELD)
  }

  function Run(events: seq<Event>): State {
    if events == [] then START else Step(Run(events[..|events| - 1]), events[|events| - 1])
  }
}
