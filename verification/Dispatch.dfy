/**
 The continuation dispatcher of harness/extensions/control-arbiter.ts as a state
 machine: one step for every handler, and one for every stretch of a flush between two
 awaits. Authorization answers may arrive in any order, early, late or never.
 */
module Dispatch {
  import opened Utf
  import opened StableSort
  import opened Authority

  type Time = t: int | t > 0 witness 1

  /** A candidate of a flush with its place among the offers. */
  type Candidate = (Request, nat)

  datatype Phase = First | Second

  /** A flush suspended in `authorize`: which candidate it asks about, and whether for
      the first or the second time; and, as history, how it began. */
  datatype Flush = Flush(id: nat, generation: nat, candidates: seq<Candidate>, index: nat, phase: Phase, start: Start)

  /** The turn a flush began in, and when. */
  datatype Start = Start(turn: Turn, at: Time)

  /** An authorization that was granted. */
  datatype Grant = Grant(flush: nat, index: nat, phase: Phase)

  /** A candidate passed over: its producer denied it, or it could no longer be sent. */
  datatype Refusal = Refusal(flush: nat, index: nat, denied: bool)

  /** History: what was known when a continuation was sent. */
  datatype Sent = Sent(flush: Flush, session: Text, log: seq<Entry>, at: Time, idle: bool,
                       grants: set<Grant>, refusals: set<Refusal>)

  datatype Budget = Budget(max: Option<nat>, windowMs: nat)

  /** The session, what was delivered in it, and all session logs. */
  datatype Books = Books(session: Option<Text>, delivered: set<Text>, owners: set<Text>,
                         logs: map<Text, seq<Entry>>, sent: seq<Sent>)

  /** The user turn: how many runs the harness started in it, and how it was stopped. */
  datatype Turn = Turn(count: nat, startedAt: int, harnessStartedRun: bool, stoppedByAbort: bool, compactionAbort: bool)

  /** The offers, the flag of a scheduled flush, and the flush tasks really queued. */
  datatype Queue = Queue(live: bool, agentActive: bool, boundary: bool, pending: seq<Request>, scheduled: bool, tasks: nat)

  /** The lock, the lifecycle generation, the suspended flushes and their history. */
  datatype Flights = Flights(inFlight: bool, generation: nat, flushes: seq<Flush>, nextId: nat,
                             grants: set<Grant>, refusals: set<Refusal>)

  datatype State = State(books: Books, turn: Turn, queue: Queue, flights: Flights)

  datatype Event =
    | Offer(request: Request)
    | RunTask(now: Time)
    | Answer(id: nat, ok: bool, now: Time)
    | SessionStart(session: Text, now: Time)
    | SessionShutdown
    | BeforeCompact
    | Compacted
    | BeforeAgentStart(now: Time)
    | AgentStart
    | Settlement(completed: bool, aborted: bool, compacting: bool, now: Time)
    | SettlementClosed
    | AgentSettled(aborted: bool, compacting: bool)
    | LogGrows(session: Text)
    | LogCreated(session: Text, entries: seq<Entry>)

  function LogOf(b: Books, session: Text): seq<Entry> {
    if session in b.logs then b.logs[session] else []
  }

  function Schedule(q: Queue): Queue {
    if q.scheduled then q else q.(scheduled := true, tasks := q.tasks + 1)
  }

  /** The request may still be sent, as far as a flush can see at its start. */
  predicate Eligible(b: Books, r: Request, now: Time) {
    && b.session == Some(r.session) && r.expiresAt >= now
    && r.key !in b.delivered && OwnerKey(r.owner, r.generation) !in b.owners
  }

  function Indexed(b: Books, pending: seq<Request>, now: Time): seq<Candidate> {
    if pending == [] then []
    else
      var before := Indexed(b, pending[..|pending| - 1], now);
      var r := pending[|pending| - 1];
      if Eligible(b, r, now) then before + [(r, |before|)] else before
  }

  function Rank(c: Candidate): Key {
    var priority: int := c.0.priority;
    (-priority, c.1, 0)
  }

  /** The offers of a flush, best first: higher priority, then earlier. */
  function Candidates(b: Books, pending: seq<Request>, now: Time): seq<Candidate> {
    Sort(Indexed(b, pending, now), Rank)
  }

  predicate OverBudget(budget: Budget, t: Turn, now: Time) {
    (budget.max.Some? && t.count >= budget.max.value) || now - t.startedAt > budget.windowMs
  }

  /** The `finally` of a flush: late offers go with what was sent, or get a flush. */
  function EndFlush(q: Queue, dispatched: bool): Queue {
    if dispatched then q.(pending := [])
    else if q.live && !q.agentActive && q.pending != [] then Schedule(q)
    else q
  }

  function Launch(fl: Flights, candidates: seq<Candidate>, start: Start): Flights {
    fl.(inFlight := true, nextId := fl.nextId + 1,
        flushes := fl.flushes + [Flush(fl.nextId, fl.generation, candidates, 0, First, start)])
  }

  /** The flush from its start to its first await, or to its end. */
  function StartFlush(budget: Budget, s: State, now: Time): State {
    var q := s.queue.(scheduled := false);
    if s.flights.inFlight then s.(queue := q)
    else if !q.live || s.books.session.None? || q.agentActive then s.(queue := EndFlush(q, false))
    else if q.pending == [] || s.turn.stoppedByAbort || OverBudget(budget, s.turn, now) then
      s.(queue := q.(pending := []))
    else
      var candidates := Candidates(s.books, q.pending, now);
      s.(queue := q.(pending := []), flights := if candidates == [] then s.flights else Launch(s.flights, candidates, Start(s.turn, now)))
  }

  function Find(flushes: seq<Flush>, id: nat): (k: nat)
    ensures k <= |flushes| && (k < |flushes| ==> flushes[k].id == id)
    ensures forall i | 0 <= i < k :: flushes[i].id != id
  {
    if flushes == [] || flushes[0].id == id then 0 else 1 + Find(flushes[1..], id)
  }

  function Drop(fl: Flights, k: nat): Flights
    requires k < |fl.flushes|
  {
    fl.(flushes := fl.flushes[..k] + fl.flushes[k + 1..])
  }

  function Refused(fl: Flights, k: nat, denied: bool): Flights
    requires k < |fl.flushes|
  {
    fl.(refusals := fl.refusals + {Refusal(fl.flushes[k].id, fl.flushes[k].index, denied)})
  }

  function Replace(fl: Flights, k: nat, f: Flush): Flights
    requires k < |fl.flushes|
  {
    fl.(flushes := fl.flushes[k := f])
  }

  /** Past the current candidate: on to the next one, or to the end. */
  function Reject(s: State, k: nat, denied: bool): State
    requires k < |s.flights.flushes|
  {
    var f, fl := s.flights.flushes[k], Refused(s.flights, k, denied);
    if s.queue.live && f.index + 1 < |f.candidates| then
      s.(flights := Replace(fl, k, f.(index := f.index + 1, phase := First)))
    else s.(flights := Drop(fl, k).(inFlight := false), queue := EndFlush(s.queue, false))
  }

  function ReceiptFor(r: Request, session: Text, now: Time): Receipt {
    Receipt(r.key, session, now, Some((r.owner, r.generation)))
  }

  /** Mark the request delivered and write its receipt. */
  function Record(b: Books, r: Request, session: Text, now: Time, sent: Sent): Books {
    b.(delivered := b.delivered + {r.key},
       owners := b.owners + {OwnerKey(r.owner, r.generation)},
       logs := b.logs[session := LogOf(b, session) + [ReceiptEntry(ReceiptFor(r, session, now))]],
       sent := b.sent + [sent])
  }

  /** Send candidate `r` of flush `k`: record it, count it, then steer or start a run. */
  function Deliver(s: State, k: nat, r: Request, now: Time): State
    requires k < |s.flights.flushes| && s.books.session.Some?
  {
    var session := s.books.session.value;
    var sent := Sent(s.flights.flushes[k], session, LogOf(s.books, session), now, !s.queue.agentActive,
                     s.flights.grants, s.flights.refusals);
    State(Record(s.books, r, session, now, sent),
          s.turn.(count := s.turn.count + 1, harnessStartedRun := s.turn.harnessStartedRun || !s.queue.boundary),
          EndFlush(s.queue, true),
          Drop(s.flights, k).(inFlight := false))
  }

  function Granted(fl: Flights, f: Flush): Flights {
    fl.(grants := fl.grants + {Grant(f.id, f.index, f.phase)})
  }

  /** An authorization settles and its flush runs on to its next await or its end. */
  function Resume(s0: State, id: nat, ok: bool, now: Time): State {
    var k := Find(s0.flights.flushes, id);
    if k == |s0.flights.flushes| then s0
    else
      var f := s0.flights.flushes[k];
      var s := if ok then s0.(flights := Granted(s0.flights, f)) else s0;
      if f.generation != s.flights.generation || f.index >= |f.candidates| then s.(flights := Drop(s.flights, k))
      else if ok && f.phase == First then s.(flights := Replace(s.flights, k, f.(phase := Second)))
      else if !ok || Blocked(s, f.candidates[f.index].0, now) then Reject(s, k, !ok)
      else Deliver(s, k, f.candidates[f.index].0, now)
  }

  /** Why a granted request is still not sent. */
  predicate Blocked(s: State, r: Request, now: Time) {
    !s.queue.live || s.queue.agentActive || s.books.session != Some(r.session) || r.expiresAt < now
  }

  predicate UserAbort(t: Turn, aborted: bool, compacting: bool) {
    aborted && !t.compactionAbort && !compacting
  }

  function Step(budget: Budget, s: State, e: Event): State {
    match e
    case Offer(r) =>
      if !IsRequest(r) || !s.queue.live || s.books.session.None? then s
      else s.(queue := Schedule(s.queue.(pending := s.queue.pending + [r])))
    case RunTask(now) =>
      if s.queue.tasks == 0 then s else StartFlush(budget, s.(queue := s.queue.(tasks := s.queue.tasks - 1)), now)
    case Answer(id, ok, now) => Resume(s, id, ok, now)
    case SessionStart(session, now) =>
      var log := LogOf(s.books, session);
      State(s.books.(session := Some(session), delivered := Receipts(log, session), owners := OwnerRevisions(log, session)),
            Turn(0, now, false, false, false),
            s.queue.(live := true, pending := [], scheduled := false),
            s.flights.(inFlight := false, generation := s.flights.generation + 1))
    case SessionShutdown =>
      s.(queue := s.queue.(live := false, pending := [], scheduled := false),
         flights := s.flights.(inFlight := false, generation := s.flights.generation + 1))
    case BeforeCompact => s.(turn := s.turn.(compactionAbort := true, stoppedByAbort := false))
    case Compacted => s.(turn := s.turn.(compactionAbort := false, stoppedByAbort := false))
    case BeforeAgentStart(now) =>
      s.(turn := if s.turn.harnessStartedRun then s.turn.(harnessStartedRun := false) else Turn(0, now, false, false, false))
    case AgentStart => s.(queue := s.queue.(agentActive := true))
    case Settlement(completed, aborted, compacting, now) =>
      if completed then StartFlush(budget, s.(queue := s.queue.(agentActive := false, boundary := true)), now)
      else s.(queue := s.queue.(agentActive := false, pending := []),
              turn := s.turn.(stoppedByAbort := UserAbort(s.turn, aborted, compacting)))
    case SettlementClosed => s.(queue := s.queue.(boundary := false))
    case AgentSettled(aborted, compacting) =>
      var stopped := s.turn.stoppedByAbort || UserAbort(s.turn, aborted, compacting);
      var q := s.queue.(agentActive := false);
      s.(turn := s.turn.(stoppedByAbort := stopped),
         queue := if stopped then q.(pending := []) else if q.pending != [] then Schedule(q) else q)
    case LogGrows(session) =>
      s.(books := s.books.(logs := s.books.logs[session := LogOf(s.books, session) + [OtherEntry]]))
    case LogCreated(session, entries) =>
      if s.books.session == Some(session) then s else s.(books := s.books.(logs := s.books.logs[session := entries]))
  }

  function Initial(now: Time, logs: map<Text, seq<Entry>>): State {
    State(Books(None, {}, {}, logs, []), Turn(0, now, false, false, false),
          Queue(true, false, false, [], false, 0), Flights(false, 0, [], 0, {}, {}))
  }

  function Run(budget: Budget, s: State, events: seq<Event>): State {
    if events == [] then s else Step(budget, Run(budget, s, events[..|events| - 1]), events[|events| - 1])
  }
}
