/** What holds of the dispatcher in every run. */
module DispatchFacts {
  import opened Utf
  import opened StableSort
  import opened Authority
  import opened Dispatch

  /** Flushes are told apart by their ids, and the lock is held exactly while one flush of
      the current generation is suspended. */
  ghost predicate Locks(fl: Flights) {
    && (forall i | 0 <= i < |fl.flushes| :: fl.flushes[i].id < fl.nextId && fl.flushes[i].generation <= fl.generation)
    && (forall i, j | 0 <= i < j < |fl.flushes| :: fl.flushes[i].id != fl.flushes[j].id)
    && (forall i, j | 0 <= i < j < |fl.flushes| ::
          fl.flushes[i].generation != fl.generation || fl.flushes[j].generation != fl.generation)
    && (fl.inFlight <==> exists i :: 0 <= i < |fl.flushes| && fl.flushes[i].generation == fl.generation)
  }

  /** The sets in memory are what the session log says. */
  predicate Balanced(b: Books) {
    b.session.Some? ==>
      && b.delivered == Receipts(LogOf(b, b.session.value), b.session.value)
      && b.owners == OwnerRevisions(LogOf(b, b.session.value), b.session.value)
  }

  predicate WithinBudget(budget: Budget, count: int) { budget.max.Some? ==> count <= budget.max.value }

  /** A candidate nothing was sent for. */
  predicate Unsent(b: Books, c: Candidate) {
    && IsRequest(c.0) && b.session == Some(c.0.session)
    && c.0.key !in b.delivered && OwnerKey(c.0.owner, c.0.generation) !in b.owners
  }

  predicate PassedOver(refusals: set<Refusal>, flush: nat, index: nat) {
    Refusal(flush, index, true) in refusals || Refusal(flush, index, false) in refusals
  }

  /** The higher priority goes first, and of equal ones the offer made earlier. */
  predicate GoesFirst(a: Candidate, b: Candidate) {
    a.0.priority > b.0.priority || (a.0.priority == b.0.priority && a.1 < b.1)
  }

  /** Strictly ordered by priority, then by arrival. */
  predicate Ranked(candidates: seq<Candidate>) {
    forall i, j | 0 <= i < j < |candidates| :: GoesFirst(candidates[i], candidates[j])
  }

  /** A flush of the current generation may still send any of its candidates; what it
      passed over was refused, and what it asks about again was granted once. */
  predicate Ready(b: Books, fl: Flights, f: Flush) {
    && f.index < |f.candidates|
    && (forall c | c in f.candidates :: Unsent(b, c))
    && Ranked(f.candidates)
    && (f.phase == Second ==> Grant(f.id, f.index, First) in fl.grants)
    && (forall i | 0 <= i < f.index :: PassedOver(fl.refusals, f.id, i))
  }

  predicate AllReady(b: Books, fl: Flights) {
    forall f | f in fl.flushes && f.generation == fl.generation :: Ready(b, fl, f)
  }

  /** While the lock is held the dispatcher is live and one more turn fits the budget. */
  predicate Room(budget: Budget, t: Turn, q: Queue, fl: Flights) {
    && WithinBudget(budget, t.count)
    && (fl.inFlight ==> q.live && WithinBudget(budget, t.count + 1))
  }

  /** The flush began when the user had not aborted and the turn's budget had room, in
      turns and in time. */
  predicate Begun(budget: Budget, f: Flush) {
    !f.start.turn.stoppedByAbort && !OverBudget(budget, f.start.turn, f.start.at)
  }

  predicate AllBegun(budget: Budget, flushes: seq<Flush>) { forall f | f in flushes :: Begun(budget, f) }

  /** Nothing is sent twice, while the agent works, late, out of turn, or by a flush that
      should not have begun. */
  predicate Proper(budget: Budget, d: Sent) {
    && Begun(budget, d.flush)
    && d.flush.index < |d.flush.candidates|
    && var r := d.flush.candidates[d.flush.index].0;
    && d.idle && r.session == d.session && r.expiresAt >= d.at
    && r.key !in Receipts(d.log, d.session)
    && OwnerKey(r.owner, r.generation) !in OwnerRevisions(d.log, d.session)
    && Grant(d.flush.id, d.flush.index, First) in d.grants && Grant(d.flush.id, d.flush.index, Second) in d.grants
    && Ranked(d.flush.candidates)
    && (forall i | 0 <= i < d.flush.index :: PassedOver(d.refusals, d.flush.id, i))
  }

  predicate AllProper(budget: Budget, sent: seq<Sent>) { forall d | d in sent :: Proper(budget, d) }

  predicate Requests(pending: seq<Request>) { forall r | r in pending :: IsRequest(r) }

  /** No offer is forgotten: while one waits and nothing keeps it waiting, a flush is due. */
  predicate Awake(q: Queue, inFlight: bool) {
    && (q.live && !q.agentActive && q.pending != [] && !inFlight ==> q.scheduled)
    && (q.scheduled ==> q.tasks > 0)
  }

  ghost predicate Core(budget: Budget, s: State) {
    && Locks(s.flights) && Balanced(s.books) && AllReady(s.books, s.flights) && AllBegun(budget, s.flights.flushes)
    && AllProper(budget, s.books.sent)
    && Room(budget, s.turn, s.queue, s.flights) && Requests(s.queue.pending)
  }

  ghost predicate Inv(budget: Budget, s: State) { Core(budget, s) && Awake(s.queue, s.flights.inFlight) }

  lemma InitialInv(budget: Budget, now: Time, logs: map<Text, seq<Entry>>)
    ensures Inv(budget, Initial(now, logs))
  {
  }

  // A new flush

  lemma {:induction false} IndexedEligible(b: Books, pending: seq<Request>, now: Time)
    requires Requests(pending)
    ensures forall c | c in Indexed(b, pending, now) :: IsRequest(c.0) && Eligible(b, c.0, now)
    ensures forall i | 0 <= i < |Indexed(b, pending, now)| :: Indexed(b, pending, now)[i].1 == i
  {
    if pending != [] { IndexedEligible(b, pending[..|pending| - 1], now); }
  }

  /** Candidates are the eligible offers, strictly ranked. */
  lemma CandidatesRanked(b: Books, pending: seq<Request>, now: Time)
    requires Requests(pending)
    ensures Ranked(Candidates(b, pending, now))
    ensures forall c | c in Candidates(b, pending, now) :: Unsent(b, c)
  {
    var indexed, ranked := Indexed(b, pending, now), Candidates(b, pending, now);
    IndexedEligible(b, pending, now);
    SortSorts(indexed, Rank);
    forall c | c in ranked ensures Unsent(b, c) { assert c in multiset(ranked); assert c in indexed; }
    forall i, j | 0 <= i < j < |ranked| ensures GoesFirst(ranked[i], ranked[j]) {
      assert !Less(Rank(ranked[j]), Rank(ranked[i]));
      SameIndexTwice(indexed, ranked, i, j);
    }
  }

  lemma SameIndexTwice(indexed: seq<Candidate>, ranked: seq<Candidate>, i: nat, j: nat)
    requires forall k | 0 <= k < |indexed| :: indexed[k].1 == k
    requires multiset(indexed) == multiset(ranked) && i < j < |ranked|
    ensures ranked[i].1 != ranked[j].1
  {
    assert ranked[i] in multiset(ranked) && ranked[j] in multiset(ranked);
    if ranked[i].1 == ranked[j].1 {
      TwiceCounts(ranked, i, j);
      DistinctCounts(indexed, ranked[i]);
    }
  }

  lemma LaunchLocks(fl: Flights, candidates: seq<Candidate>, start: Start)
    requires Locks(fl) && !fl.inFlight
    ensures Locks(Launch(fl, candidates, start))
  {
    assert Launch(fl, candidates, start).flushes[|fl.flushes|].generation == fl.generation;
  }

  /** What keeps a flush ready. */
  lemma ReadyKept(b: Books, fl: Flights, b': Books, fl': Flights, f: Flush)
    requires Ready(b, fl, f)
    requires b'.session == b.session && b'.delivered == b.delivered && b'.owners == b.owners
    requires fl.grants <= fl'.grants && fl.refusals <= fl'.refusals
    ensures Ready(b', fl', f)
  {
    forall c | c in f.candidates ensures Unsent(b', c) { assert Unsent(b, c); }
    forall i | 0 <= i < f.index ensures PassedOver(fl'.refusals, f.id, i) { assert PassedOver(fl.refusals, f.id, i); }
  }

  /** Flushes stay ready when none is added and what they rely on is kept. */
  lemma AllReadyKept(b: Books, fl: Flights, b': Books, fl': Flights)
    requires AllReady(b, fl)
    requires b'.session == b.session && b'.delivered == b.delivered && b'.owners == b.owners
    requires fl.grants <= fl'.grants && fl.refusals <= fl'.refusals && fl'.generation == fl.generation
    requires forall f | f in fl'.flushes && f.generation == fl.generation :: f in fl.flushes || Ready(b', fl', f)
    ensures AllReady(b', fl')
  {
    hide Ready;
    forall f | f in fl'.flushes && f.generation == fl'.generation ensures Ready(b', fl', f) {
      if f in fl.flushes { ReadyKept(b, fl, b', fl', f); }
    }
  }

  lemma LaunchReady(b: Books, fl: Flights, pending: seq<Request>, now: Time, start: Start)
    requires AllReady(b, fl) && Requests(pending) && Candidates(b, pending, now) != []
    ensures AllReady(b, Launch(fl, Candidates(b, pending, now), start))
  {
    CandidatesRanked(b, pending, now);
    hide Candidates, Unsent, Ranked;
    var fl' := Launch(fl, Candidates(b, pending, now), start);
    assert Ready(b, fl', fl'.flushes[|fl.flushes|]);
    AllReadyKept(b, fl, b, fl');
  }

  lemma LaunchBegun(budget: Budget, fl: Flights, candidates: seq<Candidate>, start: Start)
    requires AllBegun(budget, fl.flushes) && !start.turn.stoppedByAbort && !OverBudget(budget, start.turn, start.at)
    ensures AllBegun(budget, Launch(fl, candidates, start).flushes)
  {
    hide OverBudget;
  }

  /** A flush begins only while the agent is idle, the user has not aborted, and the
      budget of the turn has room. */
  lemma FlushStartsPermitted(budget: Budget, s: State, now: Time)
    requires StartFlush(budget, s, now).flights != s.flights
    ensures s.queue.live && !s.queue.agentActive && !s.turn.stoppedByAbort && !OverBudget(budget, s.turn, now)
    ensures !s.flights.inFlight && StartFlush(budget, s, now).flights.inFlight
    ensures StartFlush(budget, s, now).flights ==
      Launch(s.flights, Candidates(s.books, s.queue.pending, now), Start(s.turn, now))
  {
  }

  /** A flush leaves nothing asleep, however it was started. */
  lemma StartInv(budget: Budget, s: State, now: Time)
    requires Core(budget, s)
    ensures Inv(budget, StartFlush(budget, s, now))
  {
    hide Locks, AllReady, AllProper, AllBegun, Balanced, Candidates, Launch, IsRequest;
    var candidates := Candidates(s.books, s.queue.pending, now);
    if StartFlush(budget, s, now).flights != s.flights {
      FlushStartsPermitted(budget, s, now);
      LaunchLocks(s.flights, candidates, Start(s.turn, now));
      LaunchReady(s.books, s.flights, s.queue.pending, now, Start(s.turn, now));
      LaunchBegun(budget, s.flights, candidates, Start(s.turn, now));
    }
  }

  // An answer

  lemma DropLocks(fl: Flights, fl': Flights, k: nat)
    requires Locks(fl) && k < |fl.flushes| && fl'.flushes == fl.flushes[..k] + fl.flushes[k + 1..]
    requires fl'.generation == fl.generation && fl'.nextId == fl.nextId
    requires fl'.inFlight == (fl.inFlight && fl.flushes[k].generation != fl.generation)
    ensures Locks(fl')
  {
    DroppedAt(fl.flushes, k);
    if fl'.inFlight {
      var i :| 0 <= i < |fl.flushes| && fl.flushes[i].generation == fl.generation;
      assert fl'.flushes[if i < k then i else i - 1] == fl.flushes[i];
    }
  }

  lemma DroppedAt(fs: seq<Flush>, k: nat)
    requires k < |fs|
    ensures var r := fs[..k] + fs[k + 1..]; forall i | 0 <= i < |r| :: r[i] == fs[if i < k then i else i + 1]
  {
  }

  lemma ReplaceLocks(fl: Flights, fl': Flights, k: nat, f: Flush)
    requires Locks(fl) && k < |fl.flushes| && fl'.flushes == fl.flushes[k := f]
    requires f.id == fl.flushes[k].id && f.generation == fl.flushes[k].generation
    requires fl'.generation == fl.generation && fl'.nextId == fl.nextId && fl'.inFlight == fl.inFlight
    ensures Locks(fl')
  {
    if fl'.inFlight {
      var i :| 0 <= i < |fl.flushes| && fl.flushes[i].generation == fl.generation;
      assert fl'.flushes[i].generation == fl'.generation;
    }
  }

  lemma OnlyOneCurrent(fl: Flights, k: nat)
    requires Locks(fl) && k < |fl.flushes| && fl.flushes[k].generation == fl.generation
    ensures fl.inFlight
    ensures forall f | f in Drop(fl, k).flushes :: f.generation != fl.generation
  {
    forall f | f in Drop(fl, k).flushes ensures f.generation != fl.generation {
      var i :| 0 <= i < |fl.flushes| && i != k && fl.flushes[i] == f;
      var low, high := fl.flushes[if i < k then i else k], fl.flushes[if i < k then k else i];
      assert low.generation != fl.generation || high.generation != fl.generation;
    }
  }

  lemma NextReady(b: Books, fl: Flights, k: nat, denied: bool)
    requires AllReady(b, fl) && k < |fl.flushes| && fl.flushes[k].generation == fl.generation
    requires fl.flushes[k].index + 1 < |fl.flushes[k].candidates|
    ensures var f := fl.flushes[k];
      AllReady(b, Replace(Refused(fl, k, denied), k, f.(index := f.index + 1, phase := First)))
  {
    var f := fl.flushes[k];
    var next := f.(index := f.index + 1, phase := First);
    var fl' := Replace(Refused(fl, k, denied), k, next);
    assert Ready(b, fl, f);
    assert PassedOver(fl'.refusals, f.id, f.index);
    hide Unsent, Ranked;
    forall i | 0 <= i < next.index ensures PassedOver(fl'.refusals, f.id, i) {
      if i < f.index { assert PassedOver(fl.refusals, f.id, i); }
    }
    AllReadyKept(b, fl, b, fl');
  }

  lemma StillBegun(budget: Budget, flushes: seq<Flush>, k: nat, f: Flush)
    requires AllBegun(budget, flushes) && k < |flushes| && f.start == flushes[k].start
    ensures AllBegun(budget, flushes[k := f]) && AllBegun(budget, flushes[..k] + flushes[k + 1..])
  {
    hide OverBudget;
    assert flushes[k] in flushes;
  }

  lemma RejectInv(budget: Budget, s: State, k: nat, denied: bool)
    requires Inv(budget, s) && k < |s.flights.flushes| && s.flights.flushes[k].generation == s.flights.generation
    ensures Inv(budget, Reject(s, k, denied))
  {
    hide Ready, AllProper, Balanced, AllBegun;
    var f, fl, t := s.flights.flushes[k], Refused(s.flights, k, denied), Reject(s, k, denied);
    OnlyOneCurrent(s.flights, k);
    StillBegun(budget, s.flights.flushes, k, f.(index := f.index + 1, phase := First));
    if s.queue.live && f.index + 1 < |f.candidates| {
      ReplaceLocks(s.flights, t.flights, k, f.(index := f.index + 1, phase := First));
      NextReady(s.books, s.flights, k, denied);
    } else {
      DropLocks(s.flights, t.flights, k);
      AllReadyKept(s.books, s.flights, s.books, t.flights);
    }
    hide Locks, AllReady;
  }

  lemma RecordBalanced(b: Books, r: Request, now: Time, sent: Sent)
    requires Balanced(b) && IsRequest(r) && b.session == Some(r.session)
    ensures Balanced(Record(b, r, r.session, now, sent))
  {
    var e := ReceiptEntry(ReceiptFor(r, r.session, now));
    AddedEntry(LogOf(b, r.session), e, r.session);
    hide Receipts, OwnerRevisions;
    assert Counts(e, r.session) && RevisionKey(e.receipt) == OwnerKey(r.owner, r.generation);
  }

  lemma DeliverProper(budget: Budget, s: State, k: nat, now: Time)
    requires k < |s.flights.flushes| && Ready(s.books, s.flights, s.flights.flushes[k])
    requires Balanced(s.books) && AllProper(budget, s.books.sent) && s.books.session.Some?
    requires Begun(budget, s.flights.flushes[k])
    requires s.flights.flushes[k].phase == Second
    requires Grant(s.flights.flushes[k].id, s.flights.flushes[k].index, Second) in s.flights.grants
    requires var f := s.flights.flushes[k]; !Blocked(s, f.candidates[f.index].0, now)
    ensures var f := s.flights.flushes[k];
      && IsRequest(f.candidates[f.index].0) && s.books.session == Some(f.candidates[f.index].0.session)
      && AllProper(budget, Deliver(s, k, f.candidates[f.index].0, now).books.sent)
  {
    var f := s.flights.flushes[k];
    assert Unsent(s.books, f.candidates[f.index]);
    var d := Sent(f, s.books.session.value, LogOf(s.books, s.books.session.value), now, true, s.flights.grants, s.flights.refusals);
    assert Proper(budget, d);
    assert Deliver(s, k, f.candidates[f.index].0, now).books.sent == s.books.sent + [d];
  }

  lemma DeliverInv(budget: Budget, s: State, k: nat, now: Time)
    requires Inv(budget, s) && k < |s.flights.flushes| && s.flights.flushes[k].generation == s.flights.generation
    requires s.flights.flushes[k].phase == Second && s.books.session.Some?
    requires Grant(s.flights.flushes[k].id, s.flights.flushes[k].index, Second) in s.flights.grants
    requires s.flights.flushes[k].index < |s.flights.flushes[k].candidates|
    requires var f := s.flights.flushes[k]; !Blocked(s, f.candidates[f.index].0, now)
    ensures var f := s.flights.flushes[k]; Inv(budget, Deliver(s, k, f.candidates[f.index].0, now))
  {
    hide Ready, Proper, Balanced, Blocked;
    var f := s.flights.flushes[k];
    var r := f.candidates[f.index].0;
    var t := Deliver(s, k, r, now);
    OnlyOneCurrent(s.flights, k);
    DropLocks(s.flights, t.flights, k);
    DeliverProper(budget, s, k, now);
    RecordBalanced(s.books, r, now, t.books.sent[|s.books.sent|]);
    hide Locks, AllProper, Record;
  }

  lemma GrantedInv(budget: Budget, s: State, f: Flush)
    requires Inv(budget, s)
    ensures Inv(budget, s.(flights := Granted(s.flights, f)))
  {
    hide Ready, Proper, Balanced;
    AllReadyKept(s.books, s.flights, s.books, Granted(s.flights, f));
  }

  lemma AskAgainInv(budget: Budget, s: State, k: nat)
    requires Inv(budget, s) && k < |s.flights.flushes| && s.flights.flushes[k].generation == s.flights.generation
    requires Grant(s.flights.flushes[k].id, s.flights.flushes[k].index, First) in s.flights.grants
    ensures Inv(budget, s.(flights := Replace(s.flights, k, s.flights.flushes[k].(phase := Second))))
  {
    hide Unsent, Ranked, PassedOver, Proper, Balanced;
    var f := s.flights.flushes[k].(phase := Second);
    var fl := Replace(s.flights, k, f);
    ReplaceLocks(s.flights, fl, k, f);
    assert Ready(s.books, s.flights, s.flights.flushes[k]);
    assert Ready(s.books, fl, f);
    AllReadyKept(s.books, s.flights, s.books, fl);
    hide Locks, Ready, AllReady;
  }

  lemma StaleInv(budget: Budget, s: State, k: nat)
    requires Inv(budget, s) && k < |s.flights.flushes|
    requires s.flights.flushes[k].generation != s.flights.generation
    ensures Inv(budget, s.(flights := Drop(s.flights, k)))
  {
    hide Ready, Proper, Balanced;
    DropLocks(s.flights, Drop(s.flights, k), k);
    AllReadyKept(s.books, s.flights, s.books, Drop(s.flights, k));
    hide Locks, AllReady;
  }

  lemma CurrentIndex(s: State, k: nat)
    requires AllReady(s.books, s.flights) && k < |s.flights.flushes|
    requires s.flights.flushes[k].generation == s.flights.generation
    ensures s.flights.flushes[k].index < |s.flights.flushes[k].candidates|
  {
    assert Ready(s.books, s.flights, s.flights.flushes[k]);
  }

  lemma ResumeInv(budget: Budget, s0: State, id: nat, ok: bool, now: Time)
    requires Inv(budget, s0)
    ensures Inv(budget, Resume(s0, id, ok, now))
  {
    var k := Find(s0.flights.flushes, id);
    if k < |s0.flights.flushes| {
      var f := s0.flights.flushes[k];
      var s := if ok then s0.(flights := Granted(s0.flights, f)) else s0;
      GrantedInv(budget, s0, f);
      if f.generation == s.flights.generation { CurrentIndex(s, k); }
      hide Core, Reject, Deliver, Awake;
      if f.generation != s.flights.generation { StaleInv(budget, s, k); }
      else if ok && f.phase == First { AskAgainInv(budget, s, k); }
      else if !ok || Blocked(s, f.candidates[f.index].0, now) { RejectInv(budget, s, k, !ok); }
      else { DeliverInv(budget, s, k, now); }
    }
  }

  // Every step

  lemma NewGeneration(fl: Flights)
    requires Locks(fl)
    ensures Locks(fl.(inFlight := false, generation := fl.generation + 1))
    ensures forall f | f in fl.flushes :: f.generation != fl.generation + 1
  {
    forall f | f in fl.flushes ensures f.generation != fl.generation + 1 {
      var i :| 0 <= i < |fl.flushes| && fl.flushes[i] == f;
    }
  }

  lemma SessionInv(budget: Budget, s: State, e: Event)
    requires Inv(budget, s) && (e.SessionStart? || e.SessionShutdown?)
    ensures Inv(budget, Step(budget, s, e))
  {
    hide Ready, Proper, Receipts, OwnerRevisions;
    NewGeneration(s.flights);
    hide Locks;
  }

  lemma LogGrowsKeeps(b: Books, session: Text)
    requires Balanced(b)
    ensures Balanced(b.(logs := b.logs[session := LogOf(b, session) + [OtherEntry]]))
  {
    AddedEntry(LogOf(b, session), OtherEntry, session);
    hide Receipts, OwnerRevisions;
  }

  lemma LogInv(budget: Budget, s: State, e: Event)
    requires Inv(budget, s) && (e.LogGrows? || e.LogCreated?)
    ensures Inv(budget, Step(budget, s, e))
  {
    var b := Step(budget, s, e).books;
    if e.LogGrows? { LogGrowsKeeps(s.books, e.session); }
    hide Ready, Locks, Receipts, OwnerRevisions, Proper;
    assert Balanced(b);
    AllReadyKept(s.books, s.flights, b, s.flights);
  }

  /** Handlers that touch only the offers and the turn. */
  lemma TurnInv(budget: Budget, s: State, e: Event)
    requires Inv(budget, s)
    requires e.Offer? || e.BeforeCompact? || e.Compacted? || e.BeforeAgentStart? || e.AgentStart? || e.SettlementClosed? || e.AgentSettled?
    ensures Inv(budget, Step(budget, s, e))
  {
    hide Locks, AllReady, AllProper, Balanced, IsRequest;
  }

  lemma FlushInv(budget: Budget, s: State, e: Event)
    requires Inv(budget, s) && (e.RunTask? || e.Settlement?)
    ensures Inv(budget, Step(budget, s, e))
  {
    hide Locks, AllReady, AllProper, Balanced, IsRequest, StartFlush;
    if e.RunTask? && s.queue.tasks > 0 {
      StartInv(budget, s.(queue := s.queue.(tasks := s.queue.tasks - 1)), e.now);
    } else if e.Settlement? && e.completed {
      StartInv(budget, s.(queue := s.queue.(agentActive := false, boundary := true)), e.now);
    }
  }

  /** Every event keeps the invariant. */
  lemma StepInv(budget: Budget, s: State, e: Event)
    requires Inv(budget, s)
    ensures Inv(budget, Step(budget, s, e))
  {
    hide Inv;
    match e
    case Answer(id, ok, now) => ResumeInv(budget, s, id, ok, now);
    case RunTask(_) => FlushInv(budget, s, e);
    case Settlement(_, _, _, _) => FlushInv(budget, s, e);
    case SessionStart(_, _) => SessionInv(budget, s, e);
    case SessionShutdown => SessionInv(budget, s, e);
    case LogGrows(_) => LogInv(budget, s, e);
    case LogCreated(_, _) => LogInv(budget, s, e);
    case _ => TurnInv(budget, s, e);
  }

  /** In every run, whatever the interleaving. */
  lemma {:induction false} RunInv(budget: Budget, now: Time, logs: map<Text, seq<Entry>>, events: seq<Event>)
    ensures Inv(budget, Run(budget, Initial(now, logs), events))
  {
    hide Inv, Step;
    if events == [] {
      InitialInv(budget, now, logs);
    } else {
      RunInv(budget, now, logs, events[..|events| - 1]);
      StepInv(budget, Run(budget, Initial(now, logs), events[..|events| - 1]), events[|events| - 1]);
    }
  }

  // The main results, over every run

  /** At most one flush of the current generation is in flight. */
  lemma OneFlushInFlight(budget: Budget, now: Time, logs: map<Text, seq<Entry>>, events: seq<Event>, i: nat, j: nat)
    requires i < |Run(budget, Initial(now, logs), events).flights.flushes|
    requires j < |Run(budget, Initial(now, logs), events).flights.flushes|
    requires var fl := Run(budget, Initial(now, logs), events).flights;
      fl.flushes[i].generation == fl.generation && fl.flushes[j].generation == fl.generation
    ensures i == j
  {
    RunInv(budget, now, logs, events);
    hide Run;
  }

  /** Every flush that is suspended began while the user had not aborted and the budget of
      its turn had room, in turns and in time. */
  lemma EveryFlushBegun(budget: Budget, now: Time, logs: map<Text, seq<Entry>>, events: seq<Event>, f: Flush)
    requires f in Run(budget, Initial(now, logs), events).flights.flushes
    ensures Begun(budget, f)
  {
    RunInv(budget, now, logs, events);
    hide Begun, Run;
  }

  /** Everything ever sent was sent properly: to an idle agent, unexpired, granted twice
      by its producer within its own flush, which began unaborted and within the budget,
      when every better candidate had been refused, and with neither its key nor its owner revision in the log. */
  lemma EverySendProper(budget: Budget, now: Time, logs: map<Text, seq<Entry>>, events: seq<Event>, d: Sent)
    requires d in Run(budget, Initial(now, logs), events).books.sent
    ensures Proper(budget, d)
  {
    RunInv(budget, now, logs, events);
    hide Proper, Run;
  }

  /** The turns the dispatcher started stay within the budget, the sets in memory are
      those the log of the session gives, and no waiting offer is forgotten. */
  lemma BudgetLogAndOffers(budget: Budget, now: Time, logs: map<Text, seq<Entry>>, events: seq<Event>)
    ensures var s := Run(budget, Initial(now, logs), events);
      WithinBudget(budget, s.turn.count) && Balanced(s.books) && Awake(s.queue, s.flights.inFlight)
  {
    RunInv(budget, now, logs, events);
    hide Balanced, Awake, Locks, AllReady, AllProper, Run;
  }

  /** What one sending writes: the receipt of its candidate, and nothing else. */
  predicate SendsOne(s: State, t: State, now: Time) {
    && s.books.session.Some? && |t.books.sent| == |s.books.sent| + 1 && t.books.sent[..|s.books.sent|] == s.books.sent
    && var d, session := t.books.sent[|s.books.sent|], s.books.session.value;
    && d.flush in s.flights.flushes && d.flush.generation == s.flights.generation && d.flush.index < |d.flush.candidates|
    && d.log == LogOf(s.books, session)
    && t.books.logs == s.books.logs[session := d.log + [ReceiptEntry(ReceiptFor(d.flush.candidates[d.flush.index].0, session, now))]]
    && t.turn.count == s.turn.count + 1 && t.queue.pending == []
  }

  /** Only a granted answer to a flush of the current generation sends, and it sends one. */
  lemma SendingStep(budget: Budget, s: State, e: Event)
    ensures Step(budget, s, e).books.sent == s.books.sent
         || (e.Answer? && e.ok && SendsOne(s, Step(budget, s, e), e.now))
  {
    hide SendsOne, Resume;
    if e.Answer? { SendingAnswer(s, e.id, e.ok, e.now); }
  }

  lemma SendingAnswer(s: State, id: nat, ok: bool, now: Time)
    ensures Resume(s, id, ok, now).books.sent == s.books.sent || (ok && SendsOne(s, Resume(s, id, ok, now), now))
  {
  }

  /** An answer to a flush of an earlier generation changes nothing but the records of
      the flush itself. */
  lemma StaleAnswerInert(budget: Budget, s: State, id: nat, ok: bool, now: Time)
    requires Find(s.flights.flushes, id) < |s.flights.flushes|
    requires s.flights.flushes[Find(s.flights.flushes, id)].generation != s.flights.generation
    ensures var t := Step(budget, s, Answer(id, ok, now));
      t == s.(flights := s.flights.(flushes := t.flights.flushes, grants := t.flights.grants))
  {
  }
}
