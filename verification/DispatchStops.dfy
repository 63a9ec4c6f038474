/**
 What stops the dispatcher. A user abort and the time window of a turn are tested when a
 flush starts and not again, so they stop every send exactly when no flush is under way
 that can still send.
 */
module DispatchStops {
  import opened Utf
  import opened StableSort
  import opened Authority
  import opened Dispatch
  import opened DispatchFacts

  /** Why nothing more should be sent in this turn. */
  datatype Reason = Aborted | Late

  /** The reason holds, for everything that happens at `from` or later. */
  predicate Stopped(budget: Budget, reason: Reason, t: Turn, from: Time) {
    match reason
    case Aborted => t.stoppedByAbort
    case Late => t.startedAt + budget.windowMs < from
  }

  /** The events that take the reason away: they clear the flag or begin a new turn. */
  predicate Clears(reason: Reason, t: Turn, e: Event) {
    match reason
    case Aborted =>
      || e.SessionStart? || e.BeforeCompact? || e.Compacted? || (e.BeforeAgentStart? && !t.harnessStartedRun)
      || (e.Settlement? && !e.completed && !UserAbort(t, e.aborted, e.compacting))
    case Late => e.SessionStart? || (e.BeforeAgentStart? && !t.harnessStartedRun)
  }

  predicate NotBefore(e: Event, from: Time) {
    match e
    case RunTask(now) => now >= from
    case Answer(_, _, now) => now >= from
    case SessionStart(_, now) => now >= from
    case BeforeAgentStart(now) => now >= from
    case Settlement(_, _, _, now) => now >= from
    case _ => true
  }

  /** Events from `from` on, none of which takes the reason away. */
  predicate Continues(budget: Budget, s: State, reason: Reason, from: Time, events: seq<Event>) {
    events == [] ||
    (var before, e := events[..|events| - 1], events[|events| - 1];
     Continues(budget, s, reason, from, before) && NotBefore(e, from) && !Clears(reason, Run(budget, s, before).turn, e))
  }

  /** A candidate of the flush, from the current one on, that has not expired by `from`. */
  predicate HasLive(f: Flush, from: Time) {
    exists j :: f.index <= j < |f.candidates| && f.candidates[j].0.expiresAt >= from
  }

  predicate MaySend(fl: Flights, from: Time) { exists f | f in fl.flushes :: f.generation == fl.generation && HasLive(f, from) }

  /** These are all the events that clear an abort. */
  lemma ClearsExactly(budget: Budget, s: State, e: Event)
    requires s.turn.stoppedByAbort
    ensures !Step(budget, s, e).turn.stoppedByAbort <==> Clears(Aborted, s.turn, e)
  {
    hide Candidates, Receipts, OwnerRevisions, Record;
  }

  // ---- Nothing under way: nothing is sent ------------------------------------------------------

  /** Nothing is under way that can send, and nothing can start. */
  ghost predicate Dead(budget: Budget, s: State, reason: Reason, from: Time) {
    Inv(budget, s) && Stopped(budget, reason, s.turn, from) && !MaySend(s.flights, from)
  }

  lemma StoppedKept(budget: Budget, s: State, reason: Reason, from: Time, e: Event)
    requires Stopped(budget, reason, s.turn, from) && !Clears(reason, s.turn, e)
    ensures Stopped(budget, reason, Step(budget, s, e).turn, from)
  {
    hide Candidates, Receipts, OwnerRevisions, Record;
  }

  lemma FewerFlushes(fl: Flights, fl': Flights, from: Time)
    requires !MaySend(fl, from) && fl'.generation == fl.generation
    requires forall f | f in fl'.flushes && f.generation == fl.generation :: f in fl.flushes || !HasLive(f, from)
    ensures !MaySend(fl', from)
  {
    hide HasLive;
  }

  lemma StartDead(budget: Budget, s: State, reason: Reason, from: Time, now: Time)
    requires Stopped(budget, reason, s.turn, from) && now >= from
    ensures StartFlush(budget, s, now).flights == s.flights && StartFlush(budget, s, now).books == s.books
  {
    hide Candidates;
  }

  lemma RejectDead(s: State, k: nat, denied: bool, from: Time)
    requires !MaySend(s.flights, from) && k < |s.flights.flushes| && s.flights.flushes[k].generation == s.flights.generation
    ensures !MaySend(Reject(s, k, denied).flights, from) && Reject(s, k, denied).books == s.books
  {
    var f := s.flights.flushes[k];
    assert f in s.flights.flushes;
    var t := Reject(s, k, denied);
    assert !HasLive(f.(index := f.index + 1, phase := First), from);
    FewerFlushes(s.flights, t.flights, from);
  }

  lemma AnswerDead(budget: Budget, s0: State, id: nat, ok: bool, now: Time, from: Time)
    requires Inv(budget, s0) && !MaySend(s0.flights, from) && now >= from
    ensures var t := Resume(s0, id, ok, now);
      !MaySend(t.flights, from) && t.books.sent == s0.books.sent
  {
    var k := Find(s0.flights.flushes, id);
    if k < |s0.flights.flushes| {
      var f := s0.flights.flushes[k];
      var s := if ok then s0.(flights := Granted(s0.flights, f)) else s0;
      FewerFlushes(s0.flights, s.flights, from);
      if f.generation != s.flights.generation {
        FewerFlushes(s.flights, Drop(s.flights, k), from);
      } else {
        CurrentIndex(s0, k);
        assert f in s.flights.flushes;
        assert f.candidates[f.index].0.expiresAt < from;
        hide Inv, Reject, Deliver;
        if ok && f.phase == First {
          assert HasLive(f.(phase := Second), from) ==> HasLive(f, from);
          FewerFlushes(s.flights, Replace(s.flights, k, f.(phase := Second)), from);
        } else {
          RejectDead(s, k, !ok, from);
        }
      }
    }
  }

  lemma NoneCurrent(fl: Flights, from: Time)
    requires Locks(fl)
    ensures !MaySend(fl.(inFlight := false, generation := fl.generation + 1), from)
  {
    NewGeneration(fl);
    hide HasLive, Locks;
  }

  lemma DeadStep(budget: Budget, s: State, reason: Reason, from: Time, e: Event)
    requires Dead(budget, s, reason, from) && NotBefore(e, from) && !Clears(reason, s.turn, e)
    ensures Dead(budget, Step(budget, s, e), reason, from) && Step(budget, s, e).books.sent == s.books.sent
  {
    StepInv(budget, s, e);
    StoppedKept(budget, s, reason, from, e);
    var t := Step(budget, s, e);
    assert !MaySend(t.flights, from) && t.books.sent == s.books.sent by {
      hide StartFlush, Resume, Stopped, MaySend, Locks, Balanced, AllReady, AllBegun, AllProper, Room, Receipts, OwnerRevisions;
      match e
      case Answer(id, ok, now) => AnswerDead(budget, s, id, ok, now, from);
      case RunTask(now) => StartDead(budget, s.(queue := s.queue.(tasks := if s.queue.tasks > 0 then s.queue.tasks - 1 else 0)), reason, from, now);
      case Settlement(_, _, _, now) => StartDead(budget, s.(queue := s.queue.(agentActive := false, boundary := true)), reason, from, now);
      case SessionShutdown => NoneCurrent(s.flights, from);
      case _ =>
    }
  }

  lemma {:induction false} DeadRun(budget: Budget, s: State, reason: Reason, from: Time, events: seq<Event>)
    requires Dead(budget, s, reason, from) && Continues(budget, s, reason, from, events)
    ensures Dead(budget, Run(budget, s, events), reason, from) && Run(budget, s, events).books.sent == s.books.sent
  {
    hide Dead, Step, Clears, NotBefore;
    if events != [] {
      var before, e := events[..|events| - 1], events[|events| - 1];
      DeadRun(budget, s, reason, from, before);
      DeadStep(budget, Run(budget, s, before), reason, from, e);
    }
  }

  // ---- A flush under way: a run that sends --------------------------------------------------------

  lemma RunSnoc(budget: Budget, s: State, reason: Reason, from: Time, events: seq<Event>, e: Event)
    requires Continues(budget, s, reason, from, events) && NotBefore(e, from)
    requires !Clears(reason, Run(budget, s, events).turn, e)
    ensures Continues(budget, s, reason, from, events + [e])
    ensures Run(budget, s, events + [e]) == Step(budget, Run(budget, s, events), e)
  {
    hide Step, Clears, NotBefore;
    assert (events + [e])[..|events|] == events;
  }

  lemma {:induction false} FindIs(flushes: seq<Flush>, k: nat)
    requires k < |flushes| && forall i, j | 0 <= i < j < |flushes| :: flushes[i].id != flushes[j].id
    ensures Find(flushes, flushes[k].id) == k
  {
    if k > 0 { FindIs(flushes[1..], k - 1); }
  }

  /** The flush `k` stands at candidate `j`; everything else a send looks at is as in `s`. */
  predicate StandsAt(s: State, t: State, k: nat, j: nat) {
    && k < |s.flights.flushes| && |t.flights.flushes| == |s.flights.flushes|
    && var f, g := s.flights.flushes[k], t.flights.flushes[k];
    && g.id == f.id && g.generation == f.generation == t.flights.generation && g.candidates == f.candidates && g.index == j
    && (forall i | 0 <= i < |t.flights.flushes| :: t.flights.flushes[i].id == s.flights.flushes[i].id)
    && t.queue.live && !t.queue.agentActive && t.books == s.books
  }

  lemma AnswerAt(budget: Budget, s: State, t: State, k: nat, j: nat, ok: bool, now: Time)
    requires StandsAt(s, t, k, j) && Locks(s.flights) && j < |s.flights.flushes[k].candidates|
    ensures Find(t.flights.flushes, s.flights.flushes[k].id) == k
    ensures !ok && j + 1 < |s.flights.flushes[k].candidates| ==>
      StandsAt(s, Step(budget, t, Answer(s.flights.flushes[k].id, ok, now)), k, j + 1)
    ensures ok && t.flights.flushes[k].phase == First ==>
      var u := Step(budget, t, Answer(s.flights.flushes[k].id, ok, now));
      StandsAt(s, u, k, j) && u.flights.flushes[k].phase == Second
  {
    FindIs(t.flights.flushes, k);
  }

  lemma {:induction false} ReachCandidate(budget: Budget, s: State, reason: Reason, from: Time, k: nat, j: nat, now: Time)
    returns (events: seq<Event>)
    requires Inv(budget, s) && Stopped(budget, reason, s.turn, from) && now >= from
    requires k < |s.flights.flushes| && s.flights.flushes[k].generation == s.flights.generation
    requires s.flights.flushes[k].index <= j < |s.flights.flushes[k].candidates|
    ensures Continues(budget, s, reason, from, events) && StandsAt(s, Run(budget, s, events), k, j)
    decreases j
  {
    var f := s.flights.flushes[k];
    OnlyOneCurrent(s.flights, k);
    if j == f.index {
      var settled := AgentSettled(false, false);
      RunSnoc(budget, s, reason, from, [], settled);
      events := [] + [settled];
    } else {
      var before := ReachCandidate(budget, s, reason, from, k, j - 1, now);
      hide Inv, Step, Run, StandsAt;
      InvLocks(budget, s);
      var no := Answer(f.id, false, now);
      RunSnoc(budget, s, reason, from, before, no);
      AnswerAt(budget, s, Run(budget, s, before), k, j - 1, false, now);
      events := before + [no];
    }
  }

  lemma InvLocks(budget: Budget, s: State)
    requires Inv(budget, s)
    ensures Locks(s.flights)
  {
  }

  /** A current flush with a live candidate can be driven to send it. */
  lemma SendingRun(budget: Budget, s: State, reason: Reason, from: Time, k: nat, j: nat) returns (events: seq<Event>)
    requires Inv(budget, s) && Stopped(budget, reason, s.turn, from)
    requires k < |s.flights.flushes| && s.flights.flushes[k].generation == s.flights.generation
    requires s.flights.flushes[k].index <= j < |s.flights.flushes[k].candidates|
    requires s.flights.flushes[k].candidates[j].0.expiresAt >= from
    ensures Continues(budget, s, reason, from, events)
    ensures |Run(budget, s, events).books.sent| == |s.books.sent| + 1
  {
    var f := s.flights.flushes[k];
    var now: Time := from;
    events := ReachCandidate(budget, s, reason, from, k, j, now);
    CandidateUnsent(budget, s, k, j);
    InvLocks(budget, s);
    var yes := Answer(f.id, true, now);
    hide Inv, Locks, Step, Run;
    if Run(budget, s, events).flights.flushes[k].phase == First {
      AnswerAt(budget, s, Run(budget, s, events), k, j, true, now);
      RunSnoc(budget, s, reason, from, events, yes);
      events := events + [yes];
    }
    AnswerAt(budget, s, Run(budget, s, events), k, j, true, now);
    SendsAt(budget, s, Run(budget, s, events), k, j, now);
    RunSnoc(budget, s, reason, from, events, yes);
    events := events + [yes];
  }

  lemma CandidateUnsent(budget: Budget, s: State, k: nat, j: nat)
    requires Inv(budget, s) && k < |s.flights.flushes| && s.flights.flushes[k].generation == s.flights.generation
    requires j < |s.flights.flushes[k].candidates|
    ensures s.books.session == Some(s.flights.flushes[k].candidates[j].0.session)
  {
    var f := s.flights.flushes[k];
    assert Ready(s.books, s.flights, f);
    assert Unsent(s.books, f.candidates[j]);
  }

  lemma SendsAt(budget: Budget, s: State, t: State, k: nat, j: nat, now: Time)
    requires StandsAt(s, t, k, j) && j < |s.flights.flushes[k].candidates| && t.flights.flushes[k].phase == Second
    requires Find(t.flights.flushes, s.flights.flushes[k].id) == k
    requires var r := s.flights.flushes[k].candidates[j].0; s.books.session == Some(r.session) && r.expiresAt >= now
    ensures |Step(budget, t, Answer(s.flights.flushes[k].id, true, now)).books.sent| == |s.books.sent| + 1
  {
  }

  /** Once the user has aborted, or the window of the turn has passed, nothing more is sent
      in that turn exactly when no flush is under way with a candidate still to expire. */
  lemma StopsExactly(budget: Budget, s: State, reason: Reason, from: Time)
    requires Inv(budget, s) && Stopped(budget, reason, s.turn, from)
    ensures (forall events | Continues(budget, s, reason, from, events) :: Run(budget, s, events).books.sent == s.books.sent)
      <==> !MaySend(s.flights, from)
  {
    if MaySend(s.flights, from) {
      var f :| f in s.flights.flushes && f.generation == s.flights.generation && HasLive(f, from);
      var k :| 0 <= k < |s.flights.flushes| && s.flights.flushes[k] == f;
      var j :| f.index <= j < |f.candidates| && f.candidates[j].0.expiresAt >= from;
      var events := SendingRun(budget, s, reason, from, k, j);
      assert Run(budget, s, events).books.sent != s.books.sent;
    } else {
      forall events | Continues(budget, s, reason, from, events) ensures Run(budget, s, events).books.sent == s.books.sent {
        DeadRun(budget, s, reason, from, events);
      }
    }
  }

  // ---- Such flushes are reached --------------------------------------------------------------------

  /** The first offer of a session, and the flush it starts. */
  function FirstOffer(r: Request, now: Time): seq<Event> { [SessionStart(r.session, now), Offer(r), RunTask(now)] }

  lemma Steps(budget: Budget, s: State, events: seq<Event>, e: Event)
    ensures Run(budget, s, events + [e]) == Step(budget, Run(budget, s, events), e)
  {
    hide Step;
    assert (events + [e])[..|events|] == events;
  }

  lemma FlushUnderWay(budget: Budget, r: Request, now: Time)
    requires IsRequest(r) && r.expiresAt >= now && budget.max != Some(0)
    ensures var s := Run(budget, Initial(now, map[]), FirstOffer(r, now));
      && s.flights.flushes == [Flush(0, 1, [(r, 0)], 0, First, Start(s.turn, now))] && s.flights.generation == 1
      && s.queue.live && !s.queue.agentActive && s.books.session == Some(r.session) && s.books.sent == []
      && s.turn == Turn(0, now, false, false, false)
  {
    var s0 := Initial(now, map[]);
    Steps(budget, s0, [], SessionStart(r.session, now));
    Steps(budget, s0, [SessionStart(r.session, now)], Offer(r));
    Steps(budget, s0, [SessionStart(r.session, now), Offer(r)], RunTask(now));
    assert FirstOffer(r, now) == [SessionStart(r.session, now), Offer(r)] + [RunTask(now)];
    assert [SessionStart(r.session, now), Offer(r)] == [SessionStart(r.session, now)] + [Offer(r)];
    assert [SessionStart(r.session, now)] == [] + [SessionStart(r.session, now)];
    hide Run, IsRequest;
    var s1 := Step(budget, s0, SessionStart(r.session, now));
    NothingLogged(r.session);
    var s2 := Step(budget, s1, Offer(r));
    OneCandidate(s2.books, r, now);
    hide Candidates, Receipts, OwnerRevisions;
  }

  lemma NothingLogged(session: Text)
    ensures Receipts([], session) == {} && OwnerRevisions([], session) == {}
  {
  }

  lemma OneCandidate(b: Books, r: Request, now: Time)
    requires Eligible(b, r, now)
    ensures Candidates(b, [r], now) == [(r, 0)]
  {
    assert [r][..0] == [];
    assert Indexed(b, [r], now) == [] + [(r, 0)];
    SortOfSorted([(r, 0)], Rank);
  }

  /** The user's own run of the agent, begun and aborted. */
  function AbortedRun(now: Time): seq<Event> { [BeforeAgentStart(now), AgentStart, Settlement(false, true, false, now)] }

  /** A run in which the user sends something and aborts it while a flush asks for its
      authorizations, and the continuation is sent all the same. */
  lemma SentAfterAbort(budget: Budget, r: Request, now: Time)
    requires IsRequest(r) && r.expiresAt >= now && budget.max != Some(0)
    ensures var s0 := Initial(now, map[]);
      var aborted := FirstOffer(r, now) + AbortedRun(now);
      var answered := aborted + [Answer(0, true, now)] + [Answer(0, true, now)];
      && Run(budget, s0, aborted).turn.stoppedByAbort && Run(budget, s0, aborted).books.sent == []
      && Run(budget, s0, answered).turn.stoppedByAbort && |Run(budget, s0, answered).books.sent| == 1
  {
    var s0 := Initial(now, map[]);
    var aborted := FirstOffer(r, now) + AbortedRun(now);
    FlushUnderWay(budget, r, now);
    hide Run, IsRequest, FirstOffer, AbortedRun;
    AbortKeepsFlush(budget, s0, FirstOffer(r, now), now);
    Steps(budget, s0, aborted, Answer(0, true, now));
    Steps(budget, s0, aborted + [Answer(0, true, now)], Answer(0, true, now));
  }

  /** What the aborted run leaves of a state: everything but the turn and what waits. */
  lemma AbortKeepsFlush(budget: Budget, s0: State, events: seq<Event>, now: Time)
    requires !Run(budget, s0, events).turn.harnessStartedRun
    ensures var s, t := Run(budget, s0, events), Run(budget, s0, events + AbortedRun(now));
      t == s.(turn := Turn(0, now, false, true, false),
              queue := s.queue.(agentActive := false, pending := []))
  {
    hide Run, StartFlush;
    Steps(budget, s0, events, BeforeAgentStart(now));
    Steps(budget, s0, events + [BeforeAgentStart(now)], AgentStart);
    Steps(budget, s0, events + [BeforeAgentStart(now)] + [AgentStart], Settlement(false, true, false, now));
    assert events + [BeforeAgentStart(now)] + [AgentStart] + [Settlement(false, true, false, now)] == events + AbortedRun(now);
  }

  /** A run in which the window of the turn passes while a flush asks, and the continuation
      is sent all the same. */
  lemma SentAfterWindow(budget: Budget, r: Request, now: Time, late: Time)
    requires IsRequest(r) && r.expiresAt >= late >= now && late - now > budget.windowMs && budget.max != Some(0)
    ensures var s0 := Initial(now, map[]);
      var answered := FirstOffer(r, now) + [Answer(0, true, late)] + [Answer(0, true, late)];
      && |Run(budget, s0, answered).books.sent| == 1 && Run(budget, s0, answered).books.sent[0].at == late
      && Run(budget, s0, answered).turn.startedAt == now && OverBudget(budget, Run(budget, s0, answered).turn, late)
  {
    var s0 := Initial(now, map[]);
    FlushUnderWay(budget, r, now);
    Steps(budget, s0, FirstOffer(r, now), Answer(0, true, late));
    Steps(budget, s0, FirstOffer(r, now) + [Answer(0, true, late)], Answer(0, true, late));
    hide Run, IsRequest, FirstOffer;
  }
}
