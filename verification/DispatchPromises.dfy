/**
 What the dispatcher promises of every continuation it sends, stated on the events of the run:
 it was offered in the session that is open, to an idle agent, in time, granted twice, never
 twice in one session, and its flush began when the user's turn allowed it.
 */
module DispatchPromises {
  import opened Utf
  import opened StableSort
  import opened Authority
  import opened Dispatch
  import opened DispatchFacts
  import opened DispatchHistory

  /** The request was offered in the session that is open. */
  predicate Offered(h: History, r: Request)
    decreases |h.events|
  {
    h.events != [] && !h.Last().SessionStart? && !h.Last().SessionShutdown?
    && ((h.Last() == Offer(r) && IsRequest(r) && Live(h.Before()) && Session(h.Before()).Some?) || Offered(h.Before(), r))
  }

  /** What was sent since the session was opened. */
  function SentInSession(h: History): seq<Sent>
    decreases |h.events|
  {
    if h.events == [] || h.Last().SessionStart? then []
    else SentInSession(h.Before()) + (if SentNow(h) > 0 then h.Sent()[|h.Sent()| - SentNow(h)..] else [])
  }

  ghost predicate RequestSent(d: Sent, r: Request) { d.flush.index < |d.flush.candidates| && d.flush.candidates[d.flush.index].0 == r }

  /** A flush began at some event, at the time that event says, and the turn's variables were
      as they were then. */
  ghost predicate BeganAt(h: History, f: Flush, i: nat) {
    && i < |h.events|
    && ((h.events[i].RunTask? && h.events[i].now == f.start.at)
        || (h.events[i].Settlement? && h.events[i].completed && h.events[i].now == f.start.at))
    && f.start.turn == h.(events := h.events[..i]).State().turn
  }

  ghost predicate Began(h: History, f: Flush) { exists i: nat :: BeganAt(h, f, i) }

  /** The producer granted a flush before. */
  ghost predicate GrantedBefore(h: History, id: nat) { exists i, now :: 0 <= i < |h.events| && h.events[i] == Answer(id, true, now) }

  ghost predicate Kept(h: History) {
    var s := h.State();
    && (forall r | r in s.queue.pending :: Offered(h, r))
    && (forall f, c | f in s.flights.flushes && f.generation == s.flights.generation && c in f.candidates :: Offered(h, c.0))
    && (forall f | f in s.flights.flushes :: Began(h, f))
    && (forall d | d in s.books.sent :: Began(h, d.flush))
    && (forall g | g in s.flights.grants :: GrantedBefore(h, g.flush))
    && (forall d, r | d in SentInSession(h) && RequestSent(d, r) ::
          r.key in s.books.delivered && OwnerKey(r.owner, r.generation) in s.books.owners)
  }

  // ---- What one step does ------------------------------------------------------------------

  lemma {:induction false} IndexedFrom(b: Books, pending: seq<Request>, now: Time)
    ensures forall c | c in Indexed(b, pending, now) :: c.0 in pending && Eligible(b, c.0, now)
  {
    if pending != [] { IndexedFrom(b, pending[..|pending| - 1], now); }
  }

  /** Candidates are offers of the open session that have not expired and were not sent. */
  lemma CandidatesFrom(b: Books, pending: seq<Request>, now: Time)
    ensures forall c | c in Candidates(b, pending, now) :: c.0 in pending && Eligible(b, c.0, now)
  {
    IndexedFrom(b, pending, now);
    SortSorts(Indexed(b, pending, now), Rank);
    forall c | c in Candidates(b, pending, now) ensures c in Indexed(b, pending, now) {
      assert c in multiset(Candidates(b, pending, now));
    }
  }

  /** The eligible offers, in the order they were made. */
  function EligibleOffers(b: Books, pending: seq<Request>, now: Time): seq<Request> {
    if pending == [] then []
    else
      var r := pending[0];
      (if b.session == Some(r.session) && now <= r.expiresAt && r.key !in b.delivered && OwnerKey(r.owner, r.generation) !in b.owners
       then [r] else []) + EligibleOffers(b, pending[1..], now)
  }

  lemma {:induction false} EligibleConcat(b: Books, before: seq<Request>, r: Request, now: Time)
    ensures EligibleOffers(b, before + [r], now) == EligibleOffers(b, before, now) + if Eligible(b, r, now) then [r] else []
  {
    if before == [] {
      assert before + [r] == [r] && [r][1..] == [];
    } else {
      assert (before + [r])[1..] == before[1..] + [r];
      EligibleConcat(b, before[1..], r, now);
    }
  }

  /** A flush asks about exactly the eligible offers: each is a candidate with its place among
      them, candidates come by falling priority, and at one priority by place. */
  lemma {:induction false} IndexedExactly(b: Books, pending: seq<Request>, now: Time)
    ensures var offers := EligibleOffers(b, pending, now);
      |Indexed(b, pending, now)| == |offers| && forall i | 0 <= i < |offers| :: Indexed(b, pending, now)[i] == (offers[i], i)
  {
    if pending != [] {
      var n := |pending| - 1;
      IndexedExactly(b, pending[..n], now);
      EligibleConcat(b, pending[..n], pending[n], now);
      assert pending == pending[..n] + [pending[n]];
    }
  }

  lemma CandidatesExactly(b: Books, pending: seq<Request>, now: Time)
    requires Requests(pending)
    ensures var offers, cs := EligibleOffers(b, pending, now), Candidates(b, pending, now);
      && |cs| == |offers|
      && (forall c :: c in cs <==> c.1 < |offers| && offers[c.1] == c.0)
      && forall i, j | 0 <= i < j < |cs| ::
           cs[i].0.priority > cs[j].0.priority || (cs[i].0.priority == cs[j].0.priority && cs[i].1 < cs[j].1)
  {
    IndexedExactly(b, pending, now);
    SortSorts(Indexed(b, pending, now), Rank);
    CandidatesRanked(b, pending, now);
    var indexed, cs := Indexed(b, pending, now), Candidates(b, pending, now);
    hide Candidates, Indexed, EligibleOffers, Requests;
    forall c ensures c in cs <==> c in indexed { assert c in multiset(cs) <==> c in multiset(indexed); }
  }

  predicate SameFlush(f: Flush, g: Flush) {
    f.generation == g.generation && f.candidates == g.candidates && f.start == g.start
  }

  /** Where the flushes after a step come from. */
  ghost predicate FlushesFrom(s: State, t: State, e: Event) {
    forall f | f in t.flights.flushes ::
      || (exists g :: g in s.flights.flushes && SameFlush(f, g))
      || (&& (forall c | c in f.candidates :: c.0 in s.queue.pending)
          && f.start.turn == s.turn && f.generation == s.flights.generation == t.flights.generation
          && ((e.RunTask? && e.now == f.start.at) || (e.Settlement? && e.completed && e.now == f.start.at)))
  }

  lemma StartFrom(budget: Budget, s: State, now: Time)
    ensures var t := StartFlush(budget, s, now);
      && t.flights.generation == s.flights.generation && t.flights.grants == s.flights.grants && t.books == s.books && t.turn == s.turn
      && (forall r | r in t.queue.pending :: r in s.queue.pending)
      && forall f | f in t.flights.flushes :: f in s.flights.flushes ||
           ((forall c | c in f.candidates :: c.0 in s.queue.pending) && f.start == Start(s.turn, now) && f.generation == s.flights.generation)
  {
    CandidatesFrom(s.books, s.queue.pending, now);
    hide Candidates, OverBudget, Eligible;
  }

  lemma AnswerFrom(s: State, id: nat, ok: bool, now: Time)
    ensures var t := Resume(s, id, ok, now);
      && t.flights.generation == s.flights.generation
      && (forall f | f in t.flights.flushes :: exists g :: g in s.flights.flushes && SameFlush(f, g))
      && (forall g | g in t.flights.grants :: g in s.flights.grants || (ok && g.flush == id))
      && (forall r | r in t.queue.pending :: r in s.queue.pending)
  {
    hide Blocked, Record;
    var k := Find(s.flights.flushes, id);
    if k < |s.flights.flushes| {
      var fs, t := s.flights.flushes, Resume(s, id, ok, now);
      assert fs[k] in fs && SameFlush(fs[k], fs[k]);
      forall f | f in t.flights.flushes ensures exists g :: g in fs && SameFlush(f, g) {
        if f in fs { assert SameFlush(f, f); } else { assert SameFlush(f, fs[k]); }
      }
    }
  }

  lemma StepFrom(budget: Budget, s: State, e: Event)
    ensures var t := Step(budget, s, e);
      && (t.flights.generation == s.flights.generation <==> !e.SessionStart? && !e.SessionShutdown?)
      && t.flights.generation >= s.flights.generation
      && FlushesFrom(s, t, e)
      && (forall g | g in t.flights.grants :: g in s.flights.grants || (e.Answer? && e.ok && g.flush == e.id))
      && (forall r | r in t.queue.pending ::
            && !e.SessionStart? && !e.SessionShutdown?
            && (r in s.queue.pending || (e == Offer(r) && IsRequest(r) && s.queue.live && s.books.session.Some?)))
  {
    hide StartFlush, Resume, IsRequest, Receipts, OwnerRevisions;
    match e
    case Answer(id, ok, now) => AnswerFrom(s, id, ok, now);
    case RunTask(now) =>
      if s.queue.tasks > 0 { StartFrom(budget, s.(queue := s.queue.(tasks := s.queue.tasks - 1)), now); }
      Themselves(s.flights.flushes);
    case Settlement(completed, _, _, now) =>
      if completed { StartFrom(budget, s.(queue := s.queue.(agentActive := false, boundary := true)), now); }
      Themselves(s.flights.flushes);
    case _ => Themselves(s.flights.flushes);
  }

  lemma Themselves(fs: seq<Flush>)
    ensures forall f | f in fs :: SameFlush(f, f)
  {
  }

  /** What a step does to the books. */
  lemma BooksFrom(budget: Budget, s: State, e: Event)
    ensures var t := Step(budget, s, e);
      && (t.books.sent == s.books.sent ==> !e.SessionStart? ==>
            t.books.delivered == s.books.delivered && t.books.owners == s.books.owners)
      && (t.books.sent != s.books.sent ==>
            && e.Answer? && e.ok && s.books.session.Some? && |t.books.sent| == |s.books.sent| + 1
            && t.books.sent[..|s.books.sent|] == s.books.sent
            && var d := t.books.sent[|s.books.sent|];
               && d.flush in s.flights.flushes && d.flush.generation == s.flights.generation && d.flush.id == e.id
               && d.at == e.now && d.session == s.books.session.value && d.flush.index < |d.flush.candidates|
               && var r := d.flush.candidates[d.flush.index].0;
                  && t.books.delivered == s.books.delivered + {r.key}
                  && t.books.owners == s.books.owners + {OwnerKey(r.owner, r.generation)}
                  && s.queue.live && !s.queue.agentActive && s.books.session == Some(r.session) && r.expiresAt >= e.now)
  {
    hide StartFlush, IsRequest, Receipts, OwnerRevisions;
    match e
    case Answer(id, ok, now) => hide EndFlush;
    case RunTask(now) => if s.queue.tasks > 0 { StartFrom(budget, s.(queue := s.queue.(tasks := s.queue.tasks - 1)), now); }
    case Settlement(completed, _, _, now) =>
      if completed { StartFrom(budget, s.(queue := s.queue.(agentActive := false, boundary := true)), now); }
    case _ =>
  }

  // ---- Every run ---------------------------------------------------------------------------

  lemma BeganStays(h: History, f: Flush, g: Flush)
    requires h.events != [] && Began(h.Before(), g) && f.start == g.start
    ensures Began(h, f)
  {
    hide Run;
    var i: nat :| BeganAt(h.Before(), g, i);
    assert h.Before().events[..i] == h.events[..i];
    assert BeganAt(h, f, i);
  }

  lemma BeganNow(h: History, f: Flush)
    requires h.events != [] && f.start.turn == h.Before().State().turn
    requires var e := h.Last(); (e.RunTask? && e.now == f.start.at) || (e.Settlement? && e.completed && e.now == f.start.at)
    ensures Began(h, f)
  {
    hide Run;
    assert BeganAt(h, f, |h.events| - 1);
  }

  lemma GrantStays(h: History, id: nat)
    requires h.events != [] && (GrantedBefore(h.Before(), id) || (h.Last().Answer? && h.Last().ok && h.Last().id == id))
    ensures GrantedBefore(h, id)
  {
    if GrantedBefore(h.Before(), id) {
      var i, now :| 0 <= i < |h.Before().events| && h.Before().events[i] == Answer(id, true, now);
      assert h.events[i] == Answer(id, true, now);
    } else {
      assert h.events[|h.events| - 1] == Answer(id, true, h.Last().now);
    }
  }

  lemma PendingOffered(h: History)
    requires h.events != [] && Kept(h.Before())
    ensures forall r | r in h.State().queue.pending :: Offered(h, r)
  {
    StepFrom(h.budget, h.Before().State(), h.Last());
    VariablesAgree(h.Before());
    hide Step, Run, IsRequest, Live, Session, Working, Settling, Owed, Aborted, Compacting, TurnBegan, SentThisTurn;
  }

  lemma CandidatesOffered(h: History)
    requires h.events != [] && Kept(h.Before())
    ensures var s := h.State();
      forall f, c | f in s.flights.flushes && f.generation == s.flights.generation && c in f.candidates :: Offered(h, c.0)
  {
    var s, t := h.Before().State(), h.State();
    StepFrom(h.budget, s, h.Last());
    RunInv(h.budget, h.now, h.logs, h.Before().events);
    GenerationsBound(s.flights);
    hide Step, Run, IsRequest, Offered;
    forall f, c | f in t.flights.flushes && f.generation == t.flights.generation && c in f.candidates ensures Offered(h, c.0) {
      assert Offered(h.Before(), c.0);
      OfferStays(h, c.0);
    }
  }

  lemma OfferStays(h: History, r: Request)
    requires h.events != [] && Offered(h.Before(), r) && !h.Last().SessionStart? && !h.Last().SessionShutdown?
    ensures Offered(h, r)
  {
  }

  lemma GenerationsBound(fl: Flights)
    requires Locks(fl)
    ensures forall f | f in fl.flushes :: f.generation <= fl.generation
  {
    forall f | f in fl.flushes ensures f.generation <= fl.generation {
      var i :| 0 <= i < |fl.flushes| && fl.flushes[i] == f;
    }
  }

  lemma AllBegan(h: History)
    requires h.events != [] && Kept(h.Before())
    ensures forall f | f in h.State().flights.flushes :: Began(h, f)
  {
    var s, t := h.Before().State(), h.State();
    StepFrom(h.budget, s, h.Last());
    hide Step, Run, IsRequest, Offered, Began, GrantedBefore;
    forall f | f in t.flights.flushes ensures Began(h, f) {
      if g :| g in s.flights.flushes && SameFlush(f, g) { BeganStays(h, f, g); } else { BeganNow(h, f); }
    }
  }

  lemma SentBegan(h: History)
    requires h.events != [] && Kept(h.Before())
    ensures forall d | d in h.State().books.sent :: Began(h, d.flush)
  {
    var s, t := h.Before().State(), h.State();
    BooksFrom(h.budget, s, h.Last());
    hide Step, Run, Offered, Began, GrantedBefore;
    forall d | d in t.books.sent ensures Began(h, d.flush) {
      if t.books.sent != s.books.sent { assert t.books.sent == s.books.sent + [t.books.sent[|s.books.sent|]]; }
      BeganStays(h, d.flush, d.flush);
    }
  }

  lemma AllGranted(h: History)
    requires h.events != [] && Kept(h.Before())
    ensures forall g | g in h.State().flights.grants :: GrantedBefore(h, g.flush)
  {
    StepFrom(h.budget, h.Before().State(), h.Last());
    hide Step, Run, IsRequest, Offered, Began, GrantedBefore, FlushesFrom;
    forall g | g in h.State().flights.grants ensures GrantedBefore(h, g.flush) { GrantStays(h, g.flush); }
  }

  /** What the last event added to what was sent in the session. */
  lemma SentNext(h: History)
    requires h.events != []
    ensures var s, t := h.Before().State(), h.State();
      SentInSession(h) ==
        if h.Last().SessionStart? then []
        else SentInSession(h.Before()) + if t.books.sent == s.books.sent then [] else [t.books.sent[|s.books.sent|]]
  {
    var s, t := h.Before().State(), h.State();
    BooksFrom(h.budget, s, h.Last());
    hide Step, Run;
    if t.books.sent != s.books.sent { assert t.books.sent[|s.books.sent|..] == [t.books.sent[|s.books.sent|]]; }
  }

  lemma KeysKnown(h: History)
    requires h.events != [] && Kept(h.Before())
    ensures var b := h.State().books;
      forall d, r | d in SentInSession(h) && RequestSent(d, r) :: r.key in b.delivered && OwnerKey(r.owner, r.generation) in b.owners
  {
    SentNext(h);
    BooksFrom(h.budget, h.Before().State(), h.Last());
    hide Step, Run, SentInSession;
    var s, t := h.Before().State(), h.State();
    forall d, r | d in SentInSession(h) && RequestSent(d, r)
      ensures r.key in t.books.delivered && OwnerKey(r.owner, r.generation) in t.books.owners
    {
      if d in SentInSession(h.Before()) { assert r.key in s.books.delivered; }
    }
  }

  lemma {:induction false} AllKept(h: History)
    ensures Kept(h)
    decreases |h.events|
  {
    if h.events != [] {
      hide Run, Offered, Began, GrantedBefore, SentInSession, Kept;
      AllKept(h.Before());
      PendingOffered(h);
      CandidatesOffered(h);
      AllBegan(h);
      SentBegan(h);
      AllGranted(h);
      KeysKnown(h);
      KeptFrom(h);
    }
  }

  lemma KeptFrom(h: History)
    requires var s := h.State();
      && (forall r | r in s.queue.pending :: Offered(h, r))
      && (forall f, c | f in s.flights.flushes && f.generation == s.flights.generation && c in f.candidates :: Offered(h, c.0))
      && (forall f | f in s.flights.flushes :: Began(h, f))
      && (forall d | d in s.books.sent :: Began(h, d.flush))
      && (forall g | g in s.flights.grants :: GrantedBefore(h, g.flush))
      && (forall d, r | d in SentInSession(h) && RequestSent(d, r) ::
            r.key in s.books.delivered && OwnerKey(r.owner, r.generation) in s.books.owners)
    ensures Kept(h)
  {
  }

  // ---- The promises -------------------------------------------------------------------------

  /** Whatever is sent was offered in the open session, and is sent there, once at a time, while
      it lasts, to an idle agent and in time; its producer granted it at this event and before. */
  lemma SendsAsPromised(h: History)
    requires h.events != [] && h.Sent() != h.Before().Sent()
    ensures h.Last().Answer? && h.Last().ok
    ensures |h.Sent()| == |h.Before().Sent()| + 1 && h.Sent()[..|h.Before().Sent()|] == h.Before().Sent()
    ensures var d, b := h.Sent()[|h.Before().Sent()|], h.Before();
      && d.flush.index < |d.flush.candidates|
      && var r := d.flush.candidates[d.flush.index].0;
         && Live(b) && !Working(b) && Session(b) == Some(r.session) && Offered(b, r)
         && r.expiresAt >= h.Last().now && d.at == h.Last().now
         && d.flush.id == h.Last().id && GrantedBefore(b, d.flush.id)
  {
    AllKept(h.Before());
    VariablesAgree(h.Before());
    BooksFrom(h.budget, h.Before().State(), h.Last());
    SecondGrant(h);
    hide Step, Run, Offered, Live, Session, Working, Settling, Owed, Aborted, Compacting, TurnBegan, SentThisTurn, SentInSession, Began;
  }

  lemma SecondGrant(h: History)
    requires h.events != [] && h.Sent() != h.Before().Sent()
    ensures |h.Sent()| > |h.Before().Sent()| && GrantedBefore(h.Before(), h.Sent()[|h.Before().Sent()|].flush.id)
  {
    var s := h.Before().State();
    AllKept(h.Before());
    BooksFrom(h.budget, s, h.Last());
    RunInv(h.budget, h.now, h.logs, h.Before().events);
    hide Run, GrantedBefore, Offered, Began;
    SecondAsk(h.budget, s, h.Last());
  }

  lemma SecondAsk(budget: Budget, s: State, e: Event)
    requires Inv(budget, s) && e.Answer? && Step(budget, s, e).books.sent != s.books.sent
    ensures var t := Step(budget, s, e);
      && |t.books.sent| > |s.books.sent| && t.books.sent[|s.books.sent|].flush in s.flights.flushes
      && exists g :: g in s.flights.grants && g.flush == t.books.sent[|s.books.sent|].flush.id
  {
    BooksFrom(budget, s, e);
    hide Locks, Balanced, AllProper, AllBegun, IsRequest, Unsent, Ranked, PassedOver, EndFlush;
    var k := Find(s.flights.flushes, e.id);
    var f := s.flights.flushes[k];
    assert Ready(s.books, s.flights, f);
    assert Grant(f.id, f.index, First) in s.flights.grants;
  }

  /** In one session nothing is sent twice: neither a key nor a revision of an owner. */
  lemma {:induction false} SentOncePerSession(h: History, i: nat, j: nat, r: Request, r': Request)
    requires i < j < |SentInSession(h)| && RequestSent(SentInSession(h)[i], r) && RequestSent(SentInSession(h)[j], r')
    ensures r.key != r'.key && OwnerKey(r.owner, r.generation) != OwnerKey(r'.owner, r'.generation)
    decreases |h.events|
  {
    var b := h.Before();
    SentNext(h);
    hide Run, SentInSession;
    if j < |SentInSession(b)| {
      SentOncePerSession(b, i, j, r, r');
    } else {
      AllKept(b);
      assert SentInSession(b)[i] in SentInSession(b);
      FreshKeys(h, r');
    }
  }

  /** What an event sends was not marked as delivered. */
  lemma FreshKeys(h: History, r: Request)
    requires h.events != [] && |h.Sent()| > |h.Before().Sent()| && RequestSent(h.Sent()[|h.Before().Sent()|], r)
    ensures r.key !in h.Before().State().books.delivered && OwnerKey(r.owner, r.generation) !in h.Before().State().books.owners
  {
    var s := h.Before().State();
    RunInv(h.budget, h.now, h.logs, h.Before().events);
    BooksFrom(h.budget, s, h.Last());
    hide Run, Step, IsRequest;
    var d := h.Sent()[|s.books.sent|];
    assert Ready(s.books, s.flights, d.flush);
    assert Unsent(s.books, d.flush.candidates[d.flush.index]);
  }

  /** The flush behind whatever was sent began at an event at which the user had not aborted the
      turn, fewer continuations than allowed had been sent in it, and it was young enough. */
  lemma FlushesBeganAsAllowed(h: History, d: Sent) returns (i: nat)
    requires d in h.Sent()
    ensures BeganAt(h, d.flush, i)
    ensures var b := h.(events := h.events[..i]);
      && !Aborted(b) && (h.budget.max.Some? ==> SentThisTurn(b) < h.budget.max.value)
      && d.flush.start.at - TurnBegan(b) <= h.budget.windowMs
  {
    AllKept(h);
    EverySendProper(h.budget, h.now, h.logs, h.events, d);
    hide Run, Offered, SentInSession, Live, Session, Working, Settling, Owed, Aborted, Compacting, TurnBegan, SentThisTurn;
    assert Began(h, d.flush);
    i :| BeganAt(h, d.flush, i);
    VariablesAgree(h.(events := h.events[..i]));
  }
}
