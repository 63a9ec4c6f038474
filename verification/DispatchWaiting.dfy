/** Which offers wait, and when a flush takes them, told from the events of a run. */
module DispatchWaiting {
  import opened Utf
  import opened Authority
  import opened Dispatch
  import opened DispatchHistory

  /** A task to flush is due. */
  predicate Due(h: History) { h.State().queue.tasks > 0 }

  /** A flush of the current generation is under way. */
  predicate Asking(h: History) { h.State().flights.inFlight }

  /** Nothing keeps a flush from taking what waits. */
  predicate Open(h: History) { !Asking(h) && Live(h) && Session(h).Some? }

  /** The usable offers since they were last taken, sent or dropped, in order. */
  function Waiting(h: History): seq<Request>
    decreases |h.events|
  {
    if h.events == [] then []
    else
      var b := h.Before();
      match h.Last()
      case Offer(r) => Waiting(b) + if IsRequest(r) && Live(b) && Session(b).Some? then [r] else []
      case SessionStart(_, _) => []
      case SessionShutdown => []
      case RunTask(_) => if Due(b) && Open(b) && !Working(b) then [] else Waiting(b)
      case Settlement(completed, _, _, _) => if completed && !Open(b) then Waiting(b) else []
      case AgentSettled(_, _) => if Aborted(h) then [] else Waiting(b)
      case Answer(_, _, _) => if SentNow(h) > 0 then [] else Waiting(b)
      case _ => Waiting(b)
  }

  lemma PendingStep(budget: Budget, s: State, e: Event)
    ensures var t := Step(budget, s, e);
      var open := !s.flights.inFlight && s.queue.live && s.books.session.Some?;
      t.queue.pending ==
        match e
        case Offer(r) => s.queue.pending + if IsRequest(r) && s.queue.live && s.books.session.Some? then [r] else []
        case SessionStart(_, _) => []
        case SessionShutdown => []
        case RunTask(_) => if s.queue.tasks > 0 && open && !s.queue.agentActive then [] else s.queue.pending
        case Settlement(completed, _, _, _) => if completed && !open then s.queue.pending else []
        case AgentSettled(_, _) => if t.turn.stoppedByAbort then [] else s.queue.pending
        case Answer(_, _, _) => if |t.books.sent| > |s.books.sent| then [] else s.queue.pending
        case _ => s.queue.pending
  {
    hide Candidates, Receipts, OwnerRevisions, OverBudget, IsRequest, Blocked;
    if e.Offer? { assert s.queue.pending + [] == s.queue.pending; }
  }

  lemma {:induction false} WaitingExactly(h: History)
    ensures h.State().queue.pending == Waiting(h)
    decreases |h.events|
  {
    hide Step, IsRequest;
    if h.events != [] {
      WaitingExactly(h.Before());
      VariablesAgree(h.Before());
      VariablesAgree(h);
      PendingStep(h.budget, h.Before().State(), h.Last());
    }
  }

  /** Whether the last event takes what waits to the producers: a task is due or a run has been
      completed, nothing stands in the way, the user has not aborted the turn, the budget has room
      in turns and in time, and some waiting offer may still be sent. */
  predicate Takes(h: History)
    requires h.events != []
  {
    var b, e := h.Before(), h.Last();
    && ((e.RunTask? && Due(b) && !Working(b)) || (e.Settlement? && e.completed))
    && Open(b) && Waiting(b) != [] && !Aborted(b)
    && (h.budget.max.Some? ==> SentThisTurn(b) < h.budget.max.value) && e.now - TurnBegan(b) <= h.budget.windowMs
    && Candidates(b.State().books, Waiting(b), e.now) != []
  }

  /** A flush is scheduled only when something waits for it: an offer has come, or others wait for
      an idle dispatcher. Running a task uses it up. */
  lemma TasksAreForOffers(h: History)
    requires h.events != []
    ensures var left := h.Before().State().queue.tasks - if h.Last().RunTask? && Due(h.Before()) then 1 else 0;
      && left <= h.State().queue.tasks <= left + 1
      && (h.State().queue.tasks > left ==> Waiting(h) != [] && Live(h) && (h.Last().Offer? || !Working(h)))
  {
    WaitingExactly(h);
    WaitingExactly(h.Before());
    VariablesAgree(h);
    VariablesAgree(h.Before());
    NothingWaitsShut(h.Before());
    TasksStep(h.budget, h.Before().State(), h.Last());
    hide Step, Waiting, Session, Live, Working, Settling, Owed, Aborted, Compacting, TurnBegan, SentThisTurn;
  }

  /** Nothing waits while the dispatcher is shut down. */
  lemma {:induction false} NothingWaitsShut(h: History)
    ensures !Live(h) ==> Waiting(h) == []
    decreases |h.events|
  {
    hide IsRequest, Session, Working, Settling, Owed, Aborted, Compacting, TurnBegan, SentThisTurn;
    if h.events != [] { NothingWaitsShut(h.Before()); }
  }

  lemma TasksStep(budget: Budget, s: State, e: Event)
    requires !s.queue.live ==> s.queue.pending == []
    ensures var t := Step(budget, s, e);
      var left := s.queue.tasks - if e.RunTask? && s.queue.tasks > 0 then 1 else 0;
      && left <= t.queue.tasks <= left + 1
      && (t.queue.tasks > left ==> t.queue.pending != [] && t.queue.live && (e.Offer? || !t.queue.agentActive))
  {
    hide Candidates, Receipts, OwnerRevisions, OverBudget, IsRequest, Resume, StartFlush, EndFlush;
    match e
    case Answer(id, ok, now) => AnswerTasks(s, id, ok, now);
    case RunTask(now) => if s.queue.tasks > 0 { StartTasks(budget, s.(queue := s.queue.(tasks := s.queue.tasks - 1)), now); }
    case Settlement(completed, _, _, now) =>
      if completed { StartTasks(budget, s.(queue := s.queue.(agentActive := false, boundary := true)), now); }
    case _ =>
  }

  predicate MoreForWaiting(q: Queue, t: Queue) {
    q.tasks <= t.tasks <= q.tasks + 1 && (t.tasks > q.tasks ==> t.pending != [] && t.live && !t.agentActive)
  }

  lemma AnswerTasks(s: State, id: nat, ok: bool, now: Time)
    ensures MoreForWaiting(s.queue, Resume(s, id, ok, now).queue)
  {
    hide Blocked, Record;
  }

  lemma StartTasks(budget: Budget, s: State, now: Time)
    ensures MoreForWaiting(s.queue, StartFlush(budget, s, now).queue)
  {
    hide Candidates, OverBudget;
  }

  lemma LaunchStep(budget: Budget, s: State, e: Event)
    requires e.RunTask? || e.Settlement?
    ensures var t, q := Step(budget, s, e), s.queue;
      var takes := ((e.RunTask? && q.tasks > 0 && !q.agentActive) || (e.Settlement? && e.completed))
        && !s.flights.inFlight && q.live && s.books.session.Some? && q.pending != [] && !s.turn.stoppedByAbort
        && !OverBudget(budget, s.turn, e.now) && Candidates(s.books, q.pending, e.now) != [];
      t.flights == if takes then Launch(s.flights, Candidates(s.books, q.pending, e.now), Start(s.turn, e.now)) else s.flights
  {
    hide Candidates, OverBudget;
  }

  /** A flush begins at exactly these events, with the waiting offers that may still be sent as its
      candidates; nothing else of what is under way changes at a task or a settlement. */
  lemma TakesExactly(h: History)
    requires h.events != [] && (h.Last().RunTask? || h.Last().Settlement?)
    ensures var before, now := h.Before().State(), h.State();
      if Takes(h) then
        && now.flights.inFlight
        && now.flights.flushes == before.flights.flushes +
             [Flush(before.flights.nextId, before.flights.generation, Candidates(before.books, Waiting(h.Before()), h.Last().now), 0, First,
                    Start(before.turn, h.Last().now))]
      else now.flights == before.flights
  {
    WaitingExactly(h.Before());
    VariablesAgree(h.Before());
    LaunchStep(h.budget, h.Before().State(), h.Last());
    hide Step, Candidates, Waiting, Session, Live, Working, Settling, Owed, Aborted, Compacting, TurnBegan, SentThisTurn;
  }
}
