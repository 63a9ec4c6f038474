/**
 The dispatcher's runs told from their events: which session is open, whether the agent is at
 work, when the user's turn began and how it was stopped, and what was sent in it. The state
 machine's variables say the same, and with them what may be sent is stated on the events.
 */
module DispatchHistory {
  import opened Utf
  import opened Authority
  import opened Dispatch
  import opened DispatchFacts

  /** A run: where it begins, and what happened. */
  datatype History = History(budget: Budget, now: Time, logs: map<Text, seq<Entry>>, events: seq<Event>)
  {
    function State(): State { Run(budget, Initial(now, logs), events) }

    function Sent(): seq<Sent> { State().books.sent }

    function Before(): History
      requires events != []
    {
      this.(events := events[..|events| - 1])
    }

    function Last(): Event
      requires events != []
    {
      events[|events| - 1]
    }
  }

  /** The session opened last, also after it was shut down. */
  function Session(h: History): Option<Text>
    decreases |h.events|
  {
    if h.events == [] then None
    else
      match h.Last()
      case SessionStart(session, _) => Some(session)
      case _ => Session(h.Before())
  }

  predicate Live(h: History)
    decreases |h.events|
  {
    h.events == [] || h.Last().SessionStart? || (!h.Last().SessionShutdown? && Live(h.Before()))
  }

  /** The agent is at work from its start until it is settled, one way or the other. */
  predicate Working(h: History)
    decreases |h.events|
  {
    h.events != [] && (h.Last().AgentStart? || (!h.Last().Settlement? && !h.Last().AgentSettled? && Working(h.Before())))
  }

  /** Between a completed settlement and its end, what is sent goes on in the same run. */
  predicate Settling(h: History)
    decreases |h.events|
  {
    h.events != []
    && ((h.Last().Settlement? && h.Last().completed) || (!h.Last().SettlementClosed? && Settling(h.Before())))
  }

  /** How many continuations the last event sent. */
  function SentNow(h: History): int
    requires h.events != []
  {
    |h.Sent()| - |h.Before().Sent()|
  }

  /** A continuation sent to the idle agent starts a run that has not begun yet. */
  predicate Owed(h: History)
    decreases |h.events|
  {
    h.events != [] && !h.Last().SessionStart? && !h.Last().BeforeAgentStart?
    && (Owed(h.Before()) || (SentNow(h) > 0 && !Settling(h.Before())))
  }

  /** The user's turn begins with a session or with a run that no continuation started. */
  predicate NewTurn(h: History)
    requires h.events != []
  {
    h.Last().SessionStart? || (h.Last().BeforeAgentStart? && !Owed(h.Before()))
  }

  function TurnBegan(h: History): int
    decreases |h.events|
  {
    if h.events == [] then h.now
    else if NewTurn(h) then h.Last().now
    else TurnBegan(h.Before())
  }

  /** What was sent since the user's turn began. */
  function SentThisTurn(h: History): int
    decreases |h.events|
  {
    if h.events == [] || NewTurn(h) then 0 else SentThisTurn(h.Before()) + SentNow(h)
  }

  /** The harness itself aborts the agent to compact, until the compaction is done. */
  predicate Compacting(h: History)
    decreases |h.events|
  {
    h.events != [] && !NewTurn(h) && (h.Last().BeforeCompact? || (!h.Last().Compacted? && Compacting(h.Before())))
  }

  /** The user has aborted the turn: the last unfinished settlement was an abort of theirs, or a
      settled agent was, and no compaction or turn has begun or ended since. */
  predicate Aborted(h: History)
    decreases |h.events|
  {
    h.events != [] && !NewTurn(h) && !h.Last().BeforeCompact? && !h.Last().Compacted?
    && (var e := h.Last();
        var byUser := (e.Settlement? || e.AgentSettled?) && e.aborted && !e.compacting && !Compacting(h.Before());
        if e.Settlement? && !e.completed then byUser else Aborted(h.Before()) || (e.AgentSettled? && byUser))
  }

  // ---- The variables say the same ----------------------------------------------------------

  ghost predicate Agrees(h: History) {
    var s := h.State();
    && s.books.session == Session(h) && s.queue.live == Live(h) && s.queue.agentActive == Working(h)
    && s.queue.boundary == Settling(h)
    && s.turn == Turn(s.turn.count, TurnBegan(h), Owed(h), Aborted(h), Compacting(h)) && s.turn.count == SentThisTurn(h)
  }

  /** What a step does to the variables, whatever it sends. */
  lemma StepAgrees(budget: Budget, s: State, e: Event)
    ensures var t := Step(budget, s, e);
      var sent := |t.books.sent| - |s.books.sent|;
      && 0 <= sent <= 1
      && t.books.session == (if e.SessionStart? then Some(e.session) else s.books.session)
      && t.queue.live == (e.SessionStart? || (!e.SessionShutdown? && s.queue.live))
      && t.queue.agentActive == (e.AgentStart? || (!e.Settlement? && !e.AgentSettled? && s.queue.agentActive))
      && t.queue.boundary == ((e.Settlement? && e.completed) || (!e.SettlementClosed? && s.queue.boundary))
      && t.turn.harnessStartedRun == (!e.SessionStart? && !e.BeforeAgentStart?
            && (s.turn.harnessStartedRun || (sent > 0 && !s.queue.boundary)))
      && (var begins := e.SessionStart? || (e.BeforeAgentStart? && !s.turn.harnessStartedRun);
          && t.turn.startedAt == (if begins then e.now else s.turn.startedAt)
          && t.turn.count == (if begins then 0 else s.turn.count + sent)
          && t.turn.compactionAbort == (!begins && (e.BeforeCompact? || (!e.Compacted? && s.turn.compactionAbort)))
          && t.turn.stoppedByAbort == (!begins &&
               match e
               case BeforeCompact => false
               case Compacted => false
               case Settlement(completed, aborted, compacting, _) =>
                 if completed then s.turn.stoppedByAbort else aborted && !compacting && !s.turn.compactionAbort
               case AgentSettled(aborted, compacting) =>
                 s.turn.stoppedByAbort || (aborted && !compacting && !s.turn.compactionAbort)
               case _ => s.turn.stoppedByAbort))
  {
    hide Candidates, Receipts, OwnerRevisions, OverBudget, IsRequest, Blocked;
    if e.Answer? {
      hide StartFlush;
      AnswerAgrees(s, e.id, e.ok, e.now);
    }
  }

  lemma AnswerAgrees(s: State, id: nat, ok: bool, now: Time)
    ensures var t := Resume(s, id, ok, now);
      var sent := |t.books.sent| - |s.books.sent|;
      && 0 <= sent <= 1 && t.books.session == s.books.session
      && t.queue.live == s.queue.live && t.queue.agentActive == s.queue.agentActive && t.queue.boundary == s.queue.boundary
      && t.turn == s.turn.(count := s.turn.count + sent, harnessStartedRun := s.turn.harnessStartedRun || (sent > 0 && !s.queue.boundary))
  {
    hide Blocked;
  }

  lemma {:induction false} VariablesAgree(h: History)
    ensures Agrees(h)
    decreases |h.events|
  {
    hide Step;
    if h.events != [] {
      VariablesAgree(h.Before());
      StepAgrees(h.budget, h.Before().State(), h.Last());
    }
  }

  // ---- The budget --------------------------------------------------------------------------

  /** No more continuations are sent in one turn of the user than the budget allows. */
  lemma SentWithinBudget(h: History)
    ensures h.budget.max.Some? ==> SentThisTurn(h) <= h.budget.max.value
  {
    VariablesAgree(h);
    RunInv(h.budget, h.now, h.logs, h.events);
    hide Run, Locks, AllReady, AllProper, Balanced, SentThisTurn, Session, Live, Working, Settling, Owed, Aborted, Compacting, TurnBegan;
  }
}
