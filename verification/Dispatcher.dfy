/** The dispatcher as the extension keeps it: variables changed by handlers and by the
    flushes that run between awaits. Every method does exactly one step of the machine. */
module Dispatcher {
  import opened Utf
  import opened StableSort
  import opened Authority
  import opened Dispatch

  class ContinuationDispatcher {
    const budget: Budget
    var books: Books
    var turn: Turn
    var queue: Queue
    var flights: Flights

    ghost function Abs(): State
      reads this
    {
      State(books, turn, queue, flights)
    }

    constructor (budget: Budget, now: Time, logs: map<Text, seq<Entry>>)
      ensures Abs() == Initial(now, logs) && this.budget == budget
    {
      this.budget := budget;
      books := Books(None, {}, {}, logs, []);
      turn := Turn(0, now, false, false, false);
      queue := Queue(true, false, false, [], false, 0);
      flights := Flights(false, 0, [], 0, {}, {});
    }

    method ScheduleFlush()
      modifies this`queue
      ensures queue == Schedule(old(queue))
    {
      if queue.scheduled { return; }
      queue := queue.(scheduled := true);
      queue := queue.(tasks := queue.tasks + 1);
    }

    /** `continuationHandler`. */
    method Offer(request: Request)
      modifies this
      ensures Abs() == Step(budget, old(Abs()), Event.Offer(request))
    {
      hide IsRequest;
      if !IsRequest(request) || !queue.live || books.session.None? { return; }
      queue := queue.(pending := queue.pending + [request]);
      ScheduleFlush();
    }

    /** `flushContinuations` up to its first await, or to its end. */
    method Flush(now: Time)
      modifies this
      ensures Abs() == StartFlush(budget, old(Abs()), now)
    {
      queue := queue.(scheduled := false);
      if flights.inFlight { return; }
      if !queue.live || books.session.None? || queue.agentActive {
        EndOfFlush(false);
        return;
      }
      var pending := queue.pending;
      queue := queue.(pending := []);
      if pending == [] || turn.stoppedByAbort || OverBudget(budget, turn, now) { return; }
      var candidates := Collect(pending, now);
      if candidates == [] { return; }
      flights := flights.(inFlight := true,
                          flushes := flights.flushes + [Dispatch.Flush(flights.nextId, flights.generation, candidates, 0, First, Start(turn, now))],
                          nextId := flights.nextId + 1);
    }

    /** Filter the offers, number them, and rank them. */
    method Collect(pending: seq<Request>, now: Time) returns (candidates: seq<Candidate>)
      ensures candidates == Candidates(books, pending, now)
    {
      var eligible: seq<Candidate> := [];
      for i := 0 to |pending|
        invariant eligible == Indexed(books, pending[..i], now)
      {
        assert pending[..i + 1][..i] == pending[..i];
        var r := pending[i];
        if books.session == Some(r.session) && r.expiresAt >= now
          && r.key !in books.delivered && OwnerKey(r.owner, r.generation) !in books.owners
        {
          eligible := eligible + [(r, |eligible|)];
        }
      }
      assert pending[..|pending|] == pending;
      return Sort(eligible, Rank);
    }

    /** The `finally` block, once the lock has been given back. */
    method EndOfFlush(dispatched: bool)
      modifies this`queue
      ensures queue == EndFlush(old(queue), dispatched)
    {
      if dispatched {
        queue := queue.(pending := []);
      } else if queue.live && !queue.agentActive && queue.pending != [] {
        ScheduleFlush();
      }
    }

    method RunTask(now: Time)
      modifies this
      ensures Abs() == Step(budget, old(Abs()), Event.RunTask(now))
    {
      hide StartFlush;
      if queue.tasks == 0 { return; }
      queue := queue.(tasks := queue.tasks - 1);
      Flush(now);
    }

    /** An `authorize` call settles: its flush runs on. */
    method Answer(id: nat, ok: bool, now: Time)
      modifies this
      ensures Abs() == Step(budget, old(Abs()), Event.Answer(id, ok, now))
    {
      hide Deliver, Reject;
      var k := Find(flights.flushes, id);
      if k == |flights.flushes| { return; }
      var f := flights.flushes[k];
      if ok { flights := Granted(flights, f); }
      if f.generation != flights.generation || f.index >= |f.candidates| {
        flights := Drop(flights, k);
      } else if ok && f.phase == First {
        flights := Replace(flights, k, f.(phase := Second));
      } else {
        var r := f.candidates[f.index].0;
        if !ok || !queue.live || queue.agentActive || books.session != Some(r.session) || r.expiresAt < now {
          PassOver(k, !ok);
        } else {
          Send(k, r, now);
        }
      }
    }

    /** Record the refusal; ask about the next candidate or end the flush. */
    method PassOver(k: nat, denied: bool)
      requires k < |flights.flushes|
      modifies this
      ensures Abs() == Reject(old(Abs()), k, denied)
    {
      var f := flights.flushes[k];
      flights := Refused(flights, k, denied);
      if queue.live && f.index + 1 < |f.candidates| {
        flights := Replace(flights, k, f.(index := f.index + 1, phase := First));
      } else {
        flights := Drop(flights, k);
        flights := flights.(inFlight := false);
        EndOfFlush(false);
      }
    }

    /** Mark the candidate delivered, count it, write its receipt, and end the flush. */
    method Send(k: nat, r: Request, now: Time)
      requires k < |flights.flushes| && books.session == Some(r.session)
      modifies this
      ensures Abs() == Deliver(old(Abs()), k, r, now)
    {
      hide OwnerKey, EndFlush;
      var session, log := r.session, LogOf(books, r.session);
      books := books.(delivered := books.delivered + {r.key});
      books := books.(owners := books.owners + {OwnerKey(r.owner, r.generation)});
      turn := turn.(count := turn.count + 1);
      books := books.(logs := books.logs[session := log + [ReceiptEntry(ReceiptFor(r, session, now))]]);
      books := books.(sent := books.sent + [Sent(flights.flushes[k], session, log, now, !queue.agentActive, flights.grants, flights.refusals)]);
      if !queue.boundary { turn := turn.(harnessStartedRun := true); }
      flights := Drop(flights, k);
      flights := flights.(inFlight := false);
      EndOfFlush(true);
    }

    method SessionStart(id: Text, now: Time)
      modifies this
      ensures Abs() == Step(budget, old(Abs()), Event.SessionStart(id, now))
    {
      flights := flights.(generation := flights.generation + 1, inFlight := false);
      var log := LogOf(books, id);
      var delivered := ContinuationReceipts(log, id);
      var owners := DeliveredOwnerGenerations(log, id);
      books := books.(session := Some(id), delivered := delivered, owners := owners);
      turn := Turn(0, now, false, false, false);
      queue := queue.(scheduled := false, live := true, pending := []);
    }

    method SessionShutdown()
      modifies this
      ensures Abs() == Step(budget, old(Abs()), Event.SessionShutdown)
    {
      flights := flights.(generation := flights.generation + 1, inFlight := false);
      queue := queue.(scheduled := false, live := false, pending := []);
    }

    method BeforeAgentStart(now: Time)
      modifies this
      ensures Abs() == Step(budget, old(Abs()), Event.BeforeAgentStart(now))
    {
      if turn.harnessStartedRun {
        turn := turn.(harnessStartedRun := false);
      } else {
        turn := Turn(0, now, false, false, false);
      }
    }

    /** `onActionableSettlement` up to its await of the flush. */
    method Settlement(completed: bool, aborted: bool, compacting: bool, now: Time)
      modifies this
      ensures Abs() == Step(budget, old(Abs()), Event.Settlement(completed, aborted, compacting, now))
    {
      hide StartFlush;
      queue := queue.(agentActive := false);
      if completed {
        queue := queue.(boundary := true);
        Flush(now);
      } else {
        turn := turn.(stoppedByAbort := aborted && !turn.compactionAbort && !compacting);
        queue := queue.(pending := []);
      }
    }

    method AgentSettled(aborted: bool, compacting: bool)
      modifies this
      ensures Abs() == Step(budget, old(Abs()), Event.AgentSettled(aborted, compacting))
    {
      queue := queue.(agentActive := false);
      if aborted && !turn.compactionAbort && !compacting { turn := turn.(stoppedByAbort := true); }
      if turn.stoppedByAbort {
        queue := queue.(pending := []);
      } else if queue.pending != [] {
        ScheduleFlush();
      }
    }
  }
}
