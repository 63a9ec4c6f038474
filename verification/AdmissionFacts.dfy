/** What holds of the admission state after every run of events. */
module AdmissionFacts {
  import opened Basics
  import opened Utf
  import opened Reservations
  import opened Admission

  /** What may be given to the input leaves the completion and the overhead free. */
  predicate SoundBudget(b: Budget) {
    b.window.Some? && (b.input > 0 ==> b.input + b.completion + b.overhead <= b.window.value)
  }

  predicate LedgerHolds(serving: Serving, h: Holdings) {
    && DistinctIds(h.ledger)
    && (forall x | x in h.ledger :: serving.epoch == Some(x.epoch) && x.id in h.active)
  }

  ghost predicate Within(c: Capacity, ledger: seq<Reservation>) {
    && (c.allowance.Some? ==> c.allowance.value >= 0)
    && (c.admitted.Some? ==>
          var a := c.admitted.value;
          && a.verdict.Admitted? && SoundBudget(a.budget)
          && c.allowance == Some(a.budget.input - a.Load() - a.margin)
          && Capped(ledger, c.allowance.value))
  }

  /** No epoch has more reserved than the cap. */
  ghost predicate Capped(ledger: seq<Reservation>, cap: int) { forall e :: Sum(ledger, e) <= cap }

  ghost predicate Inv(s: State) {
    LedgerHolds(s.serving, s.holdings) && Within(s.capacity, s.holdings.ledger) && |s.recovery.attempted| <= MAX_ATTEMPTS
  }

  lemma {:induction false} NoEntries(rs: seq<Reservation>, e: Epoch)
    requires forall x | x in rs :: x.epoch != e
    ensures Sum(rs, e) == 0 && Only(rs, e) == []
  {
    if rs != [] {
      assert rs[|rs| - 1] in rs;
      NoEntries(rs[..|rs| - 1], e);
    }
  }

  /** A new epoch starts with nothing reserved. */
  lemma SyncInv(s: State, p: Option<Profile>)
    requires Inv(s)
    ensures Inv(Sync(s, p)) && Sync(s, p).serving.profile == s.serving.profile
    ensures p.Some? ==> Sync(s, p).serving.epoch == Some(p.value.epoch)
    ensures Sync(s, p) != s ==> Sync(s, p).capacity == NO_CAPACITY && Sync(s, p).holdings.ledger == []
  {
    hide Sum, Only;
    if p.Some? && s.serving.epoch != Some(p.value.epoch) { NoEntries(s.holdings.ledger, p.value.epoch); }
  }

  lemma StartInv()
    ensures Inv(START)
  {
  }

  lemma ReserveInv(s: State, id: Text, tokens: Num)
    requires Inv(s)
    ensures Inv(ReserveStep(s, id, tokens).0)
  {
    hide Sum, Sync, Reserving, DistinctIds;
    if s.serving.profile.Some? {
      var p := s.serving.profile.value;
      var t := Sync(s, Some(p));
      SyncInv(s, Some(p));
      if p.safeInput.Some? && t.capacity.allowance.Some? {
        var allowance := t.capacity.allowance.value;
        ReservingKeepsDistinct(t.holdings.ledger, id, p.epoch, tokens, Finite(allowance as real));
        if t.capacity.admitted.Some? {
          ReservingWithin(t.holdings.ledger, id, p.epoch, tokens, allowance);
        }
      }
    }
  }

  lemma ReservingWithin(rs: seq<Reservation>, id: Text, e: Epoch, tokens: Num, allowance: int)
    requires Capped(rs, allowance)
    requires forall x | x in rs :: x.epoch == e
    ensures Capped(Reserving(rs, id, e, tokens, Finite(allowance as real)).0, allowance)
  {
    var after := Reserving(rs, id, e, tokens, Finite(allowance as real)).0;
    ReservingStaysWithin(rs, id, e, tokens, Finite(allowance as real));
    forall x ensures Sum(after, x) <= allowance {
      if x != e && after != rs { assert after[..|rs|] == rs; }
    }
  }

  lemma ReleaseInv(s: State, id: Text)
    requires Inv(s)
    ensures Inv(s.(holdings := ReleaseStep(s.holdings, id)))
  {
    hide Sum, Remove, DistinctIds;
    forall e ensures Sum(Remove(s.holdings.ledger, id), e) <= Sum(s.holdings.ledger, e) {
      RemoveReleases(s.holdings.ledger, id, e);
    }
    if s.serving.epoch.Some? { RemoveReleases(s.holdings.ledger, id, s.serving.epoch.value); } else { EmptyLedger(s); }
  }

  lemma EmptyLedger(s: State)
    requires LedgerHolds(s.serving, s.holdings) && s.serving.epoch.None?
    ensures s.holdings.ledger == [] && forall id :: Remove(s.holdings.ledger, id) == []
  {
    if s.holdings.ledger != [] { FirstIsMember(s.holdings.ledger); }
  }

  lemma FirstIsMember<T>(s: seq<T>)
    requires s != []
    ensures s[0] in s
  {
  }

  lemma AccountIsSound(p: Profile, payload: Payload, o: Option<Observation>, generation: nat, reserved: nat)
    ensures var a := Account(p, payload, o, generation, reserved);
      && a.reserved == reserved
      && (a.verdict.Admitted? ==> SoundBudget(a.budget) && a.Remaining() >= 0)
  {
    hide MarginOf, FinitePositiveOf, FinitePositive, RelationOf;
  }

  lemma {:induction false} OtherSums(rs: seq<Reservation>, e: Epoch, x: Epoch)
    requires forall r | r in rs :: r.epoch == e
    ensures Sum(rs, x) <= Sum(rs, e)
  {
    if rs != [] {
      assert rs[|rs| - 1] in rs;
      OtherSums(rs[..|rs| - 1], e, x);
    }
  }

  lemma CapacityWithin(a: Accounting, ledger: seq<Reservation>, e: Epoch)
    requires a.verdict.Admitted? ==> SoundBudget(a.budget) && a.Remaining() >= 0
    requires (forall r | r in ledger :: r.epoch == e) && a.reserved == Sum(ledger, e)
    ensures Within(CapacityOf(a), ledger)
  {
    hide Sum, SoundBudget;
    forall x ensures Sum(ledger, x) <= Sum(ledger, e) { OtherSums(ledger, e, x); }
  }

  lemma RequestInv(s: State, p: Option<Profile>, payload: Option<Payload>, u: Option<Usage>)
    requires Inv(s)
    ensures Inv(RequestStep(s, p, payload, u))
  {
    hide Sum, Sync, Account, CapacityOf, Remembered, DistinctIds, SoundBudget, Within;
    if p.Some? {
      var s0 := s.(recovery := s.recovery.(pending := None));
      var t0 := s0.(serving := s0.serving.(profile := p));
      assert Inv(t0);
      SyncInv(t0, p);
      var t := Sync(t0, p);
      if payload.Some? {
        AccountIsSound(p.value, payload.value, Observed(t, p.value, u), t.seen.generation, Sum(t.holdings.ledger, p.value.epoch));
        CapacityWithin(AccountFor(t, p.value, payload.value, u), t.holdings.ledger, p.value.epoch);
      }
    }
  }

  lemma SettleInv(s: State, enabled: bool, canCompact: bool, leased: bool)
    requires Inv(s)
    ensures var (t, started) := SettleStep(s, enabled, canCompact, leased);
      && Inv(t)
      // A compaction is started at most once for each request.
      && (started ==> s.recovery.pending.Some? && s.recovery.pending.value !in s.recovery.attempted
                      && t.recovery.attempted == s.recovery.attempted + {s.recovery.pending.value})
      && (!started ==> t.recovery == s.recovery)
  {
  }

  lemma StepInv(s: State, e: Event)
    requires Inv(s)
    ensures Inv(Step(s, e))
  {
    hide ReserveStep, ReleaseStep, RequestStep, SettleStep, Sync, Sum, Within, DistinctIds;
    match e
    case Reserve(id, tokens) => ReserveInv(s, id, tokens);
    case Release(id) => ReleaseInv(s, id);
    case SessionStart(p) =>
      var t := State(Serving(p, None), s.capacity, s.seen.(generation := 0), Recovery(None, {}), NOTHING_HELD);
      NothingHeld(s.capacity, s.holdings.ledger);
      NoneDistinct();
      SyncInv(t, p);
    case ModelSelect(p) => SyncInv(s.(serving := s.serving.(profile := p)), p);
    case SessionCompact => NoCapacity(s.holdings.ledger);
    case Request(enabled, p, payload, u) => RequestInv(s, p, payload, u);
    case AgentSettled(enabled, canCompact, leased) => SettleInv(s, enabled, canCompact, leased);
    case RecoveryFinished(epoch) => NoCapacity(s.holdings.ledger);
    case SessionShutdown =>
      NothingHeld(s.capacity, s.holdings.ledger);
      NoneDistinct();
  }

  lemma NothingHeld(c: Capacity, ledger: seq<Reservation>)
    requires Within(c, ledger)
    ensures Within(c, [])
  {
  }

  lemma NoCapacity(ledger: seq<Reservation>)
    ensures Within(NO_CAPACITY, ledger)
  {
  }

  lemma NoneDistinct()
    ensures DistinctIds([])
  {
  }

  lemma {:induction false} RunInv(events: seq<Event>)
    ensures Inv(Run(events))
  {
    hide Inv, Step;
    if events == [] {
      StartInv();
    } else {
      RunInv(events[..|events| - 1]);
      StepInv(Run(events[..|events| - 1]), events[|events| - 1]);
    }
  }

  // ---- Recoveries -------------------------------------------------------------------------

  /** What a compaction is started for at this event, if one is. */
  function StartedBy(s: State, e: Event): Option<RecoveryKey> {
    if e.AgentSettled? && SettleStep(s, e.enabled, e.canCompact, e.leased).1 then s.recovery.pending else None
  }

  /** The requests compactions were started for since the session started, in order. */
  function Starts(events: seq<Event>): seq<RecoveryKey> {
    if events == [] || events[|events| - 1].SessionStart? then []
    else
      var n := |events| - 1;
      var key := StartedBy(Run(events[..n]), events[n]);
      Starts(events[..n]) + if key.Some? then [key.value] else []
  }

  /** What an event does to the requests attempted so far. */
  lemma AttemptedStep(s: State, e: Event)
    ensures var t, key := Step(s, e).recovery.attempted, StartedBy(s, e);
      if e.SessionStart? then t == {}
      else if key.Some? then key.value !in s.recovery.attempted && t == s.recovery.attempted + {key.value}
      else t == s.recovery.attempted
  {
    hide Sum, Only, Account, CapacityOf, Remembered, Reserving, Remove;
  }

  /** In every session a compaction is started at most once for each request, and at most 32
      times in all. */
  lemma {:induction false} RecoveriesAreBounded(events: seq<Event>)
    ensures var keys := Starts(events);
      && Distinct(keys) && |keys| <= MAX_ATTEMPTS
      && forall k :: k in keys <==> k in Run(events).recovery.attempted
  {
    hide Step, StartedBy;
    if events != [] {
      var n := |events| - 1;
      RecoveriesAreBounded(events[..n]);
      AttemptedStep(Run(events[..n]), events[n]);
    }
    RunInv(events);
    AsManyMembers(Starts(events), Run(events).recovery.attempted);
  }

  lemma {:induction false} AsManyMembers<T>(xs: seq<T>, s: set<T>)
    requires (forall i, j | 0 <= i < j < |xs| :: xs[i] != xs[j]) && forall x :: x in xs <==> x in s
    ensures |xs| == |s|
  {
    if xs == [] {
      assert s == {};
    } else {
      var last, front := xs[|xs| - 1], xs[..|xs| - 1];
      assert last in xs;
      forall x ensures x in front <==> x in s - {last} {
        if x in s - {last} {
          var i :| 0 <= i < |xs| && xs[i] == x;
          assert front[i] == x;
        }
      }
      AsManyMembers(front, s - {last});
    }
  }

  /** Whether an event is a request that does not fit, by its key. */
  predicate Refuses(s: State, e: Event, key: RecoveryKey) {
    && e.Request? && e.enabled && e.profile.Some? && e.payload.Some?
    && key == RecoveryKey(e.profile.value.epoch, e.payload.value.digest)
    && var t := Sync(s.(recovery := s.recovery.(pending := None), serving := s.serving.(profile := e.profile)), e.profile);
      var verdict := AccountFor(t, e.profile.value, e.payload.value, e.usage).verdict;
      verdict.AggregateOver? || verdict.ObservedOver?
  }

  ghost predicate WasRefused(events: seq<Event>, key: RecoveryKey) {
    exists i :: 0 <= i < |events| && Refuses(Run(events[..i]), events[i], key)
  }

  lemma PendingStep(s: State, e: Event)
    ensures var pending := Step(s, e).recovery.pending;
      pending.Some? ==> pending == s.recovery.pending || Refuses(s, e, pending.value)
  {
    hide Sum, Only, Remembered, CapacityOf, Reserving, Remove, BudgetOf, MarginOf, RelationOf, VerdictOf, Observed;
  }

  lemma RefusedEarlier(events: seq<Event>, e: Event, key: RecoveryKey)
    ensures WasRefused(events, key) || Refuses(Run(events), e, key) ==> WasRefused(events + [e], key)
  {
    hide Run, Refuses;
    var all := events + [e];
    assert all[..|events|] == events;
    if WasRefused(events, key) {
      var i :| 0 <= i < |events| && Refuses(Run(events[..i]), events[i], key);
      assert all[..i] == events[..i];
    }
  }

  /** A compaction is only ever started for a request that did not fit. */
  lemma {:induction false} RecoveriesAreForRefusals(events: seq<Event>)
    ensures forall k | k in Starts(events) || Run(events).recovery.pending == Some(k) :: WasRefused(events, k)
  {
    hide Step, Refuses, WasRefused;
    if events != [] {
      var n := |events| - 1;
      var before, e := events[..n], events[n];
      assert before + [e] == events;
      RecoveriesAreForRefusals(before);
      PendingStep(Run(before), e);
      forall k | k in Starts(events) || Run(events).recovery.pending == Some(k) ensures WasRefused(events, k) {
        RefusedEarlier(before, e, k);
      }
    }
  }

  /** After an admitted request and until the allowance next changes, the request and all
      that tools have reserved since still fit in the window together. */
  lemma AdmittedStaysSafe(events: seq<Event>, e: Epoch)
    requires Run(events).capacity.admitted.Some?
    ensures var s := Run(events);
      var a := s.capacity.admitted.value;
      a.payload > 0 || a.margin > 0 ==> Fits(a, Sum(s.holdings.ledger, e))
  {
    hide Sum, Run;
    RunInv(events);
  }

  /** Every reservation in the ledger can be released, and releasing it leaves the others. */
  lemma ReservationsAreReleasable(events: seq<Event>, r: Reservation)
    requires r in Run(events).holdings.ledger
    ensures var s := Run(events);
      var t := Step(s, Release(r.id));
      && s.serving.epoch == Some(r.epoch)
      && forall x :: x in t.holdings.ledger <==> x in s.holdings.ledger && x.id != r.id
  {
    hide Run, Remove;
    RunInv(events);
    RemoveReleases(Run(events).holdings.ledger, r.id, r.epoch);
  }

  /** Asking for the same reservation again answers yes and changes nothing. */
  lemma ReservingAgainChangesNothing(events: seq<Event>, id: Text, tokens: Num)
    requires ReserveStep(Run(events), id, tokens).1.Reserved?
    ensures var (t, answer) := ReserveStep(Run(events), id, tokens);
      ReserveStep(t, id, tokens) == (t, answer.(idempotent := true))
  {
    RunInv(events);
    ReserveTwice(Run(events), id, tokens);
  }

  lemma ReserveTwice(s: State, id: Text, tokens: Num)
    requires Inv(s) && ReserveStep(s, id, tokens).1.Reserved?
    ensures var (t, answer) := ReserveStep(s, id, tokens);
      ReserveStep(t, id, tokens) == (t, answer.(idempotent := true))
  {
    hide Reserving, Sum;
    var p := s.serving.profile.value;
    var u := Sync(s, Some(p));
    SyncInv(s, Some(p));
    var allowance := Finite(u.capacity.allowance.value as real);
    ReservingTwice(u.holdings.ledger, id, p.epoch, tokens, allowance, allowance);
  }
}
