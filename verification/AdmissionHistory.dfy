/**
 What the admission state remembers, told from the events alone: which request the allowance
 is from, which overflow and which refused request are remembered, when a compaction starts.
 */
module AdmissionHistory {
  import opened Basics
  import opened Utf
  import opened Reservations
  import opened Admission
  import opened AdmissionFacts
  import opened AdmissionMeaning

  // ---- Reserving --------------------------------------------------------------------------------

  predicate Sensible(n: Num) { n.Finite? && n.value >= 0.0 }

  /** The answer to a reservation and what it leaves, from the numbers alone. */
  lemma ReservesExactly(rs: seq<Reservation>, id: Text, e: Epoch, tokens: Num, allowance: Num, wanted: nat)
    requires DistinctIds(rs) && (tokens.Finite? && tokens.value >= 0.0 ==> tokens.value <= wanted as real < tokens.value + 1.0)
    ensures var (after, answer) := Reserving(rs, id, e, tokens, allowance);
      if |id| == 0 || !Sensible(tokens) || !Sensible(allowance) then answer == Refused(Invalid) && after == rs
      else if exists x :: x in rs && x.id == id then
        && after == rs
        && answer == if Reservation(id, e, wanted) in rs then Reserved(id, e, wanted, true) else Refused(Inflation)
      else if (Sum(rs, e) + wanted) as real > allowance.value then answer == Refused(BudgetExceeded) && after == rs
      else answer == Reserved(id, e, wanted, false) && after == rs + [Reservation(id, e, wanted)]
  {
    hide Sum, Find;
    hide DistinctIds;
    var n := Find(rs, id);
    if tokens.Finite? && tokens.value >= 0.0 { assert Ceil(tokens.value) == wanted; }
    if n < |rs| {
      assert rs[n] in rs && rs[n].id == id;
      if Reservation(id, e, wanted) in rs { SameReservation(rs, n, Reservation(id, e, wanted)); }
    }
  }

  lemma SameReservation(rs: seq<Reservation>, n: nat, x: Reservation)
    requires DistinctIds(rs) && n < |rs| && x in rs && rs[n].id == x.id
    ensures rs[n] == x
  {
    var i :| 0 <= i < |rs| && rs[i] == x;
    assert i == n || i < n || n < i;
  }

  // ---- What is being served ---------------------------------------------------------------------

  /** The epoch is that of the profile. */
  predicate Serves(s: State) {
    s.serving.epoch == if s.serving.profile.None? then None else Some(s.serving.profile.value.epoch)
  }

  /** Whether this event serves another epoch, or none, from here on. */
  predicate TurnsTo(s: State, e: Event) {
    || e.SessionStart?
    || (e.ModelSelect? && (e.profile.None? || s.serving.epoch != Some(e.profile.value.epoch)))
    || (e.Request? && e.enabled && e.profile.Some? && s.serving.epoch != Some(e.profile.value.epoch))
  }

  lemma {:induction false} AlwaysServes(events: seq<Event>)
    ensures Serves(Run(events))
  {
    hide Step;
    if events != [] {
      var n := |events| - 1;
      AlwaysServes(events[..n]);
      ServesNext(Run(events[..n]), events[n]);
    }
  }

  lemma ServesNext(s: State, e: Event)
    requires Serves(s)
    ensures Serves(Step(s, e))
  {
    hide Sum, Only, Account, CapacityOf, Remembered, Reserving, Remove;
  }

  // ---- The last event of a kind -------------------------------------------------------------------

  /** A request that is accounted for. */
  predicate Counts(e: Event) { e.Request? && e.enabled && e.profile.Some? && e.payload.Some? }

  /** The state in which it is. */
  function Synced(s: State, e: Event): State
    requires Counts(e)
  {
    Sync(s.(recovery := s.recovery.(pending := None), serving := s.serving.(profile := e.profile)), e.profile)
  }

  function Accounted(s: State, e: Event): Accounting
    requires Counts(e)
  {
    AccountFor(Synced(s, e), e.profile.value, e.payload.value, e.usage)
  }

  // ---- The allowance --------------------------------------------------------------------------------

  predicate RoomBeside(p: Profile, w: nat, completion: nat, overhead: nat, load: nat, x: nat) { Room(p, w, completion, overhead, load + x) }

  /** How much tools may reserve after an accounted request: exactly what there is room for beside
      it when it is admitted, and nothing otherwise. */
  lemma AllowanceMeans(p: Profile, payload: Payload, o: Option<Observation>, generation: nat, reserved: nat,
                       w: nat, completion: nat, overhead: nat, margin: nat, seen: nat)
    requires (WindowIs(p, w) || NoWindow(p)) && Keeps(p, completion, overhead) && MarginIs(payload, margin) && SeenIs(o, seen)
    ensures var a := Account(p, payload, o, generation, reserved);
      var n, load := CapacityOf(a).allowance, Max(payload.tokens, seen) + margin;
      if a.verdict != Admitted then n == Some(0)
      else n.Some? && n.value >= 0 && forall x: nat :: x <= n.value <==> RoomBeside(p, w, completion, overhead, load, x)
  {
    var a := Account(p, payload, o, generation, reserved);
    BudgetMeans(p, w, completion, overhead);
    MarginMeans(payload, margin);
    SeenMeans(o, seen);
    hide Room, Keeps, MarginIs, Means, MeansNothing, MarginOf, FinitePositive, BudgetOf, RelationOf;
    if a.verdict.Admitted? {
      assert a.Remaining() >= 0 && a.budget.window.Some?;
      var load := a.Load() + margin;
      assert forall x: nat :: RoomBeside(p, w, completion, overhead, load, x) <==> load + x <= a.budget.input;
    }
  }

  /** An observation counts as over exactly when it is not stale and there is no room for it. */
  lemma OverMeans(p: Profile, payload: Payload, o: Option<Observation>, generation: nat, reserved: nat,
                  w: nat, completion: nat, overhead: nat, seen: nat)
    requires (WindowIs(p, w) || NoWindow(p)) && Keeps(p, completion, overhead) && SeenIs(o, seen)
    ensures var r := Account(p, payload, o, generation, reserved).relation;
      if o.None? || MeansNothing(Some(o.value.tokens)) then r == NotAvailable
      else if Stale(p, o, generation) then r == Mismatch
      else if seen == 0 || (!NoWindow(p) && Room(p, w, completion, overhead, seen)) then r == Relation.Within
      else r == Over
  {
    BudgetMeans(p, w, completion, overhead);
    SeenMeans(o, seen);
    StaleMeans(p, o, generation, w);
    NoInput(p);
    hide Stale, Keeps, MarginOf, FinitePositive;
    hide Room, Means, MeansNothing, BudgetOf;
  }

  lemma NoInput(p: Profile)
    ensures BudgetOf(p).window.None? ==> BudgetOf(p).input == 0
  {
  }

  predicate EndsAllowance(s: State, e: Event) {
    TurnsTo(s, e) || e.SessionCompact? || (e.RecoveryFinished? && e.epoch == s.serving.epoch)
  }

  lemma AllowanceStep(s: State, e: Event)
    requires Serves(s)
    ensures Step(s, e).capacity.allowance ==
      if Counts(e) then CapacityOf(Accounted(s, e)).allowance else if EndsAllowance(s, e) then None else s.capacity.allowance
  {
    hide Sum, Only, Account, CapacityOf, Remembered, Reserving, Remove;
  }

  /** The allowance is that of the last request that was accounted for, unless a compaction, its
      end, or a change of what is served came after it. */
  lemma {:induction false} AllowanceExactly(events: seq<Event>, n: int)
    ensures Run(events).capacity.allowance == Some(n) <==>
      exists i :: 0 <= i < |events| && Counts(events[i]) && CapacityOf(Accounted(Run(events[..i]), events[i])).allowance == Some(n)
                  && forall j | i < j < |events| :: !Counts(events[j]) && !EndsAllowance(Run(events[..j]), events[j])
  {
    hide Step, Counts, Accounted, CapacityOf, EndsAllowance, Run;
    if events == [] {
      RunNone();
    } else {
      var last := |events| - 1;
      var front := events[..last];
      AllowanceExactly(front, n);
      AlwaysServes(front);
      RunLast(events);
      AllowanceStep(Run(front), events[last]);
      assert forall j | 0 <= j < last :: front[j] == events[j] && front[..j] == events[..j];
    }
  }

  lemma RunNone()
    ensures Run([]) == START
  {
  }

  lemma RunLast(events: seq<Event>)
    requires events != []
    ensures Run(events) == Step(Run(events[..|events| - 1]), events[|events| - 1])
  {
  }

  // ---- The refused request ----------------------------------------------------------------------

  /** Whether what is waiting for a compaction no longer is. */
  predicate EndsWaiting(s: State, e: Event) {
    (TurnsTo(s, e) && !(e.ModelSelect? && e.profile.None?)) || (e.Request? && e.enabled) || StartedBy(s, e).Some?
  }

  lemma WaitingStep(s: State, e: Event, key: RecoveryKey)
    requires Serves(s)
    ensures Step(s, e).recovery.pending == Some(key) <==> Refuses(s, e, key) || (s.recovery.pending == Some(key) && !EndsWaiting(s, e))
  {
    hide Sum, Only, Remembered, CapacityOf, Reserving, Remove, BudgetOf, MarginOf, RelationOf, VerdictOf, Observed;
  }

  /** A compaction is waited for exactly for the last request, if that was refused for its size and
      the session and what is served are still the same. */
  lemma {:induction false} WaitingExactly(events: seq<Event>, key: RecoveryKey)
    ensures Run(events).recovery.pending == Some(key) <==>
      exists i :: 0 <= i < |events| && Refuses(Run(events[..i]), events[i], key)
                  && forall j | i < j < |events| :: !EndsWaiting(Run(events[..j]), events[j])
  {
    hide Step, Refuses, EndsWaiting, Run;
    if events == [] {
      RunNone();
    } else {
      var last := |events| - 1;
      var front := events[..last];
      WaitingExactly(front, key);
      AlwaysServes(front);
      RunLast(events);
      WaitingStep(Run(front), events[last], key);
      assert forall j | 0 <= j < last :: front[j] == events[j] && front[..j] == events[..j];
    }
  }

  /** Settling starts a compaction exactly when one is waited for under the epoch still served, it
      is the first for that request and the session has started fewer than 32, and the host can
      compact and gives the lease. */
  lemma StartsExactly(events: seq<Event>, e: Event, key: RecoveryKey)
    ensures StartedBy(Run(events), e) == Some(key) <==>
      && e.AgentSettled? && e.enabled && e.canCompact && e.leased
      && Run(events).recovery.pending == Some(key) && Run(events).serving.epoch == Some(key.epoch)
      && key !in Starts(events) && |Starts(events)| < 32
  {
    RecoveriesAreBounded(events);
    AsManyMembers(Starts(events), Run(events).recovery.attempted);
    hide Run, Starts;
  }

  // ---- What was seen ----------------------------------------------------------------------------

  /** How many compactions the session has seen. */
  function Compactions(events: seq<Event>): nat {
    if events == [] || events[|events| - 1].SessionStart? then 0
    else Compactions(events[..|events| - 1]) + if events[|events| - 1].SessionCompact? then 1 else 0
  }

  lemma {:induction false} GenerationCounts(events: seq<Event>)
    ensures Run(events).seen.generation == Compactions(events)
  {
    hide Step;
    if events != [] {
      var n := |events| - 1;
      GenerationCounts(events[..n]);
      GenerationStep(Run(events[..n]), events[n]);
    }
  }

  lemma GenerationStep(s: State, e: Event)
    ensures Step(s, e).seen.generation ==
      if e.SessionStart? then 0 else s.seen.generation + if e.SessionCompact? then 1 else 0
  {
    hide Sum, Only, Account, CapacityOf, Reserving, Remove;
  }

  /** A request that measured how full the context is. */
  predicate Measures(e: Event) { Counts(e) && e.usage.Some? && Sensible(e.usage.value.tokens) }

  /** What is remembered of a measurement that is over: its whole tokens, under the epoch and the
      compaction it was made in, with the window it named or the one of the profile. */
  ghost predicate OverflowOf(s: State, e: Event, o: Observation) {
    && Measures(e) && Accounted(s, e).relation.Over?
    && (exists whole :: Means(Some(e.usage.value.tokens), whole) && o.tokens == Finite(whole as real))
    && o.epoch == e.profile.value.epoch && o.generation == s.seen.generation
    && (exists w: nat :: WindowOf(e.usage.value.window, e.profile.value, w) && o.window == Some(Finite(w as real)))
  }

  /** A new measurement that is over or within replaces what was remembered; so does another
      serving epoch. */
  predicate EndsOverflow(s: State, e: Event) {
    || (Measures(e) && (Accounted(s, e).relation.Over? || Accounted(s, e).relation.Within?))
    || (e.SessionStart? && e.profile.Some?) || (TurnsTo(s, e) && !e.SessionStart? && e.profile.Some?)
  }

  /** An overflow seen before a compaction may stop a request but never lets one through: while
      nothing newer has been measured under the same epoch, no request is admitted. */
  lemma OldOverflowAdmitsNothing(events: seq<Event>, e: Event)
    requires var s := Run(events);
      && Counts(e) && !Measures(e) && !TurnsTo(s, e)
      && s.seen.overflow.Some? && s.seen.overflow.value.generation != s.seen.generation
    ensures var a := Accounted(Run(events), e);
      && (a.verdict == WindowUnknown || a.verdict == PayloadUnavailable || a.verdict == StaleUsage)
      && CapacityOf(a).allowance == Some(0)
  {
    var s := Run(events);
    var o := s.seen.overflow.value;
    OverflowExactly(events, o);
    var i :| 0 <= i < |events| && OverflowOf(Run(events[..i]), events[i], o);
    OverflowCounts(Run(events[..i]), events[i], o);
    SyncSame(s, e);
    JudgedBy(Synced(s, e), e, o);
  }

  lemma OverflowCounts(s: State, e: Event, o: Observation)
    requires OverflowOf(s, e, o)
    ensures FinitePositive(o.tokens).Some?
  {
    MeasuredIs(s, e);
    var whole :| Means(Some(e.usage.value.tokens), whole) && o.tokens == Finite(whole as real);
    FinitePositiveMeans(Some(e.usage.value.tokens));
    hide Accounted, BudgetOf;
    MeansOnce(Some(e.usage.value.tokens), whole, FinitePositive(e.usage.value.tokens).value);
  }

  lemma SyncSame(s: State, e: Event)
    requires Counts(e) && !TurnsTo(s, e)
    ensures Synced(s, e).seen == s.seen
  {
  }

  lemma JudgedBy(t: State, e: Event, o: Observation)
    requires Counts(e) && !Measures(e) && t.seen.overflow == Some(o)
    requires FinitePositive(o.tokens).Some? && o.generation != t.seen.generation
    ensures var a := AccountFor(t, e.profile.value, e.payload.value, e.usage);
      && (a.verdict == WindowUnknown || a.verdict == PayloadUnavailable || a.verdict == StaleUsage)
      && CapacityOf(a).allowance == Some(0)
  {
    hide Sum, BudgetOf, MarginOf, FinitePositive;
  }

  lemma MeasuredIs(s: State, e: Event)
    requires Measures(e)
    ensures var a, o := Accounted(s, e), Some(Observation(e.usage.value.tokens, e.usage.value.window, e.profile.value.epoch, s.seen.generation));
      && a.observed == FinitePositive(e.usage.value.tokens) && a.observedWindow == FinitePositiveOf(e.usage.value.window)
      && a.budget == BudgetOf(e.profile.value) && a.relation == RelationOf(a.budget, e.profile.value, o, s.seen.generation)
  {
    hide Sum, Only, MarginOf, BudgetOf, RelationOf, VerdictOf, FinitePositive, FinitePositiveOf;
  }

  lemma OverflowStep(s: State, e: Event, o: Observation)
    requires Serves(s)
    ensures Step(s, e).seen.overflow == Some(o) <==> OverflowOf(s, e, o) || (s.seen.overflow == Some(o) && !EndsOverflow(s, e))
  {
    hide Sum, Only, Account, AccountFor, CapacityOf, Reserving, Remove, Remembered, OverflowOf;
    if Counts(e) {
      assert Synced(s, e).seen.generation == s.seen.generation;
      RememberedIs(s, e, o);
    } else {
      NotMeasured(s, e, o);
    }
  }

  lemma NotMeasured(s: State, e: Event, o: Observation)
    requires !Counts(e)
    ensures !OverflowOf(s, e, o)
  {
  }

  lemma RememberedIs(s: State, e: Event, o: Observation)
    requires Counts(e)
    ensures var t := Synced(s, e);
      var after := Remembered(t, e.profile.value, Accounted(s, e), e.usage).overflow;
      if Measures(e) && Accounted(s, e).relation.Over? then after == Some(o) <==> OverflowOf(s, e, o)
      else !OverflowOf(s, e, o) && after == if Measures(e) && Accounted(s, e).relation.Within? then None else t.seen.overflow
  {
    hide Sync, Account, AccountFor, Means, MeansNothing;
    if Measures(e) {
      SyncedGeneration(s, e);
      MeasuredIs(s, e);
      var a, u, p := Accounted(s, e), e.usage.value, e.profile.value;
      FinitePositiveMeans(Some(u.tokens));
      if a.relation.Over? {
        var w := if a.observedWindow.Some? then a.observedWindow.value else if a.budget.window.Some? then a.budget.window.value else 0;
        NamedWindow(u.window, p, w);
        assert a.observed.Some? && Means(Some(u.tokens), a.observed.value);
        hide Accounted, FinitePositive, FinitePositiveOf, BudgetOf, WindowIs, NoWindow, WindowOf;
        assert WindowOf(u.window, p, w);
        if OverflowOf(s, e, o) {
          var whole: nat :| Means(Some(u.tokens), whole) && o.tokens == Finite(whole as real);
          MeansOnce(Some(u.tokens), whole, a.observed.value);
        }
      }
    }
  }

  /** The window that goes with a measurement: the one it named, else the one of the profile. */
  predicate WindowOf(n: Option<Num>, p: Profile, w: nat) {
    if !MeansNothing(n) then Means(n, w) else if !NoWindow(p) then WindowIs(p, w) else w == 0
  }

  lemma NamedWindow(n: Option<Num>, p: Profile, w: nat)
    requires var seen, own := FinitePositiveOf(n), BudgetOf(p).window;
      w == if seen.Some? then seen.value else if own.Some? then own.value else 0
    ensures forall v: nat :: WindowOf(n, p, v) <==> v == w
  {
    FinitePositiveMeans(n);
    FinitePositiveMeans(p.epoch.served);
    FinitePositiveMeans(p.epoch.declared);
    hide FinitePositiveOf;
    forall v: nat | WindowOf(n, p, v) ensures v == w {
      if !MeansNothing(n) {
        MeansOnce(n, v, w);
      } else if !MeansNothing(p.epoch.served) {
        MeansOnce(p.epoch.served, v, w);
      } else if !MeansNothing(p.epoch.declared) {
        MeansOnce(p.epoch.declared, v, w);
      }
    }
  }

  lemma SyncedGeneration(s: State, e: Event)
    requires Counts(e)
    ensures Synced(s, e).seen.generation == s.seen.generation
  {
  }

  /** The overflow remembered is the last measurement that was over, if no later one was within and
      nothing else has been served since. */
  lemma {:induction false} OverflowExactly(events: seq<Event>, o: Observation)
    ensures Run(events).seen.overflow == Some(o) <==>
      exists i :: 0 <= i < |events| && OverflowOf(Run(events[..i]), events[i], o)
                  && forall j | i < j < |events| :: !EndsOverflow(Run(events[..j]), events[j])
  {
    hide Step, OverflowOf, EndsOverflow, Run;
    if events == [] {
      RunNone();
    } else {
      var last := |events| - 1;
      var front := events[..last];
      OverflowExactly(front, o);
      AlwaysServes(front);
      RunLast(events);
      OverflowStep(Run(front), events[last], o);
      assert forall j | 0 <= j < last :: front[j] == events[j] && front[..j] == events[..j];
    }
  }
}
