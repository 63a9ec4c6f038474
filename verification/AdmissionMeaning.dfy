/**
 Which requests are admitted, told from the numbers of the profile, the payload and the last
 observation, without the accounting record in between.
 */
module AdmissionMeaning {
  import opened Basics
  import opened Utf
  import opened Reservations
  import opened Admission

  /** A number that means something: finite and above zero; its whole part counts. */
  predicate Means(n: Option<Num>, whole: nat) {
    n.Some? && n.value.Finite? && n.value.value > 0.0 && whole as real <= n.value.value < whole as real + 1.0
  }

  predicate MeansNothing(n: Option<Num>) { n.None? || !n.value.Finite? || n.value.value <= 0.0 }

  /** The window is the served one if that means something, else the declared one. */
  predicate WindowIs(p: Profile, w: nat) {
    Means(p.epoch.served, w) || (MeansNothing(p.epoch.served) && Means(p.epoch.declared, w))
  }

  predicate NoWindow(p: Profile) { MeansNothing(p.epoch.served) && MeansNothing(p.epoch.declared) }

  /** What the profile keeps for the answer and for overhead. */
  predicate Keeps(p: Profile, completion: nat, overhead: nat) {
    && (Means(Some(p.outputReserve), completion) || (MeansNothing(Some(p.outputReserve)) && completion == 0))
    && (Means(Some(p.overhead), overhead) || (MeansNothing(Some(p.overhead)) && overhead == 0))
  }

  /** Twelve percent of an estimate, rounded up, and at least 32; nothing beside an exact count. */
  predicate MarginIs(payload: Payload, m: nat) {
    if payload.tokenization == Estimated
    then m >= 32 && 100 * m >= 12 * payload.tokens && (m > 32 ==> 100 * (m - 1) < 12 * payload.tokens)
    else m == 0
  }

  /** The context size that was seen, 0 when none was. */
  predicate SeenIs(o: Option<Observation>, seen: nat) {
    if o.None? || MeansNothing(Some(o.value.tokens)) then seen == 0 else Means(Some(o.value.tokens), seen)
  }

  /** The observation is of another epoch, from before a compaction, or of another window. */
  ghost predicate Stale(p: Profile, o: Option<Observation>, generation: nat) {
    && o.Some? && !MeansNothing(Some(o.value.tokens))
    && (o.value.epoch != p.epoch || o.value.generation != generation
        || (!MeansNothing(o.value.window) && !NoWindow(p) && !exists w: nat :: Means(o.value.window, w) && WindowIs(p, w)))
  }

  /** There is room for so many tokens of input: within the safe input, and beside what is kept. */
  predicate Room(p: Profile, w: nat, completion: nat, overhead: nat, tokens: nat) {
    tokens == 0 || (p.safeInput.Some? && tokens <= p.safeInput.value && tokens + completion + overhead <= w)
  }

  lemma MeansOnce(n: Option<Num>, a: nat, b: nat)
    requires Means(n, a) && Means(n, b)
    ensures a == b
  {
  }

  lemma FinitePositiveMeans(n: Option<Num>)
    ensures FinitePositiveOf(n).Some? <==> !MeansNothing(n)
    ensures FinitePositiveOf(n).Some? ==> Means(n, FinitePositiveOf(n).value)
  {
  }

  lemma BudgetMeans(p: Profile, w: nat, completion: nat, overhead: nat)
    requires (WindowIs(p, w) || NoWindow(p)) && Keeps(p, completion, overhead)
    ensures var b := BudgetOf(p);
      && (b.window.Some? <==> !NoWindow(p)) && (b.window.Some? ==> b.window.value == w)
      && b.completion == completion && b.overhead == overhead
      && forall x: nat :: WindowIs(p, w) ==> (x <= b.input <==> Room(p, w, completion, overhead, x))
  {
    FinitePositiveMeans(p.epoch.served);
    FinitePositiveMeans(p.epoch.declared);
    FinitePositiveMeans(Some(p.outputReserve));
    OverheadMeans(p.overhead, overhead);
    hide FinitePositiveOf;
    if !MeansNothing(Some(p.outputReserve)) { MeansOnce(Some(p.outputReserve), FinitePositiveOf(Some(p.outputReserve)).value, completion); }
    if !MeansNothing(p.epoch.served) {
      if WindowIs(p, w) { MeansOnce(p.epoch.served, FinitePositiveOf(p.epoch.served).value, w); }
    } else if !MeansNothing(p.epoch.declared) {
      if WindowIs(p, w) { MeansOnce(p.epoch.declared, FinitePositiveOf(p.epoch.declared).value, w); }
    }
  }

  lemma OverheadMeans(n: Num, overhead: nat)
    requires Means(Some(n), overhead) || (MeansNothing(Some(n)) && overhead == 0)
    ensures overhead == if n.Finite? && n.value >= 0.0 then n.value.Floor else 0
  {
  }

  lemma MarginMeans(payload: Payload, m: nat)
    requires MarginIs(payload, m)
    ensures MarginOf(payload) == m
  {
  }

  lemma SeenMeans(o: Option<Observation>, seen: nat)
    requires SeenIs(o, seen)
    ensures var t := if o.None? then None else FinitePositive(o.value.tokens);
      (t.None? <==> o.None? || MeansNothing(Some(o.value.tokens))) && (t.Some? ==> t.value == seen) && (t.None? ==> seen == 0)
  {
    if o.Some? {
      FinitePositiveMeans(Some(o.value.tokens));
      if !MeansNothing(Some(o.value.tokens)) { MeansOnce(Some(o.value.tokens), FinitePositive(o.value.tokens).value, seen); }
    }
  }

  lemma StaleMeans(p: Profile, o: Option<Observation>, generation: nat, w: nat)
    requires WindowIs(p, w) || NoWindow(p)
    ensures RelationOf(BudgetOf(p), p, o, generation).Mismatch? <==> Stale(p, o, generation)
  {
    if o.Some? {
      FinitePositiveMeans(Some(o.value.tokens));
      FinitePositiveMeans(o.value.window);
      FinitePositiveMeans(p.epoch.served);
      FinitePositiveMeans(p.epoch.declared);
      var seen, b := FinitePositiveOf(o.value.window), BudgetOf(p);
      hide FinitePositiveOf, FinitePositive;
      forall v: nat | Means(o.value.window, v) && WindowIs(p, v) ensures seen == Some(v) && b.window == Some(v) {
        MeansOnce(o.value.window, seen.value, v);
        if MeansNothing(p.epoch.served) {
          MeansOnce(p.epoch.declared, b.window.value, v);
        } else {
          MeansOnce(p.epoch.served, b.window.value, v);
        }
      }
      if seen.Some? && seen == b.window { assert Means(o.value.window, seen.value) && WindowIs(p, seen.value); }
    }
  }

  /** A request is admitted exactly when a window is known, the request was counted, what was seen
      is not stale, and there is room for the greater of payload and observation with the margin and
      all reservations; otherwise the first of these that fails is the reason. A request is said
      to exceed by the observation alone when its own numbers fit the window. */
  lemma VerdictExactly(p: Profile, payload: Payload, o: Option<Observation>, generation: nat, reserved: nat,
                       w: nat, completion: nat, overhead: nat, margin: nat, seen: nat)
    requires (WindowIs(p, w) || NoWindow(p)) && Keeps(p, completion, overhead) && MarginIs(payload, margin) && SeenIs(o, seen)
    ensures var v := Account(p, payload, o, generation, reserved).verdict;
      var load := Max(payload.tokens, seen);
      if NoWindow(p) then v == WindowUnknown
      else if payload.tokenization == Uncounted then v == PayloadUnavailable
      else if Stale(p, o, generation) then v == StaleUsage
      else if Room(p, w, completion, overhead, load + margin + reserved) then v == Admitted
      else if !Room(p, w, completion, overhead, seen) && payload.tokens + overhead + margin + reserved + completion <= w then v == ObservedOver
      else v == AggregateOver
  {
    BudgetMeans(p, w, completion, overhead);
    MarginMeans(payload, margin);
    SeenMeans(o, seen);
    StaleMeans(p, o, generation, w);
    hide Room, Stale, Keeps, MarginIs, Means, MeansNothing, MarginOf, FinitePositive;
    if !NoWindow(p) {
      var b := BudgetOf(p);
      assert Room(p, w, completion, overhead, Max(payload.tokens, seen) + margin + reserved) <==> Max(payload.tokens, seen) + margin + reserved <= b.input;
      assert Room(p, w, completion, overhead, seen) <==> seen <= b.input;
    }
    hide BudgetOf;
  }
}
