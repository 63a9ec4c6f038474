/**
 Profiles of a serving model: the context window it is known to have, or a fallback, and
 the budgets computed from it. The accounting computes its own input limit from the same
 profile; the two agree when a window is known.
 */
module ContextProfile {
  import opened Basics
  import opened Utf
  import opened Reservations
  import opened Admission

  const FALLBACK_WINDOW: nat := 8192
  const DEFAULT_OVERHEAD: nat := 1024

  function AsNum(n: nat): Num { Finite(n as real) }

  /** A window of at least one token, rounded down. */
  function Window(n: Option<Num>): (r: Option<nat>)
    ensures r.Some? ==> n.Some? && FinitePositive(n.value) == r && r.value >= 1
  {
    if n.Some? && n.value.Finite? && n.value.value >= 1.0 then Some(n.value.value.Floor) else None
  }

  /** Fifteen percent of the window, between 512 and 8192 and never more than the window. */
  function OutputReserveFor(window: Num): (r: nat) {
    match Window(Some(window))
    case None => 0
    case Some(w) => Min(w, Min(8192, Max(512, (w * 15 + 99) / 100)))
  }

  /** What is set aside for overhead; nothing for a number that makes no sense. */
  function Overhead(n: Num): nat { if n.Finite? then Max(0, n.value.Floor) else 0 }

  function SafeInputBudget(window: Num, overhead: Num): Option<nat> {
    match Window(Some(window))
    case None => None
    case Some(w) => Some(Min(w, Max(0, w - OutputReserveFor(AsNum(w)) - Overhead(overhead))))
  }

  function Numbered(n: Option<nat>): Option<Num> { if n.Some? then Some(AsNum(n.value)) else None }

  /** What is known of a model when its profile is built. */
  datatype Metadata = Metadata(provider: Text, model: Text, endpoint: Text, contextWindow: Option<Num>)

  function WindowFor(m: Metadata, served: Option<Num>): nat {
    if Window(served).Some? then Window(served).value
    else if Window(m.contextWindow).Some? then Window(m.contextWindow).value
    else FALLBACK_WINDOW
  }

  function ContextProfileFor(m: Metadata, served: Option<Num>, overheadTokens: Option<Num>): Profile {
    var window := AsNum(WindowFor(m, served));
    var overhead := if overheadTokens.Some? && overheadTokens.value.Finite? then Overhead(overheadTokens.value) else DEFAULT_OVERHEAD;
    Profile(
      Epoch(m.provider, m.model, m.endpoint, Numbered(Window(m.contextWindow)), Numbered(Window(served))),
      SafeInputBudget(window, AsNum(overhead)), AsNum(OutputReserveFor(window)), AsNum(overhead))
  }

  function WithServingWindow(p: Profile, served: Num): Profile {
    match Window(Some(served))
    case None => p
    case Some(w) =>
      p.(
        epoch := p.epoch.(served := Some(AsNum(w))),
        safeInput := SafeInputBudget(AsNum(w), p.overhead),
        outputReserve := AsNum(OutputReserveFor(AsNum(w))))
  }

  lemma WindowOfWhole(n: nat)
    ensures AsNum(n).value.Floor == n && Window(Some(AsNum(n))) == if n >= 1 then Some(n) else None
    ensures FinitePositive(AsNum(n)) == if n >= 1 then Some(n) else None
  {
    assert (n as real).Floor == n;
  }

  lemma ReserveWithin(w: nat, overhead: Num)
    requires w >= 1
    ensures 1 <= OutputReserveFor(AsNum(w)) <= w
    ensures SafeInputBudget(AsNum(w), overhead) == Some(Max(0, w - OutputReserveFor(AsNum(w)) - Overhead(overhead)))
  {
    WindowOfWhole(w);
  }

  /** The budgets of any profile whose numbers were computed from one window. */
  lemma BudgetFromWindow(p: Profile, w: nat)
    requires w >= 1 && p.safeInput == SafeInputBudget(AsNum(w), p.overhead) && p.outputReserve == AsNum(OutputReserveFor(AsNum(w)))
    ensures var b := BudgetOf(p);
      && b.completion == OutputReserveFor(AsNum(w)) <= w && b.overhead == Overhead(p.overhead)
      && p.safeInput == Some(Max(0, w - b.completion - b.overhead))
      && (b.window == Some(w) ==> b.input == p.safeInput.value)
      && (b.window == None ==> b.input == 0)
  {
    hide OutputReserveFor, SafeInputBudget;
    ReserveWithin(w, p.overhead);
    WindowOfWhole(OutputReserveFor(AsNum(w)));
  }

  /** The profile's own input limit and the one accounted with are the same exactly when a
      window is known, served or declared, or the overhead leaves nothing of the fallback. */
  lemma LimitsAgreeExactly(m: Metadata, served: Option<Num>, overheadTokens: Option<Num>)
    ensures var p := ContextProfileFor(m, served, overheadTokens);
      var b := BudgetOf(p);
      && p.safeInput.Some? && b.completion <= WindowFor(m, served)
      && (p.safeInput.value == b.input <==>
           Window(served).Some? || Window(m.contextWindow).Some? || b.overhead >= FALLBACK_WINDOW - 1229)
      && (Window(served).None? && Window(m.contextWindow).None? ==>
           b.input == 0 && p.safeInput.value == Max(0, FALLBACK_WINDOW - 1229 - b.overhead))
  {
    var p, w := ContextProfileFor(m, served, overheadTokens), WindowFor(m, served);
    KnownWindow(m, served, overheadTokens);
    BudgetFromWindow(p, w);
    WindowOfWhole(FALLBACK_WINDOW);
  }

  lemma KnownWindow(m: Metadata, served: Option<Num>, overheadTokens: Option<Num>)
    ensures var b := BudgetOf(ContextProfileFor(m, served, overheadTokens));
      b.window == if Window(served).Some? || Window(m.contextWindow).Some? then Some(WindowFor(m, served)) else None
  {
    if Window(served).Some? { WindowOfWhole(Window(served).value); }
    if Window(m.contextWindow).Some? { WindowOfWhole(Window(m.contextWindow).value); }
  }

  /** A profile given the window a probe measured accounts with that window, whatever it was
      built from, and its two limits agree. */
  lemma ServedLimitsAgree(p: Profile, served: Num)
    requires Window(Some(served)).Some?
    ensures var q := WithServingWindow(p, served);
      var b := BudgetOf(q);
      && b.window == FinitePositive(served) && b.completion <= b.window.value
      && q.safeInput == Some(b.input) && b.input == Max(0, b.window.value - b.completion - b.overhead)
      && b.overhead == BudgetOf(p).overhead
  {
    var w := Window(Some(served)).value;
    WindowOfWhole(w);
    BudgetFromWindow(WithServingWindow(p, served), w);
  }

  /** A model with a declared window of 1000: its reserve of 512 and the usual overhead of 1024
      leave nothing for input, yet an empty payload that was counted exactly is admitted. */
  lemma AdmittedWithoutFitting(model: Text)
    ensures var p := ContextProfileFor(Metadata(model, model, model, Some(AsNum(1000))), None, None);
      var a := Account(p, Payload(0, Exact, []), None, 0, 0);
      a.verdict.Admitted? && a.budget == Budget(Some(1000), 512, 1024, 0) && !Fits(a, 0)
  {
    hide Window, OutputReserveFor, SafeInputBudget, FinitePositive, FinitePositiveOf, Overhead;
    var m := Metadata(model, model, model, Some(AsNum(1000)));
    var p := ContextProfileFor(m, None, None);
    WindowOfWhole(1000);
    SmallReserve();
    KnownWindow(m, None, None);
    NoWindow();
    BudgetFromWindow(p, 1000);
  }

  lemma SmallReserve()
    ensures OutputReserveFor(AsNum(1000)) == 512 && Overhead(AsNum(DEFAULT_OVERHEAD)) == 1024
  {
    WindowOfWhole(1000);
    WindowOfWhole(DEFAULT_OVERHEAD);
  }

  lemma NoWindow()
    ensures Window(None) == None
  {
  }
}
