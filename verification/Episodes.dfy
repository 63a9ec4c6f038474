/**
 Failure episodes: repeated failures of one kind on one target, from the first
 failure to the event that closes them. Here an episode log has no index and no
 counters; the tracker class keeps those and is proved to agree with this log.
 What a call, a failure or a success is about (its family, target, plan item,
 class and verifier) is taken as given.
 */
module Episodes {
  import opened Basics
  import opened Utf

  datatype FailureClass =
    | SchemaValidation | PolicyRejection | Permission | NotFound | CommandMissing | Timeout
    | Provider | VerificationAssertion | CompileOrLint | EditConflict | Unknown

  datatype RecoveryKind = ToolSuccess | ExactGate | ProviderFirstToken | ManualResume

  datatype Status = Active | Recovered | Settled | Abandoned

  datatype Scope = ExactProjectGate | SameVerifier | SameTarget | NoScope

  /** Whether the project's gate is unknown, absent or known. */
  datatype Gate = GateUnknown | NoGate | GateKnown

  datatype Key = Key(class_: FailureClass, family: Text, target: Text, item: Text)

  datatype Call = Call(family: Text, target: Text, item: Text)

  datatype Failure = Failure(key: Key, verifier: Option<Text>, gate: Gate, variant: Text)

  datatype Success = Success(family: Text, target: Text, verifier: Option<Text>, exact: bool)

  /** Failures in the episode; calls since it was exposed, and those on its own target. */
  datatype Tally = Tally(count: nat, after: nat, correlated: nat)

  datatype Evidence = Evidence(scope: Scope, verifier: Option<Text>)

  datatype Episode = Episode(
    key: Key, tally: Tally, variants: seq<Text>, evidence: Evidence, status: Status, recovery: Option<RecoveryKind>)

  /** `semantic` counts calls made while an episode was exposed, `correlated` those on its target. */
  datatype Log = Log(active: seq<Episode>, closed: seq<Episode>, semantic: nat, correlated: nat)

  /** What closes episodes. */
  datatype Closing =
    | Recovering(success: Success, kind: RecoveryKind)
    | Settling
    | Abandoning(family: Text, target: Text)
    | Clearing

  datatype Event = Reset | ToolCall(call: Call) | Failed(failure: Failure) | Closes(closing: Closing)

  const MAX_COMPLETED: nat := 64
  const MAX_CALL_VARIANTS: nat := 16

  const EMPTY: Log := Log([], [], 0, 0)

  // ---- Calls ---------------------------------------------------------------------------

  predicate Exposed(e: Episode) { e.tally.count >= 2 }

  predicate OnTarget(e: Episode, c: Call) {
    e.key.family == c.family && e.key.target == c.target && e.key.item == c.item
  }

  function Noted(e: Episode, c: Call): Episode {
    if !Exposed(e) then e
    else e.(tally := Tally(e.tally.count, e.tally.after + 1, e.tally.correlated + if OnTarget(e, c) then 1 else 0))
  }

  function AllNoted(es: seq<Episode>, c: Call): (r: seq<Episode>)
    ensures |r| == |es|
    ensures forall i | 0 <= i < |es| :: r[i] == Noted(es[i], c)
  {
    seq(|es|, i requires 0 <= i < |es| => Noted(es[i], c))
  }

  predicate AnyExposed(es: seq<Episode>) { exists e | e in es :: Exposed(e) }

  predicate AnyOnTarget(es: seq<Episode>, c: Call) { exists e | e in es :: Exposed(e) && OnTarget(e, c) }

  function NoteCall(s: Log, c: Call): Log {
    if !AnyExposed(s.active) then s
    else Log(AllNoted(s.active, c), s.closed, s.semantic + 1, s.correlated + if AnyOnTarget(s.active, c) then 1 else 0)
  }

  // ---- Failures -------------------------------------------------------------------------

  function ScopeOf(f: Failure): Scope {
    if f.verifier.Some? then (if f.gate.NoGate? then SameVerifier else ExactProjectGate)
    else if f.key.class_.VerificationAssertion? || f.key.class_.CompileOrLint? then SameTarget
    else NoScope
  }

  function Opened(f: Failure): Episode {
    Episode(f.key, Tally(0, 0, 0), [], Evidence(ScopeOf(f), f.verifier), Active, None)
  }

  function AddVariant(vs: seq<Text>, v: Text): seq<Text> {
    if v !in vs && |vs| < MAX_CALL_VARIANTS then vs + [v] else vs
  }

  function Recorded(e: Episode, f: Failure): Episode {
    Episode(
      e.key,
      Tally(e.tally.count + 1, e.tally.after, e.tally.correlated),
      AddVariant(e.variants, f.variant),
      if f.verifier.Some? then Evidence(ScopeOf(f), f.verifier) else e.evidence,
      e.status,
      e.recovery)
  }

  /** Where the episode with the key is; the length when there is none. */
  function Find(es: seq<Episode>, k: Key): (n: nat)
    ensures n <= |es|
    ensures n < |es| ==> es[n].key == k
    ensures forall e | e in es[..n] :: e.key != k
  {
    if es == [] then 0
    else
      var n := Find(es[..|es| - 1], k);
      if n < |es| - 1 then assert es[..n] == es[..|es| - 1][..n]; n
      else
        assert es[..n] == es[..|es| - 1][..n];
        if es[n].key == k then n else assert es[..n + 1] == es[..n] + [es[n]]; n + 1
  }

  function Observe(s: Log, f: Failure): Log {
    var n := Find(s.active, f.key);
    if n < |s.active| then s.(active := s.active[n := Recorded(s.active[n], f)])
    else s.(active := s.active + [Recorded(Opened(f), f)])
  }

  // ---- Closings --------------------------------------------------------------------------

  predicate RecoversDirectly(class_: FailureClass) {
    class_ in {SchemaValidation, PolicyRejection, Permission, NotFound, CommandMissing, EditConflict}
  }

  predicate ByExactGate(e: Episode, ok: Success) {
    ok.exact && (e.evidence.scope.ExactProjectGate? || e.key.class_.Unknown?)
  }

  predicate BySuccess(e: Episode, ok: Success, kind: RecoveryKind) {
    || ByExactGate(e, ok)
    || (e.evidence.scope.SameVerifier? && ok.verifier.Some? && ok.verifier == e.evidence.verifier)
    || (kind.ProviderFirstToken? && e.key.class_.Provider?)
    || (e.key.family == ok.family && e.key.target == ok.target
        && (e.evidence.scope.SameTarget? || RecoversDirectly(e.key.class_)))
  }

  predicate IsClosedBy(c: Closing, e: Episode) {
    match c
    case Recovering(ok, kind) => BySuccess(e, ok, kind)
    case Settling => true
    case Abandoning(family, target) => e.key.family == family && e.key.target == target
    case Clearing => true
  }

  function ClosedBy(c: Closing, e: Episode): Episode {
    match c
    case Recovering(ok, kind) => e.(status := Recovered, recovery := Some(if ByExactGate(e, ok) then ExactGate else kind))
    case Settling => e.(status := Settled)
    case Abandoning(_, _) => e.(status := Abandoned, recovery := None)
    case Clearing => e.(status := Recovered, recovery := Some(ManualResume))
  }

  /** The episodes that stay active. */
  function Staying(c: Closing, es: seq<Episode>): seq<Episode> {
    if es == [] then []
    else
      var e := es[|es| - 1];
      Staying(c, es[..|es| - 1]) + if IsClosedBy(c, e) then [] else [e]
  }

  /** The closed copies of the others, in order. */
  function Leaving(c: Closing, es: seq<Episode>): seq<Episode> {
    if es == [] then []
    else
      var e := es[|es| - 1];
      Leaving(c, es[..|es| - 1]) + if IsClosedBy(c, e) then [ClosedBy(c, e)] else []
  }

  function Close(s: Log, c: Closing): Log {
    s.(active := Staying(c, s.active), closed := s.closed + Leaving(c, s.active))
  }

  function Step(s: Log, event: Event): Log {
    match event
    case Reset => EMPTY
    case ToolCall(c) => NoteCall(s, c)
    case Failed(f) => Observe(s, f)
    case Closes(c) => Close(s, c)
  }

  function Run(events: seq<Event>): Log {
    if events == [] then EMPTY else Step(Run(events[..|events| - 1]), events[|events| - 1])
  }

  // ---- What the counters are about -------------------------------------------------------

  function Count(e: Episode): nat { e.tally.count }

  function After(e: Episode): nat { e.tally.after }

  function Correlated(e: Episode): nat { e.tally.correlated }

  function SettledOnce(e: Episode): nat { if e.status.Settled? then 1 else 0 }

  function Sum(es: seq<Episode>, measure: Episode -> nat): nat {
    if es == [] then 0 else Sum(es[..|es| - 1], measure) + measure(es[|es| - 1])
  }

  /** Over active and closed episodes alike. */
  function Total(s: Log, measure: Episode -> nat): nat { Sum(s.active, measure) + Sum(s.closed, measure) }

  function Longest(es: seq<Episode>): nat {
    if es == [] then 0 else Max(Longest(es[..|es| - 1]), Count(es[|es| - 1]))
  }

  lemma SumSnoc(es: seq<Episode>, e: Episode, measure: Episode -> nat)
    ensures Sum(es + [e], measure) == Sum(es, measure) + measure(e)
    ensures Longest(es + [e]) == Max(Longest(es), Count(e))
  {
    assert (es + [e])[..|es|] == es;
  }

  lemma {:induction false} SumConcat(a: seq<Episode>, b: seq<Episode>, measure: Episode -> nat)
    ensures Sum(a + b, measure) == Sum(a, measure) + Sum(b, measure)
    ensures Longest(a + b) == Max(Longest(a), Longest(b))
  {
    if b == [] {
      assert a + b == a;
    } else {
      var n := |b| - 1;
      assert (a + b)[..|a| + n] == a + b[..n];
      SumConcat(a, b[..n], measure);
    }
  }

  lemma SumUpdate(es: seq<Episode>, i: nat, e: Episode, measure: Episode -> nat)
    requires i < |es|
    ensures Sum(es[i := e], measure) == Sum(es, measure) - measure(es[i]) + measure(e)
    ensures Count(e) >= Count(es[i]) ==> Longest(es[i := e]) == Max(Longest(es), Count(e))
  {
    var a, b := es[..i], es[i + 1..];
    assert es == a + [es[i]] + b;
    assert es[i := e] == a + [e] + b;
    SumSnoc(a, e, measure);
    SumSnoc(a, es[i], measure);
    SumConcat(a + [e], b, measure);
    SumConcat(a + [es[i]], b, measure);
  }

  /** Closing moves episodes from one list to the other and loses none. */
  lemma {:induction false} CloseConserves(c: Closing, es: seq<Episode>, measure: Episode -> nat)
    requires forall e :: measure(ClosedBy(c, e)) == measure(e)
    ensures Sum(Staying(c, es), measure) + Sum(Leaving(c, es), measure) == Sum(es, measure)
  {
    if es != [] {
      var n := |es| - 1;
      CloseConserves(c, es[..n], measure);
      hide Sum;
      SumSplit(es, measure);
      if IsClosedBy(c, es[n]) {
        SumSnoc(Leaving(c, es[..n]), ClosedBy(c, es[n]), measure);
        assert Staying(c, es) == Staying(c, es[..n]);
      } else {
        SumSnoc(Staying(c, es[..n]), es[n], measure);
        assert Leaving(c, es) == Leaving(c, es[..n]);
      }
    } else {
      assert Staying(c, es) == [] && Leaving(c, es) == [];
    }
  }

  lemma CloseSplit(c: Closing, es: seq<Episode>)
    requires es != []
    ensures var e, rest := es[|es| - 1], es[..|es| - 1];
      && Longest(es) == Max(Longest(rest), Count(e)) && Count(ClosedBy(c, e)) == Count(e)
      && (IsClosedBy(c, e) ==> Staying(c, es) == Staying(c, rest) && Leaving(c, es) == Leaving(c, rest) + [ClosedBy(c, e)])
      && (!IsClosedBy(c, e) ==> Staying(c, es) == Staying(c, rest) + [e] && Leaving(c, es) == Leaving(c, rest))
  {
  }

  lemma SumSplit(es: seq<Episode>, measure: Episode -> nat)
    requires es != []
    ensures Sum(es, measure) == Sum(es[..|es| - 1], measure) + measure(es[|es| - 1])
  {
  }

  lemma {:induction false} CloseKeepsLongest(c: Closing, es: seq<Episode>)
    ensures |Staying(c, es)| + |Leaving(c, es)| == |es|
    ensures Max(Longest(Staying(c, es)), Longest(Leaving(c, es))) == Longest(es)
  {
    if es != [] {
      var n := |es| - 1;
      CloseKeepsLongest(c, es[..n]);
      CloseSplit(c, es);
      hide Staying, Leaving, Sum, IsClosedBy, ClosedBy, Longest;
      if IsClosedBy(c, es[n]) {
        SumSnoc(Leaving(c, es[..n]), ClosedBy(c, es[n]), Count);
      } else {
        SumSnoc(Staying(c, es[..n]), es[n], Count);
      }
    }
  }
}
