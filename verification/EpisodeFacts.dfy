/** What holds of the episode log after every run of events. */
module EpisodeFacts {
  import opened Basics
  import opened Utf
  import opened Episodes

  predicate DistinctKeys(es: seq<Episode>) { forall i, j | 0 <= i < j < |es| :: es[i].key != es[j].key }

  /** The bounds on one episode, active or closed. */
  predicate Bounded(e: Episode, semantic: nat, correlated: nat) {
    && e.tally.count >= 1
    && e.tally.correlated <= e.tally.after <= semantic
    && e.tally.correlated <= correlated
    && (!Exposed(e) ==> e.tally.after == 0)
    && Distinct(e.variants) && 1 <= |e.variants| <= 16 && |e.variants| <= e.tally.count
  }

  predicate AllBounded(es: seq<Episode>, semantic: nat, correlated: nat) {
    forall e | e in es :: Bounded(e, semantic, correlated)
  }

  predicate AllActive(es: seq<Episode>) { forall e | e in es :: e.status.Active? && e.recovery.None? }

  predicate NoneActive(es: seq<Episode>) {
    forall e | e in es :: !e.status.Active? && (e.status.Recovered? <==> e.recovery.Some?)
  }

  ghost predicate Inv(s: Log) {
    && DistinctKeys(s.active) && AllActive(s.active) && NoneActive(s.closed)
    && AllBounded(s.active, s.semantic, s.correlated)
    && AllBounded(s.closed, s.semantic, s.correlated)
    && s.correlated <= s.semantic
    // Every counted call is counted in some episode as well.
    && s.semantic <= Total(s, After)
    && s.correlated <= Total(s, Correlated)
  }

  // ---- Calls ---------------------------------------------------------------------------

  lemma {:induction false} NotedSums(es: seq<Episode>, c: Call)
    ensures Sum(AllNoted(es, c), After) >= Sum(es, After) + if AnyExposed(es) then 1 else 0
    ensures Sum(AllNoted(es, c), Correlated) >= Sum(es, Correlated) + if AnyOnTarget(es, c) then 1 else 0
    ensures Sum(AllNoted(es, c), Count) == Sum(es, Count)
    ensures Longest(AllNoted(es, c)) == Longest(es)
  {
    if es != [] {
      var n := |es| - 1;
      NotedSums(es[..n], c);
      assert AllNoted(es, c)[..n] == AllNoted(es[..n], c);
      AnySplit(es, c);
    }
  }

  lemma AnySplit(es: seq<Episode>, c: Call)
    requires es != []
    ensures AnyExposed(es) <==> AnyExposed(es[..|es| - 1]) || Exposed(es[|es| - 1])
    ensures AnyOnTarget(es, c) <==>
      AnyOnTarget(es[..|es| - 1], c) || (Exposed(es[|es| - 1]) && OnTarget(es[|es| - 1], c))
  {
    assert es == es[..|es| - 1] + [es[|es| - 1]];
  }

  lemma NotedBounded(s: Log, c: Call, e: Episode)
    requires e in s.active && Bounded(e, s.semantic, s.correlated)
    ensures var t := NoteCall(s, c);
      AnyExposed(s.active) ==> Bounded(Noted(e, c), t.semantic, t.correlated)
  {
    if Exposed(e) && OnTarget(e, c) { assert AnyOnTarget(s.active, c); }
  }

  lemma AllNotedBounded(s: Log, c: Call)
    requires AllBounded(s.active, s.semantic, s.correlated) && AllActive(s.active) && AnyExposed(s.active)
    ensures var t := NoteCall(s, c); AllBounded(t.active, t.semantic, t.correlated) && AllActive(t.active)
  {
    var t := NoteCall(s, c);
    forall e | e in t.active ensures Bounded(e, t.semantic, t.correlated) && e.status.Active? && e.recovery.None? {
      var i :| 0 <= i < |t.active| && t.active[i] == e;
      assert s.active[i] in s.active;
      NotedBounded(s, c, s.active[i]);
    }
  }

  lemma StillBounded(es: seq<Episode>, s: nat, c: nat, s': nat, c': nat)
    requires AllBounded(es, s, c) && s <= s' && c <= c'
    ensures AllBounded(es, s', c')
  {
  }

  lemma NoteCallInv(s: Log, c: Call)
    requires Inv(s)
    ensures Inv(NoteCall(s, c))
  {
    hide AllBounded, AllActive, NoneActive, Sum, AnyOnTarget, AnyExposed, Longest;
    var t := NoteCall(s, c);
    if AnyExposed(s.active) {
      NotedSums(s.active, c);
      AllNotedBounded(s, c);
      StillBounded(s.closed, s.semantic, s.correlated, t.semantic, t.correlated);
    }
  }

  // ---- Failures -------------------------------------------------------------------------

  lemma VariantAdded(vs: seq<Text>, v: Text)
    requires Distinct(vs) && |vs| <= MAX_CALL_VARIANTS
    ensures var r := AddVariant(vs, v); Distinct(r) && 1 <= |r| <= MAX_CALL_VARIANTS && |vs| <= |r| <= |vs| + 1
  {
  }

  lemma RecordedBounded(e: Episode, f: Failure, semantic: nat, correlated: nat)
    requires Bounded(e, semantic, correlated)
    ensures Bounded(Recorded(e, f), semantic, correlated)
  {
    VariantAdded(e.variants, f.variant);
  }

  lemma OpenedBounded(f: Failure, semantic: nat, correlated: nat)
    ensures Bounded(Recorded(Opened(f), f), semantic, correlated)
  {
    VariantAdded([], f.variant);
  }

  lemma ObserveTotals(s: Log, f: Failure)
    ensures Total(Observe(s, f), After) == Total(s, After)
    ensures Total(Observe(s, f), Correlated) == Total(s, Correlated)
    ensures Total(Observe(s, f), Count) == Total(s, Count) + 1
  {
    var n := Find(s.active, f.key);
    if n < |s.active| {
      var e := Recorded(s.active[n], f);
      SumUpdate(s.active, n, e, After);
      SumUpdate(s.active, n, e, Correlated);
      SumUpdate(s.active, n, e, Count);
    } else {
      var e := Recorded(Opened(f), f);
      SumSnoc(s.active, e, After);
      SumSnoc(s.active, e, Correlated);
      SumSnoc(s.active, e, Count);
    }
  }

  lemma ObserveInv(s: Log, f: Failure)
    requires Inv(s)
    ensures Inv(Observe(s, f))
  {
    ObserveTotals(s, f);
    hide Bounded, Sum, AddVariant, NoneActive, Distinct;
    var n, t := Find(s.active, f.key), Observe(s, f);
    var e := if n < |s.active| then Recorded(s.active[n], f) else Recorded(Opened(f), f);
    if n < |s.active| {
      assert s.active[n] in s.active;
      RecordedBounded(s.active[n], f, s.semantic, s.correlated);
    } else {
      OpenedBounded(f, s.semantic, s.correlated);
      assert s.active[..n] == s.active;
    }
    assert e.status.Active? && e.recovery.None?;
    hide Recorded, Opened;
    forall x | x in t.active
      ensures Bounded(x, s.semantic, s.correlated) && x.status.Active? && x.recovery.None?
    {
      assert x == e || x in s.active;
    }
  }

  // ---- Closings --------------------------------------------------------------------------

  /** Who stays was there, and who leaves is the closed copy of one who was there. */
  lemma {:induction false} ClosedFrom(c: Closing, es: seq<Episode>)
    ensures forall e | e in Staying(c, es) :: e in es && !IsClosedBy(c, e)
    ensures forall e | e in Leaving(c, es) :: IsLeaver(c, es, e)
  {
    if es != [] {
      var n := |es| - 1;
      ClosedFrom(c, es[..n]);
      hide IsClosedBy, ClosedBy;
      forall e | e in Leaving(c, es) ensures IsLeaver(c, es, e) {
        if e in Leaving(c, es[..n]) {
          assert IsLeaver(c, es[..n], e);
        } else {
          assert es[n] in es && ClosedBy(c, es[n]) == e;
        }
      }
    }
  }

  predicate IsLeaver(c: Closing, es: seq<Episode>, e: Episode) {
    exists o | o in es :: IsClosedBy(c, o) && ClosedBy(c, o) == e
  }

  lemma {:induction false} StayingDistinct(c: Closing, es: seq<Episode>)
    requires DistinctKeys(es)
    ensures DistinctKeys(Staying(c, es))
  {
    if es != [] {
      var n := |es| - 1;
      var rest := Staying(c, es[..n]);
      StayingDistinct(c, es[..n]);
      ClosedFrom(c, es[..n]);
      forall i | 0 <= i < |rest| ensures rest[i].key != es[n].key {
        assert rest[i] in es[..n];
      }
    }
  }

  lemma CloseInv(s: Log, c: Closing)
    requires Inv(s)
    ensures Inv(Close(s, c))
  {
    hide Staying, Leaving, Sum, Total, Bounded, DistinctKeys, ClosedBy;
    StayingDistinct(c, s.active);
    ClosedFrom(c, s.active);
    LeaversHold(s, c);
    TalliesStay(c);
    CloseTotal(s, c, After);
    CloseTotal(s, c, Correlated);
  }

  lemma LeaversHold(s: Log, c: Closing)
    requires AllActive(s.active) && AllBounded(s.active, s.semantic, s.correlated)
    ensures NoneActive(Leaving(c, s.active)) && AllBounded(Leaving(c, s.active), s.semantic, s.correlated)
  {
    hide Staying, Leaving;
    ClosedFrom(c, s.active);
    forall e | e in Leaving(c, s.active)
      ensures Bounded(e, s.semantic, s.correlated) && !e.status.Active? && (e.status.Recovered? <==> e.recovery.Some?)
    {
      assert IsLeaver(c, s.active, e);
      var o :| o in s.active && IsClosedBy(c, o) && ClosedBy(c, o) == e;
      assert Bounded(o, s.semantic, s.correlated);
    }
  }

  lemma TalliesStay(c: Closing)
    ensures forall e :: After(ClosedBy(c, e)) == After(e) && Correlated(ClosedBy(c, e)) == Correlated(e)
  {
  }

  lemma CloseTotal(s: Log, c: Closing, measure: Episode -> nat)
    requires forall e :: measure(ClosedBy(c, e)) == measure(e)
    ensures Total(Close(s, c), measure) == Total(s, measure)
  {
    CloseConserves(c, s.active, measure);
    SumConcat(s.closed, Leaving(c, s.active), measure);
  }

  // ---- Runs --------------------------------------------------------------------------------

  lemma StepInv(s: Log, event: Event)
    requires Inv(s)
    ensures Inv(Step(s, event))
  {
    match event
    case Reset =>
    case ToolCall(c) => NoteCallInv(s, c);
    case Failed(f) => ObserveInv(s, f);
    case Closes(c) => CloseInv(s, c);
  }

  lemma {:induction false} RunInv(events: seq<Event>)
    ensures Inv(Run(events))
  {
    if events != [] {
      RunInv(events[..|events| - 1]);
      StepInv(Run(events[..|events| - 1]), events[|events| - 1]);
    }
  }

  function FailuresSinceReset(events: seq<Event>): nat {
    if events == [] then 0
    else
      match events[|events| - 1]
      case Reset => 0
      case Failed(_) => FailuresSinceReset(events[..|events| - 1]) + 1
      case _ => FailuresSinceReset(events[..|events| - 1])
  }

  /** Every failure since the last reset is counted in exactly one episode. */
  lemma {:induction false} EveryFailureCounted(events: seq<Event>)
    ensures Total(Run(events), Count) == FailuresSinceReset(events)
  {
    if events != [] {
      var before, event := Run(events[..|events| - 1]), events[|events| - 1];
      EveryFailureCounted(events[..|events| - 1]);
      match event
      case Reset =>
      case ToolCall(c) => NotedSums(before.active, c);
      case Failed(f) => ObserveTotals(before, f);
      case Closes(c) => CloseTotal(before, c, Count);
    }
  }

  /** What a run has closed stays closed, as it was and in order, until the next reset. */
  lemma {:induction false} ClosedOnlyGrows(events: seq<Event>, more: seq<Event>)
    requires forall e | e in more :: !e.Reset?
    ensures Run(events).closed <= Run(events + more).closed
  {
    hide Run, Step;
    if more == [] {
      assert events + more == events;
    } else {
      var n, all := |more| - 1, events + more;
      assert all[..|all| - 1] == events + more[..n] && all[|all| - 1] == more[n] && more[n] in more;
      ClosedOnlyGrows(events, more[..n]);
      ClosedStays(events + more[..n], more[n]);
      assert all == events + more[..n] + [more[n]];
    }
  }

  lemma ClosedStays(events: seq<Event>, event: Event)
    requires !event.Reset?
    ensures Run(events).closed <= Run(events + [event]).closed
  {
    assert (events + [event])[..|events|] == events;
  }
}
