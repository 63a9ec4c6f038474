/**
 What is kept for a boundary and what is decided there, told from the proposals themselves:
 which of them wins, which are merged into its message, and the words that go out.
 */
module ArbiterMeaning {
  import opened Utf
  import opened Arbiter
  import opened ArbiterFacts
  import Authority

  // ---- Adding --------------------------------------------------------------------------------

  /** An entry as it is kept: its message whole, or the first 4000 characters of a longer one. */
  predicate KeptAs(e: Envelope, kept: Envelope) {
    && kept.proposal == e.proposal && kept.delivery.abort == e.delivery.abort && kept.delivery.shutdown == e.delivery.shutdown
    && (match e.delivery.message
        case None => kept.delivery.message.None?
        case Some(m) => kept.delivery.message == Some(if |m| <= 4000 then m else m[..4000]))
  }

  /** A proposal that its boundary already has changes nothing. Any other goes behind those of
      its boundary; with 128 pending, the first one of the oldest boundary makes room. */
  lemma AddsExactly(q: Queue, e: Envelope, boundary: int)
    requires ValidQueue(q) && IsProposal(e.proposal)
    ensures var es, r := EntriesAt(q, boundary), Added(q, e);
      if exists i :: 0 <= i < |EntriesAt(q, e.proposal.boundary)| && EntriesAt(q, e.proposal.boundary)[i].proposal.id == e.proposal.id
      then r == q
      else
        exists kept :: KeptAs(e, kept)
          && var all := if boundary == e.proposal.boundary then es + [kept] else es;
             if |Flat(q)| == 128 && boundary == q[0].boundary then all != [] && EntriesAt(r, boundary) == all[1..]
             else EntriesAt(r, boundary) == all
  {
    hide ValidQueue, IsProposal, Flat, Added, EntriesAt, BucketAt;
    FlatTotal(q);
    var at := EntriesAt(q, e.proposal.boundary);
    if HasId(at, e.proposal.id) {
      assert Added(q, e) == q by { AddedValid(q, e); }
      var x :| x in at && x.proposal.id == e.proposal.id;
      var i :| 0 <= i < |at| && at[i] == x;
    } else {
      assert forall i | 0 <= i < |at| :: at[i] in at;
      assert KeptAs(e, Bounded(e));
      AddedAt(q, e, boundary);
    }
  }

  lemma AddedAt(q: Queue, e: Envelope, boundary: int)
    requires ValidQueue(q) && IsProposal(e.proposal) && !HasId(EntriesAt(q, e.proposal.boundary), e.proposal.id)
    ensures var es := EntriesAt(q, boundary);
      var all := if boundary == e.proposal.boundary then es + [Bounded(e)] else es;
      if Total(q) == 128 && boundary == q[0].boundary then all != [] && EntriesAt(Added(q, e), boundary) == all[1..]
      else EntriesAt(Added(q, e), boundary) == all
  {
    hide IsProposal, BucketHolds, Inserted, EvictOldest, EntriesAt;
    InsertedBuckets(q, e);
    InsertedAt(q, e, boundary);
    if Total(q) == 128 {
      var r := Inserted(q, e);
      FullBuckets(r);
      hide Total, DistinctBoundaries;
      FirstStays(q, e);
      EvictedEntries(r, boundary);
    }
  }

  lemma FirstStays(q: Queue, e: Envelope)
    requires q != []
    ensures Inserted(q, e) != [] && Inserted(q, e)[0].boundary == q[0].boundary
  {
  }

  lemma InsertedAt(q: Queue, e: Envelope, boundary: int)
    ensures EntriesAt(Inserted(q, e), boundary) ==
      EntriesAt(q, boundary) + if boundary == e.proposal.boundary then [Bounded(e)] else []
  {
    var n, m, r := BucketAt(q, e.proposal.boundary), BucketAt(q, boundary), Inserted(q, e);
    hide BucketAt;
    if boundary == e.proposal.boundary || m < |q| {
      FirstAt(r, boundary, m);
    } else {
      forall b | b in r ensures b.boundary != boundary {
        var i :| 0 <= i < |r| && r[i] == b;
        if i < |q| { assert q[i] in q; }
      }
      FirstAt(r, boundary, |r|);
    }
  }

  lemma FirstAt(q: Queue, boundary: int, n: nat)
    requires n <= |q| && (n < |q| ==> q[n].boundary == boundary)
    requires forall i | 0 <= i < n :: q[i].boundary != boundary
    ensures BucketAt(q, boundary) == n
  {
    hide BucketAt;
  }

  lemma EvictedEntries(q: Queue, boundary: int)
    requires q != [] && DistinctBoundaries(q) && q[0].entries != []
    ensures boundary == q[0].boundary ==> EntriesAt(q, boundary) != []
    ensures EntriesAt(EvictOldest(q), boundary) ==
      if boundary == q[0].boundary then EntriesAt(q, boundary)[1..] else EntriesAt(q, boundary)
  {
    var r, m := EvictOldest(q), BucketAt(q, boundary);
    EvictedAt(q);
    hide BucketAt, EvictOldest;
    var k := |q| - |r|;
    if boundary == q[0].boundary {
      FirstAt(q, boundary, 0);
      FirstAt(r, boundary, if k == 0 then 0 else |r|);
    } else {
      FirstAt(r, boundary, m - k);
    }
  }

  function Boundaries(q: Queue): (bs: seq<int>)
    ensures |bs| == |q| && forall i | 0 <= i < |q| :: bs[i] == q[i].boundary
  {
    seq(|q|, i requires 0 <= i < |q| => q[i].boundary)
  }

  /** Boundaries keep the order in which they were first proposed for; one leaves with its last entry. */
  lemma BoundariesInOrder(q: Queue, e: Envelope)
    requires ValidQueue(q) && IsProposal(e.proposal) && !HasId(EntriesAt(q, e.proposal.boundary), e.proposal.id)
    ensures var bs := Boundaries(q) + (if e.proposal.boundary in Boundaries(q) then [] else [e.proposal.boundary]);
      Boundaries(Added(q, e)) ==
        if |Flat(q)| == 128 && |EntriesAt(q, q[0].boundary)| == 1 && e.proposal.boundary != q[0].boundary then bs[1..] else bs
  {
    FlatTotal(q);
    InsertedBuckets(q, e);
    InsertedBoundaries(q, e);
    hide BucketHolds, EntriesAt, Flat, Inserted, EvictOldest, IsProposal;
    if Total(q) == 128 {
      hide Total, DistinctBoundaries;
      FirstStays(q, e);
      FirstIsAt(q);
      FirstIsAt(Inserted(q, e));
      InsertedAt(q, e, q[0].boundary);
      EvictedBoundaries(Inserted(q, e));
      FullFirst(q);
    }
  }

  lemma FullFirst(q: Queue)
    requires ValidQueue(q) && q != []
    ensures q[0].entries != []
  {
    assert BucketHolds(q[0]);
  }

  lemma FirstIsAt(q: Queue)
    requires q != []
    ensures EntriesAt(q, q[0].boundary) == q[0].entries
  {
  }

  lemma InsertedBoundaries(q: Queue, e: Envelope)
    ensures Boundaries(Inserted(q, e)) == Boundaries(q) + if e.proposal.boundary in Boundaries(q) then [] else [e.proposal.boundary]
  {
    hide BucketAt;
    if e.proposal.boundary in Boundaries(q) {
      var i :| 0 <= i < |q| && q[i].boundary == e.proposal.boundary;
      assert q[i] in q;
    }
  }

  lemma EvictedBoundaries(q: Queue)
    requires q != []
    ensures Boundaries(EvictOldest(q)) == if |q[0].entries| > 1 then Boundaries(q) else Boundaries(q)[1..]
  {
    EvictedAt(q);
    hide EvictOldest;
  }

  // ---- Deciding ------------------------------------------------------------------------------

  /** A decision leaves what waits for other boundaries as it is. */
  lemma OthersWait(q: Queue, boundary: int, mode: Mode, other: int)
    requires ValidQueue(q) && other != boundary
    ensures EntriesAt(Deciding(q, boundary, mode).0, other) == EntriesAt(q, other)
  {
    hide ValidQueue, BucketAt, Decided;
    var n, m := BucketAt(q, boundary), BucketAt(q, other);
    if n < |q| {
      var r := q[..n] + q[n + 1..];
      assert forall i | n <= i < |r| :: r[i] == q[i + 1];
      FirstAt(r, other, if m < n then m else m - 1);
    }
  }

  /** Aborts and shutdowns first, then by kind, then in the order they came. */
  predicate Precedes(es: seq<Envelope>, i: nat, j: nat)
    requires i < |es| && j < |es|
  {
    var a, b := es[i].proposal, es[j].proposal;
    || (a.effect != Message && b.effect == Message)
    || ((a.effect == Message <==> b.effect == Message) && (Before(a.kind, b.kind) || (a.kind == b.kind && i < j)))
  }

  predicate Before(a: Kind, b: Kind) {
    match a
    case SafeAbort => b != SafeAbort
    case FailureRecovery => b != SafeAbort && b != FailureRecovery
    case VerificationRequired => b == PlanResolution || b == ToolRescue || b == ContextHint
    case PlanResolution => b == ToolRescue || b == ContextHint
    case ToolRescue => b == ContextHint
    case ContextHint => false
  }

  predicate Says(e: Envelope) { e.delivery.message.Some? && |e.delivery.message.value| > 0 }

  /** The gate's own wording that a check is still missing. */
  predicate AsksForGate(e: Envelope) {
    && e.proposal.kind == VerificationRequired && e.proposal.source == VerifyGate && e.proposal.reason == ExactGateMissing
    && e.proposal.factory == VerifyWrap && e.proposal.effect == Message && Says(e)
  }

  predicate ShowsState(e: Envelope) {
    e.proposal.reason == StateLens && e.proposal.source == SessionBlackboard && e.proposal.effect == Message && Says(e)
  }

  /** `first` is the first entry of its kind, if there is one at all. */
  ghost predicate IsFirst(es: seq<Envelope>, test: Envelope -> bool, first: Option<Envelope>) {
    match first
    case None => forall i | 0 <= i < |es| :: !test(es[i])
    case Some(e) => exists k: nat :: k < |es| && es[k] == e && test(e) && forall i | 0 <= i < k :: !test(es[i])
  }

  /** Two texts with an empty line between them, the first cut to what 4000 characters leave it. */
  predicate Squeezed(head: Text, tail: Text, both: Text) {
    && |tail| < 3998
    && both == (if |head| + |tail| <= 3998 then head else head[..3998 - |tail|]) + [10, 10] + tail
  }

  predicate Merges(head: Option<Text>, tail: Option<Text>) { head.Some? && tail.Some? && |tail.value| < 3998 }

  /** The requirement behind the winner's message. */
  predicate RequirementMerges(w: Envelope, mode: Mode, asks: Option<Envelope>, merged: bool, said: Option<Text>) {
    && (merged <==>
          mode == Enforce && w.proposal.kind == FailureRecovery && w.proposal.effect == Message
          && asks.Some? && Merges(w.delivery.message, asks.value.delivery.message))
    && (if merged
        then said.Some? && asks.Some? && w.delivery.message.Some? && asks.value.delivery.message.Some?
             && Squeezed(w.delivery.message.value, asks.value.delivery.message.value, said.value)
        else said == w.delivery.message)
  }

  /** The lens in front of both. */
  predicate LensMerges(w: Envelope, mode: Mode, lens: Option<Envelope>, said: Option<Text>, merged: bool, sent: Option<Text>) {
    && (merged <==>
          mode == Enforce && w.proposal.effect == Message && w.proposal.reason != StateLens
          && lens.Some? && Merges(lens.value.delivery.message, said))
    && (if merged
        then lens.Some? && lens.value.delivery.message.Some? && said.Some? && sent.Some?
             && Squeezed(lens.value.delivery.message.value, said.value, sent.value)
        else sent == said)
  }

  /** The winner if it is acted on, and what was merged into it. */
  predicate DeliversAs(w: Envelope, mode: Mode, asks: Option<Envelope>, lens: Option<Envelope>, o: Outcome) {
    && o.delivery.Some? && o.delivery.value.abort == w.delivery.abort && o.delivery.value.shutdown == w.delivery.shutdown
    && (o.verificationMerged ==> asks.Some?) && (o.lensMerged ==> lens.Some?)
    && o.decision.delivered ==
         if mode == Enforce && IsSent(w.proposal.effect, o.delivery.value) then
           [w.proposal.id] + (if o.verificationMerged then [asks.value.proposal.id] else []) + (if o.lensMerged then [lens.value.proposal.id] else [])
         else []
  }

  predicate IsSent(effect: Effect, d: Delivery) {
    || (effect == Abort && d.abort)
    || (effect == Shutdown && d.shutdown)
    || (effect == Message && d.message.Some? && |d.message.value| > 0)
  }

  function Acted(es: seq<Envelope>): set<nat> { set i: nat | i < |es| && es[i].proposal.legacyActed }

  /** The decision, whole: the winner, the first requirement and the first lens there are, and
      the winner's message with the requirement behind it. */
  lemma DecisionExactly(es: seq<Envelope>, boundary: int, mode: Mode) returns (w: nat, asks: Option<Envelope>, lens: Option<Envelope>, said: Option<Text>)
    requires EntriesHold(es, boundary) && es != []
    ensures w < |es| && forall j: nat | j < |es| && j != w :: Precedes(es, w, j)
    ensures IsFirst(es, AsksForGate, asks) && IsFirst(es, ShowsState, lens)
    ensures var o := Decided(es, boundary, mode);
      && RequirementMerges(es[w], mode, asks, o.verificationMerged, said)
      && o.delivery.Some? && LensMerges(es[w], mode, lens, said, o.lensMerged, o.delivery.value.message)
      && DeliversAs(es[w], mode, asks, lens, o)
      && o.decision.(delivered := []) == Decision(boundary, mode, |es|, |es| - 1, |Acted(es)|, Some(es[w].proposal), [])
  {
    w := WinnerIsTheFirst(es);
    KindsDecide(es, boundary, w);
    ActedCount(es);
    asks := FirstOf(es, IsRequirement, AsksForGate);
    lens := FirstOf(es, IsLens, ShowsState);
    said := WithRequirement(es[w].delivery, Requirement(es, es[w], mode)).0.message;
    hide *;
    DecidedIs(es, boundary, mode, es[w], asks, lens, said);
  }

  lemma DecidedIs(es: seq<Envelope>, boundary: int, mode: Mode, w: Envelope, asks: Option<Envelope>, lens: Option<Envelope>, said: Option<Text>)
    requires es != [] && Winner(es) == Some(w) && asks == FirstThat(es, IsRequirement) && lens == FirstThat(es, IsLens)
    requires said == WithRequirement(w.delivery, Requirement(es, w, mode)).0.message
    ensures var o := Decided(es, boundary, mode);
      && RequirementMerges(w, mode, asks, o.verificationMerged, said)
      && o.delivery.Some? && LensMerges(w, mode, lens, said, o.lensMerged, o.delivery.value.message)
      && DeliversAs(w, mode, asks, lens, o)
      && o.decision.(delivered := []) == Decision(boundary, mode, |es|, |es| - 1, LegacyCount(es), Some(w.proposal), [])
  {
    var v, l := Requirement(es, w, mode), Lens(es, w, mode);
    var d1 := WithRequirement(w.delivery, v).0;
    hide Decided, Winner, FirstThat, LegacyCount, IsRequirement, IsLens, Squeezed, WithRequirement, WithLens, RequirementMerges, LensMerges;
    Parts(es, boundary, mode, w);
    RequirementIs(es, mode, w, asks);
    LensIs(es, mode, w, d1, lens);
  }

  lemma RequirementIs(es: seq<Envelope>, mode: Mode, w: Envelope, asks: Option<Envelope>)
    requires asks == FirstThat(es, IsRequirement)
    ensures var (r, merged) := WithRequirement(w.delivery, Requirement(es, w, mode));
      && r.abort == w.delivery.abort && r.shutdown == w.delivery.shutdown
      && RequirementMerges(w, mode, asks, merged, r.message) && (merged ==> Requirement(es, w, mode) == asks && asks.Some?)
  {
    hide FirstThat, IsRequirement;
  }

  lemma LensIs(es: seq<Envelope>, mode: Mode, w: Envelope, d: Delivery, lens: Option<Envelope>)
    requires lens == FirstThat(es, IsLens)
    ensures var (r, merged) := WithLens(d, Lens(es, w, mode));
      && r.abort == d.abort && r.shutdown == d.shutdown
      && LensMerges(w, mode, lens, d.message, merged, r.message) && (merged ==> Lens(es, w, mode) == lens && lens.Some?)
  {
    hide FirstThat, IsLens;
  }

  lemma Parts(es: seq<Envelope>, boundary: int, mode: Mode, w: Envelope)
    requires es != [] && Winner(es) == Some(w)
    ensures var o, v, l := Decided(es, boundary, mode), Requirement(es, w, mode), Lens(es, w, mode);
      var (d1, verified) := WithRequirement(w.delivery, v);
      var (d2, lensed) := WithLens(d1, l);
      && o.delivery == Some(d2) && o.verificationMerged == verified && o.lensMerged == lensed
      && o.decision.(delivered := []) == Decision(boundary, mode, |es|, |es| - 1, LegacyCount(es), Some(w.proposal), [])
      && (o.decision.delivered ==
            if mode.Enforce? && Acts(w.proposal, d2) then
              [w.proposal.id] + (if verified && v.Some? then [v.value.proposal.id] else []) + (if lensed && l.Some? then [l.value.proposal.id] else [])
            else [])
  {
    hide Winner, LegacyCount, Requirement, Lens, WithRequirement, WithLens, Acts;
  }

  lemma {:induction false} FirstOf(es: seq<Envelope>, test: Envelope -> bool, same: Envelope -> bool) returns (first: Option<Envelope>)
    requires forall e | e in es :: test(e) == same(e)
    ensures first == FirstThat(es, test) && IsFirst(es, same, first)
  {
    first := FirstThat(es, test);
    if es != [] {
      if test(es[0]) {
        assert es[0] in es;
      } else {
        var rest := es[1..];
        assert forall e | e in rest :: e in es;
        var f := FirstOf(rest, test, same);
        assert es[0] in es;
        assert forall i | 0 < i < |es| :: es[i] == rest[i - 1];
        if f.Some? {
          var k: nat :| k < |rest| && rest[k] == f.value && same(f.value) && forall i | 0 <= i < k :: !same(rest[i]);
          assert es[k + 1] == f.value;
        }
      }
    }
  }

  /** The numbers of the priorities order the kinds. */
  lemma KindsDecide(es: seq<Envelope>, boundary: int, w: nat)
    requires EntriesHold(es, boundary) && w < |es| && forall j | 0 <= j < |es| && j != w :: GoesBefore(es, w, j)
    ensures forall j: nat | j < |es| && j != w :: Precedes(es, w, j)
  {
    hide DistinctIds, Precedes, GoesBefore;
    forall j: nat | j < |es| && j != w ensures Precedes(es, w, j) {
      assert es[w] in es && es[j] in es;
      assert GoesBefore(es, w, j);
      OneDecides(es, w, j);
    }
  }

  lemma OneDecides(es: seq<Envelope>, i: nat, j: nat)
    requires i < |es| && j < |es| && IsProposal(es[i].proposal) && IsProposal(es[j].proposal) && GoesBefore(es, i, j)
    ensures Precedes(es, i, j)
  {
    hide Authority.IsHash;
  }

  lemma {:induction false} ActedCount(es: seq<Envelope>)
    ensures LegacyCount(es) == |Acted(es)|
  {
    if es == [] {
      assert Acted(es) == {};
    } else {
      var n: nat := |es| - 1;
      LastCounts(es);
      ActedCount(es[..n]);
      assert Acted(es) == Acted(es[..n]) + if es[n].proposal.legacyActed then {n} else {};
    }
  }

  lemma {:induction false} LastCounts(es: seq<Envelope>)
    requires es != []
    ensures LegacyCount(es) == LegacyCount(es[..|es| - 1]) + if es[|es| - 1].proposal.legacyActed then 1 else 0
  {
    if |es| > 1 {
      LastCounts(es[1..]);
      assert es[1..][..|es| - 2] == es[..|es| - 1][1..];
    }
  }
}
