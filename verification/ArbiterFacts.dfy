/** What the arbiter's queue keeps and what its decisions mean. */
module ArbiterFacts {
  import opened Basics
  import opened Utf
  import opened StableSort
  import opened Arbiter
  import Authority

  predicate DistinctIds(es: seq<Envelope>) { forall i, j | 0 <= i < j < |es| :: es[i].proposal.id != es[j].proposal.id }

  predicate EntryHolds(e: Envelope, boundary: int) {
    && IsProposal(e.proposal) && e.proposal.boundary == boundary
    && (e.delivery.message.Some? ==> |e.delivery.message.value| <= MAX_MESSAGE_CHARS)
  }

  predicate EntriesHold(es: seq<Envelope>, boundary: int) { DistinctIds(es) && forall e | e in es :: EntryHolds(e, boundary) }

  predicate BucketHolds(b: Bucket) { b.entries != [] && EntriesHold(b.entries, b.boundary) }

  predicate DistinctBoundaries(q: Queue) { forall i, j | 0 <= i < j < |q| :: q[i].boundary != q[j].boundary }

  predicate ValidQueue(q: Queue) {
    Total(q) <= MAX_PENDING && DistinctBoundaries(q) && forall b | b in q :: BucketHolds(b)
  }

  /** All pending entries, bucket after bucket. */
  function Flat(q: Queue): seq<Envelope> {
    if q == [] then [] else q[0].entries + Flat(q[1..])
  }

  lemma {:induction false} FlatTotal(q: Queue)
    ensures |Flat(q)| == Total(q)
  {
    if q != [] { FlatTotal(q[1..]); }
  }

  lemma {:induction false} TotalConcat(a: Queue, b: Queue)
    ensures Total(a + b) == Total(a) + Total(b)
  {
    if a == [] {
      assert a + b == b;
    } else {
      assert (a + b)[1..] == a[1..] + b;
      TotalConcat(a[1..], b);
    }
  }

  lemma TotalUpdate(q: Queue, n: nat, b: Bucket)
    requires n < |q|
    ensures Total(q[n := b]) == Total(q) - |q[n].entries| + |b.entries|
  {
    var front, back := q[..n], q[n + 1..];
    assert q == front + ([q[n]] + back);
    assert q[n := b] == front + ([b] + back);
    TotalConcat(front, [q[n]] + back);
    TotalConcat(front, [b] + back);
    assert ([q[n]] + back)[1..] == back && ([b] + back)[1..] == back;
  }

  lemma EntriesIn(q: Queue, boundary: int)
    requires ValidQueue(q)
    ensures EntriesHold(EntriesAt(q, boundary), boundary)
  {
    var n := BucketAt(q, boundary);
    if n < |q| { assert q[n] in q; }
  }

  lemma EntriesExtended(es: seq<Envelope>, e: Envelope)
    requires EntriesHold(es, e.proposal.boundary) && IsProposal(e.proposal) && !HasId(es, e.proposal.id)
    ensures EntriesHold(es + [Bounded(e)], e.proposal.boundary)
  {
    var r := es + [Bounded(e)];
    hide IsProposal;
    forall i, j | 0 <= i < j < |r| ensures r[i].proposal.id != r[j].proposal.id {
      if j == |es| { assert es[i] in es; }
    }
  }

  /** The bucket list after an entry went in: one bucket grew by it, the others are the same. */
  lemma InsertedBuckets(q: Queue, e: Envelope)
    requires ValidQueue(q) && IsProposal(e.proposal) && !HasId(EntriesAt(q, e.proposal.boundary), e.proposal.id)
    ensures var r := Inserted(q, e);
      && Total(r) == Total(q) + 1 && DistinctBoundaries(r) && r != []
      && (forall b | b in r :: BucketHolds(b))
      && BucketAt(r, e.proposal.boundary) < |r|
      && r[BucketAt(r, e.proposal.boundary)].entries == EntriesAt(q, e.proposal.boundary) + [Bounded(e)]
  {
    hide Total, EntriesHold;
    var n, r := BucketAt(q, e.proposal.boundary), Inserted(q, e);
    EntriesIn(q, e.proposal.boundary);
    EntriesExtended(EntriesAt(q, e.proposal.boundary), e);
    if n < |q| {
      TotalUpdate(q, n, r[n]);
      SameBucket(r, n);
      forall b | b in r ensures BucketHolds(b) {
        var i :| 0 <= i < |r| && r[i] == b;
        if i != n { assert q[i] in q; }
      }
    } else {
      TotalConcat(q, [r[|q|]]);
      OneBucket(r[|q|]);
      assert [] + [Bounded(e)] == [Bounded(e)];
      assert forall i | 0 <= i < |q| :: q[i] in q;
      SameBucket(r, |q|);
    }
  }

  lemma OneBucket(b: Bucket)
    ensures Total([b]) == |b.entries|
  {
    assert Total([b]) == |b.entries| + Total([b][1..]);
  }

  lemma SameBucket(q: Queue, n: nat)
    requires n < |q| && forall i | 0 <= i < |q| && i != n :: q[i].boundary != q[n].boundary
    ensures BucketAt(q, q[n].boundary) == n
  {
    assert q[n] in q;
  }

  /** Evicting drops exactly the first pending entry. */
  lemma EvictedFlat(q: Queue)
    requires q != [] && q[0].entries != []
    ensures Flat(q) != [] && Total(EvictOldest(q)) == Total(q) - 1 && Flat(EvictOldest(q)) == Flat(q)[1..]
  {
    var r, first := EvictOldest(q), q[0].entries;
    if |first| > 1 {
      assert r[1..] == q[1..];
      DropFirst(first, Flat(q[1..]));
    } else {
      DropFirst(first, Flat(q[1..]));
      assert first[1..] + Flat(q[1..]) == Flat(q[1..]);
    }
  }

  lemma DropFirst<T>(a: seq<T>, b: seq<T>)
    requires a != []
    ensures (a + b)[1..] == a[1..] + b
  {
  }

  lemma EvictedHolds(q: Queue)
    requires q != [] && DistinctBoundaries(q) && (forall b | b in q :: BucketHolds(b))
    ensures var r := EvictOldest(q); DistinctBoundaries(r) && forall b | b in r :: BucketHolds(b)
  {
    hide EntriesHold;
    var r := EvictOldest(q);
    assert q[0] in q && BucketHolds(q[0]);
    if |q[0].entries| > 1 {
      TailHolds(q[0]);
      assert forall x | x in r :: x == r[0] || x in q;
    } else {
      assert forall x | x in r :: x in q;
    }
  }

  lemma TailHolds(b: Bucket)
    requires BucketHolds(b) && |b.entries| > 1
    ensures BucketHolds(b.(entries := b.entries[1..]))
  {
    hide EntryHolds;
    assert forall e | e in b.entries[1..] :: e in b.entries;
  }

  lemma AddedValid(q: Queue, e: Envelope)
    requires ValidQueue(q) && IsProposal(e.proposal)
    ensures ValidQueue(Added(q, e))
    ensures HasId(EntriesAt(q, e.proposal.boundary), e.proposal.id) ==> Added(q, e) == q
  {
    hide BucketHolds, Total, DistinctBoundaries, Inserted, EvictOldest;
    if !HasId(EntriesAt(q, e.proposal.boundary), e.proposal.id) {
      InsertedBuckets(q, e);
      FullBuckets(Inserted(q, e));
      assert Inserted(q, e)[0] in Inserted(q, e);
      EvictedFlat(Inserted(q, e));
      EvictedHolds(Inserted(q, e));
    }
  }

  /** Adding takes out at most one entry, the first of the oldest bucket, only when the
      queue is full, and never the entry just added. */
  lemma AddingEvictsOnlyTheOldest(q: Queue, e: Envelope)
    requires ValidQueue(q) && IsProposal(e.proposal) && !HasId(EntriesAt(q, e.proposal.boundary), e.proposal.id)
    ensures var r := Added(q, e);
      && Total(r) == (if Total(q) < MAX_PENDING then Total(q) + 1 else MAX_PENDING)
      && (Total(q) < MAX_PENDING ==> r == Inserted(q, e))
      && (Total(q) == MAX_PENDING ==> Flat(Inserted(q, e)) != [] && Flat(r) == Flat(Inserted(q, e))[1..])
      && EntriesAt(r, e.proposal.boundary) != []
      && EntriesAt(r, e.proposal.boundary)[|EntriesAt(r, e.proposal.boundary)| - 1] == Bounded(e)
  {
    hide EntriesHold, Flat;
    var next := Inserted(q, e);
    InsertedBuckets(q, e);
    if Total(q) == MAX_PENDING {
      FullBuckets(next);
      assert next[0] in next && q[0] in q && BucketHolds(q[0]);
      EvictedFlat(next);
      NewestStays(next, e.proposal.boundary, Bounded(e));
    }
  }

  lemma EvictedAt(q: Queue)
    requires q != []
    ensures var r, first := EvictOldest(q), q[0].entries;
      && |r| == (if |first| > 1 then |q| else |q| - 1)
      && (forall i | 0 <= i < |r| :: r[i].boundary == q[i + (|q| - |r|)].boundary)
      && (forall i | 0 <= i < |r| :: |r| < |q| || i > 0 ==> r[i] == q[i + (|q| - |r|)])
      && (|first| > 1 ==> r[0].entries == first[1..])
  {
    var r := EvictOldest(q);
    if |q[0].entries| > 1 {
      assert r[0] == q[0].(entries := q[0].entries[1..]);
      assert forall i | 0 < i < |q| :: r[i] == q[i];
    }
  }

  lemma NewestStays(q: Queue, boundary: int, newest: Envelope)
    requires DistinctBoundaries(q) && (forall b | b in q :: BucketHolds(b))
    requires BucketAt(q, boundary) < |q| && (BucketAt(q, boundary) == 0 ==> |q[0].entries| > 1)
    requires var es := q[BucketAt(q, boundary)].entries; es != [] && es[|es| - 1] == newest
    ensures var es := EntriesAt(EvictOldest(q), boundary); es != [] && es[|es| - 1] == newest
  {
    hide BucketHolds, BucketAt, EvictOldest;
    var n, r := BucketAt(q, boundary), EvictOldest(q);
    EvictedAt(q);
    var m := n - (|q| - |r|);
    forall i | 0 <= i < |r| && i != m ensures r[i].boundary != boundary {
      assert q[i + (|q| - |r|)].boundary != q[n].boundary;
    }
    SameBucket(r, m);
  }

  lemma FullBuckets(q: Queue)
    requires forall b | b in q :: BucketHolds(b)
    ensures forall b | b in q :: b.entries != []
  {
  }

  // ---- The winner --------------------------------------------------------------------------------

  function TerminalRank(e: Envelope): int { if Terminal(e.proposal) then 1 else 0 }

  /** `i` goes before `j`: terminal first, then the higher priority, then the earlier. */
  predicate GoesBefore(es: seq<Envelope>, i: nat, j: nat)
    requires i < |es| && j < |es|
  {
    || TerminalRank(es[i]) > TerminalRank(es[j])
    || (TerminalRank(es[i]) == TerminalRank(es[j])
        && (es[i].proposal.priority > es[j].proposal.priority || (es[i].proposal.priority == es[j].proposal.priority && i < j)))
  }

  /** The winner goes before every other entry. */
  lemma WinnerIsTheFirst(es: seq<Envelope>) returns (w: nat)
    requires es != []
    ensures w < |es| && Winner(es) == Some(es[w])
    ensures forall j | 0 <= j < |es| && j != w :: GoesBefore(es, w, j)
  {
    var xs := Indexed(es);
    var r := Sort(xs, Rank);
    SortSorts(xs, Rank);
    assert r[0] in multiset(r);
    assert r[0] in xs;
    var i :| 0 <= i < |xs| && xs[i] == r[0];
    w := i;
    forall j | 0 <= j < |es| && j != w ensures GoesBefore(es, w, j) {
      assert xs[j] in multiset(xs);
      assert xs[j] in r;
      var k :| 0 <= k < |r| && r[k] == xs[j];
      NotLess(r, k);
    }
  }

  lemma NotLess(r: seq<Ranked>, k: nat)
    requires Sorted(r, Rank) && 0 < |r| && k < |r|
    ensures !Less(Rank(r[k]), Rank(r[0]))
  {
  }

  // ---- The decision ----------------------------------------------------------------------------

  lemma JoinedFits(head: Text, tail: Text)
    ensures Joined(head, tail).Some? ==>
      var m := Joined(head, tail).value;
      && |m| <= MAX_MESSAGE_CHARS && m != []
      && EndsWith(m, tail) && Take(head, MAX_MESSAGE_CHARS - |tail| - |SEPARATOR|) <= m
  {
    if Joined(head, tail).Some? {
      var front := Take(head, MAX_MESSAGE_CHARS - |tail| - |SEPARATOR|) + SEPARATOR;
      assert (front + tail)[|front|..] == tail;
    }
  }

  predicate Fits(d: Delivery) { d.message.Some? ==> |d.message.value| <= MAX_MESSAGE_CHARS }

  lemma WithRequirementHolds(d: Delivery, v: Option<Envelope>)
    requires Fits(d)
    ensures var (r, merged) := WithRequirement(d, v);
      && Fits(r)
      && (merged ==> v.Some? && v.value.delivery.message.Some? && r.message.Some? && EndsWith(r.message.value, v.value.delivery.message.value))
  {
    hide Joined;
    if v.Some? && d.message.Some? && v.value.delivery.message.Some? { JoinedFits(d.message.value, v.value.delivery.message.value); }
  }

  lemma WithLensHolds(d: Delivery, l: Option<Envelope>)
    requires Fits(d)
    ensures var (r, merged) := WithLens(d, l);
      && Fits(r) && (d.message.Some? ==> r.message.Some? && EndsWith(r.message.value, d.message.value))
  {
    hide Joined;
    if d.message.Some? { assert d.message.value[0..] == d.message.value; }
    if l.Some? && d.message.Some? && l.value.delivery.message.Some? { JoinedFits(l.value.delivery.message.value, d.message.value); }
  }

  lemma EndsWithin(a: Text, b: Text, c: Text)
    requires EndsWith(a, b) && EndsWith(b, c)
    ensures EndsWith(a, c)
  {
    assert a[|a| - |b|..][|b| - |c|..] == a[|a| - |c|..];
  }

  /** The message stays within its limit and a merged requirement stays whole at its end,
      also behind a lens. */
  lemma RequirementStaysWhole(es: seq<Envelope>, boundary: int, mode: Mode)
    requires EntriesHold(es, boundary)
    ensures var o := Decided(es, boundary, mode);
      && (o.delivery.Some? ==> Fits(o.delivery.value))
      && (o.verificationMerged ==>
            var v := FirstThat(es, IsRequirement);
            && v.Some? && o.delivery.Some? && o.delivery.value.message.Some?
            && EndsWith(o.delivery.value.message.value, v.value.delivery.message.value))
  {
    hide IsProposal, WithRequirement, WithLens, Winner, LegacyCount, EndsWith, Acts, FirstThat;
    if es != [] {
      var i := WinnerIsTheFirst(es);
      var w := es[i];
      assert w in es;
      var v, l := Requirement(es, w, mode), Lens(es, w, mode);
      WithRequirementHolds(w.delivery, v);
      var (d1, merged) := WithRequirement(w.delivery, v);
      WithLensHolds(d1, l);
      var (d2, _) := WithLens(d1, l);
      if merged { EndsWithin(d2.message.value, d1.message.value, v.value.delivery.message.value); }
    } else {
      NoWinner();
    }
  }

  lemma NoWinner()
    ensures Winner([]) == None
  {
  }

  /** The winner, the requirement and the lens are three different proposals. */
  lemma MergedAreDifferent(es: seq<Envelope>, w: Envelope, mode: Mode)
    requires DistinctIds(es) && w in es
    ensures var v, l := Requirement(es, w, mode), Lens(es, w, mode);
      && (v.Some? ==> v.value in es && v.value.proposal.id != w.proposal.id)
      && (l.Some? ==> l.value in es && l.value.proposal.id != w.proposal.id)
      && (v.Some? && l.Some? ==> v.value.proposal.id != l.value.proposal.id)
  {
    var v, l := Requirement(es, w, mode), Lens(es, w, mode);
    if v.Some? { IdsDiffer(es, v.value, w); }
    if l.Some? { IdsDiffer(es, l.value, w); }
    if v.Some? && l.Some? { IdsDiffer(es, v.value, l.value); }
  }

  lemma IdsDiffer(es: seq<Envelope>, a: Envelope, b: Envelope)
    requires DistinctIds(es) && a in es && b in es && a != b
    ensures a.proposal.id != b.proposal.id
  {
    var i :| 0 <= i < |es| && es[i] == a;
    var j :| 0 <= j < |es| && es[j] == b;
    assert i < j || j < i;
  }

  predicate NoRepeats(ids: seq<Text>) { forall i, j | 0 <= i < j < |ids| :: ids[i] != ids[j] }

  /** What counts as delivered: nothing unless the arbiter enforces and acts on the winner;
      then the winner first, and each merged proposal once. */
  lemma DeliveredHolds(es: seq<Envelope>, boundary: int, mode: Mode)
    requires EntriesHold(es, boundary)
    ensures var o := Decided(es, boundary, mode);
      && NoRepeats(o.decision.delivered)
      && (forall id | id in o.decision.delivered :: HasId(es, id) && Authority.IsHash(id))
      && (o.decision.delivered != [] <==>
            mode.Enforce? && es != [] && Acts(o.decision.winner.value, o.delivery.value))
      && (o.decision.delivered != [] ==> o.decision.delivered[0] == o.decision.winner.value.id)
      && |o.decision.delivered| <= |es|
  {
    hide Sort, LegacyCount, WithRequirement, WithLens, Acts;
    if es != [] {
      var i := WinnerIsTheFirst(es);
      var w := es[i];
      var v, l := Requirement(es, w, mode), Lens(es, w, mode);
      MergedAreDifferent(es, w, mode);
      hide Requirement, Lens, Winner, Authority.IsHash;
      assert w in es;
      AtLeast(es, w, v, l);
    }
  }

  /** Different members need as many places. */
  lemma AtLeast(es: seq<Envelope>, w: Envelope, v: Option<Envelope>, l: Option<Envelope>)
    requires w in es && (v.Some? ==> v.value in es && v.value != w) && (l.Some? ==> l.value in es && l.value != w)
    requires v.Some? && l.Some? ==> v.value != l.value
    ensures 1 + (if v.Some? then 1 else 0) + (if l.Some? then 1 else 0) <= |es|
  {
    var i :| 0 <= i < |es| && es[i] == w;
    if v.Some? {
      var j :| 0 <= j < |es| && es[j] == v.value;
      assert i != j;
      if l.Some? {
        var k :| 0 <= k < |es| && es[k] == l.value;
        assert k != i && k != j;
      }
    } else if l.Some? {
      var k :| 0 <= k < |es| && es[k] == l.value;
      assert i != k;
    }
  }

  /** Every decision passes the validator its listeners run. */
  lemma DecisionsAreValid(q: Queue, boundary: int, mode: Mode)
    requires ValidQueue(q) && 0 <= boundary <= MAX_SAFE
    ensures var (r, o) := Deciding(q, boundary, mode);
      && IsDecision(o.decision) && ValidQueue(r) && EntriesAt(r, boundary) == []
      && o.decision.proposalCount == |EntriesAt(q, boundary)|
  {
    var es := EntriesAt(q, boundary);
    EntriesIn(q, boundary);
    FewEntries(q, boundary);
    WithoutHolds(q, boundary);
    hide ValidQueue, Authority.IsHash, IsProposal;
    DeliveredHolds(es, boundary, mode);
    if es != [] {
      var i := WinnerIsTheFirst(es);
      assert es[i] in es;
    }
    hide Winner, WithRequirement, WithLens, Acts, Requirement, Lens, EntriesHold, NoRepeats;
  }

  lemma FewEntries(q: Queue, boundary: int)
    requires ValidQueue(q)
    ensures |EntriesAt(q, boundary)| <= MAX_PENDING
  {
    var n := BucketAt(q, boundary);
    if n < |q| { TotalUpdate(q, n, Bucket(boundary, [])); }
  }

  lemma WithoutHolds(q: Queue, boundary: int)
    requires ValidQueue(q)
    ensures ValidQueue(Without(q, boundary)) && EntriesAt(Without(q, boundary), boundary) == []
  {
    hide BucketHolds, BucketAt, Total, Without;
    WithoutTotal(q, boundary);
    WithoutBuckets(q, boundary);
    var r := Without(q, boundary);
    forall b | b in r ensures BucketHolds(b) && b.boundary != boundary {
      var i :| 0 <= i < |r| && r[i] == b;
    }
    forall i, j | 0 <= i < j < |r| ensures r[i].boundary != r[j].boundary {}
    NoBucket(r, boundary);
  }

  lemma NoBucket(q: Queue, boundary: int)
    requires forall i | 0 <= i < |q| :: q[i].boundary != boundary
    ensures EntriesAt(q, boundary) == []
  {
  }

  lemma WithoutTotal(q: Queue, boundary: int)
    ensures Total(Without(q, boundary)) <= Total(q)
  {
    var n := BucketAt(q, boundary);
    if n < |q| {
      hide BucketAt;
      var front, back := q[..n], q[n + 1..];
      assert q == front + ([q[n]] + back);
      TotalConcat(front, [q[n]] + back);
      TotalConcat(front, back);
      assert ([q[n]] + back)[1..] == back;
    }
  }

  /** What stays keeps its order and is for other boundaries. */
  lemma WithoutBuckets(q: Queue, boundary: int)
    requires DistinctBoundaries(q)
    ensures var n, r := BucketAt(q, boundary), Without(q, boundary);
      forall i | 0 <= i < |r| :: (if i < n then i else i + 1) < |q| && r[i] == q[if i < n then i else i + 1] && r[i] in q && r[i].boundary != boundary
  {
    hide BucketAt;
    var n, r := BucketAt(q, boundary), Without(q, boundary);
    forall i | 0 <= i < |r| ensures (if i < n then i else i + 1) < |q| && r[i] == q[if i < n then i else i + 1] {}
  }
}
