/** The arbiter's queue as it is kept: a map of buckets changed by adding and deciding. */
module ArbiterQueue {
  import opened Utf
  import opened StableSort
  import opened Arbiter
  import opened ArbiterFacts

  class ControlArbiterQueue {
    var pending: Queue

    constructor ()
      ensures pending == []
    {
      pending := [];
    }

    method Clear()
      modifies this
      ensures pending == []
    {
      pending := [];
    }

    method CountPending() returns (total: nat)
      ensures total == Total(pending)
    {
      total := 0;
      for i := 0 to |pending|
        invariant total == Total(pending[..i])
      {
        assert pending[..i + 1] == pending[..i] + [pending[i]];
        TotalConcat(pending[..i], [pending[i]]);
        OneBucket(pending[i]);
        total := total + |pending[i].entries|;
      }
      assert pending[..|pending|] == pending;
    }

    method Add(e: Envelope)
      requires ValidQueue(pending) && IsProposal(e.proposal)
      modifies this
      ensures pending == Added(old(pending), e) && ValidQueue(pending)
    {
      hide ValidQueue, HasId, BucketHolds, DistinctBoundaries, Total, Flat, IsProposal, EvictOldest;
      AddedValid(pending, e);
      var n := BucketAt(pending, e.proposal.boundary);
      var bucket := if n < |pending| then pending[n].entries else [];
      if HasId(bucket, e.proposal.id) { return; }
      InsertedBuckets(pending, e);
      Small(pending);
      bucket := bucket + [Bounded(e)];
      pending := if n < |pending| then pending[n := pending[n].(entries := bucket)] else pending + [Bucket(e.proposal.boundary, bucket)];
      assert [] + [Bounded(e)] == [Bounded(e)];
      assert pending == Inserted(old(pending), e);
      ghost var inserted := pending;
      FirstIsFull(inserted);
      EvictedFlat(inserted);
      var total := CountPending();
      while total > MAX_PENDING
        invariant total == Total(pending) <= MAX_PENDING + 1
        invariant total > MAX_PENDING ==> pending == inserted
        invariant total <= MAX_PENDING ==> pending == Added(old(pending), e)
      {
        pending := EvictOldest(pending);
        total := total - 1;
      }
    }

    method Decide(boundary: int, mode: Mode) returns (o: Outcome)
      modifies this
      ensures (pending, o) == Deciding(old(pending), boundary, mode)
    {
      hide Sort, FirstThat, Joined, LegacyCount, Acts;
      var n := BucketAt(pending, boundary);
      var es := if n < |pending| then pending[n].entries else [];
      if n < |pending| { pending := pending[..n] + pending[n + 1..]; }
      if es == [] {
        NoWinner();
        return Outcome(Decision(boundary, mode, 0, 0, LegacyCount(es), None, []), None, false, false);
      }
      SortSorts(Indexed(es), Rank);
      var winner := Sort(Indexed(es), Rank)[0].0;
      var verification := Requirement(es, winner, mode);
      var lens := Lens(es, winner, mode);
      var delivery, verificationMerged, lensMerged := winner.delivery, false, false;
      if verification.Some? && delivery.message.Some? && verification.value.delivery.message.Some? {
        var m := Joined(delivery.message.value, verification.value.delivery.message.value);
        if m.Some? { delivery, verificationMerged := delivery.(message := m), true; }
      }
      if lens.Some? && delivery.message.Some? && lens.value.delivery.message.Some? {
        var m := Joined(lens.value.delivery.message.value, delivery.message.value);
        if m.Some? { delivery, lensMerged := delivery.(message := m), true; }
      }
      var delivered: seq<Text> := [];
      if mode.Enforce? && Acts(winner.proposal, delivery) {
        delivered := [winner.proposal.id] + (if verificationMerged then [verification.value.proposal.id] else [])
                                          + (if lensMerged then [lens.value.proposal.id] else []);
      }
      o := Outcome(Decision(boundary, mode, |es|, |es| - 1, LegacyCount(es), Some(winner.proposal), delivered),
                   Some(delivery), lensMerged, verificationMerged);
    }
  }

  lemma Small(q: Queue)
    requires ValidQueue(q)
    ensures Total(q) <= MAX_PENDING
  {
  }

  lemma FirstIsFull(q: Queue)
    requires q != [] && forall b | b in q :: BucketHolds(b)
    ensures q[0].entries != []
  {
    assert q[0] in q;
  }
}
