/** Continuation requests, receipts and what a session log says was delivered
    (harness/lib/continuation-authority.ts). */
module Authority {
  import opened Utf

  datatype Scope = GoalScope | PlanScope | SessionScope

  /** A request to start another provider turn. */
  datatype Request = Request(
    session: Text, owner: Text, generation: Text, scope: Scope,
    priority: nat, key: Text, message: Text, expiresAt: nat)

  datatype Receipt = Receipt(key: Text, session: Text, deliveredAt: int, revision: Option<(Text, Text)>)

  /** An entry of a session log: a receipt, well formed or not, or something else. */
  datatype Entry = ReceiptEntry(receipt: Receipt) | OtherEntry

  const MAX_CHARS := 4000

  predicate IsHexUnit(u: Unit) { 48 <= u <= 57 || 97 <= u <= 102 }

  predicate IsHash(t: Text) { |t| == 64 && forall i | 0 <= i < 64 :: IsHexUnit(t[i]) }

  predicate IsRequest(r: Request) {
    && IsHash(r.session) && IsHash(r.owner) && 1 <= |r.generation| <= 256
    && r.priority <= 1000 && 1 <= |r.key| <= 512 && 1 <= |r.message| <= MAX_CHARS && r.expiresAt > 0
  }

  predicate IsReceipt(r: Receipt) {
    && r.key != [] && IsHash(r.session) && r.deliveredAt > 0
    && (r.revision.Some? ==> IsHash(r.revision.value.0) && 1 <= |r.revision.value.1| <= 256)
  }

  /** One revision of one owner, whichever producer speaks for it. */
  function OwnerKey(owner: Text, generation: Text): Text { owner + [58] + generation }

  /** The separator cannot confuse two revisions. */
  lemma OwnerKeyInjective(owner: Text, generation: Text, owner': Text, generation': Text)
    requires IsHash(owner) && IsHash(owner') && OwnerKey(owner, generation) == OwnerKey(owner', generation')
    ensures owner == owner' && generation == generation'
  {
    var k, k' := OwnerKey(owner, generation), OwnerKey(owner', generation');
    assert owner == k[..64] && owner' == k'[..64];
    assert generation == k[65..] && generation' == k'[65..];
  }

  predicate Counts(e: Entry, session: Text) {
    e.ReceiptEntry? && IsReceipt(e.receipt) && e.receipt.session == session
  }

  /** The keys already delivered in a session, read from its log. */
  function Receipts(entries: seq<Entry>, session: Text): set<Text> {
    set e | e in entries && Counts(e, session) :: e.receipt.key
  }

  function RevisionKey(r: Receipt): Text
    requires r.revision.Some?
  {
    OwnerKey(r.revision.value.0, r.revision.value.1)
  }

  /** The owner revisions already delivered in a session. */
  function OwnerRevisions(entries: seq<Entry>, session: Text): set<Text> {
    set e | e in entries && Counts(e, session) && e.receipt.revision.Some? :: RevisionKey(e.receipt)
  }

  /** One of the log's receipts, and what makes it one: its own key, the session's digest, a time of
      delivery and, where it names an owner's revision, the owner's digest and a short generation. */
  predicate Logged(entries: seq<Entry>, session: Text, r: Receipt) {
    && ReceiptEntry(r) in entries && r.session == session
    && r.key != [] && IsHash(session) && r.deliveredAt > 0
    && (match r.revision
        case None => true
        case Some((owner, generation)) => IsHash(owner) && generation != [] && |generation| <= 256)
  }

  /** What a log says was delivered in a session, key by key and revision by revision. */
  lemma DeliveredExactly(entries: seq<Entry>, session: Text, key: Text, owner: Text, generation: Text)
    requires IsHash(owner)
    ensures key in Receipts(entries, session) <==> exists r :: Logged(entries, session, r) && r.key == key
    ensures OwnerKey(owner, generation) in OwnerRevisions(entries, session) <==>
      exists r :: Logged(entries, session, r) && r.revision == Some((owner, generation))
  {
    hide IsHash;
    assert forall e | e in entries && Counts(e, session) :: Logged(entries, session, e.receipt);
    assert forall r | Logged(entries, session, r) :: Counts(ReceiptEntry(r), session);
    if exists r :: Logged(entries, session, r) && r.key == key {
      var r :| Logged(entries, session, r) && r.key == key;
      assert Counts(ReceiptEntry(r), session);
    }
    if OwnerKey(owner, generation) in OwnerRevisions(entries, session) {
      var e :| e in entries && Counts(e, session) && e.receipt.revision.Some? && RevisionKey(e.receipt) == OwnerKey(owner, generation);
      OwnerKeyInjective(owner, generation, e.receipt.revision.value.0, e.receipt.revision.value.1);
      assert Logged(entries, session, e.receipt);
    }
    if r :| Logged(entries, session, r) && r.revision == Some((owner, generation)) {
      assert Counts(ReceiptEntry(r), session) && RevisionKey(r) == OwnerKey(owner, generation);
    }
  }

  method ContinuationReceipts(entries: seq<Entry>, session: Text) returns (delivered: set<Text>)
    ensures delivered == Receipts(entries, session)
  {
    delivered := {};
    for i := 0 to |entries|
      invariant delivered == Receipts(entries[..i], session)
    {
      AddedEntry(entries[..i], entries[i], session);
      assert entries[..i + 1] == entries[..i] + [entries[i]];
      if Counts(entries[i], session) { delivered := delivered + {entries[i].receipt.key}; }
    }
    assert entries[..|entries|] == entries;
  }

  method DeliveredOwnerGenerations(entries: seq<Entry>, session: Text) returns (delivered: set<Text>)
    ensures delivered == OwnerRevisions(entries, session)
  {
    delivered := {};
    for i := 0 to |entries|
      invariant delivered == OwnerRevisions(entries[..i], session)
    {
      AddedEntry(entries[..i], entries[i], session);
      assert entries[..i + 1] == entries[..i] + [entries[i]];
      if Counts(entries[i], session) && entries[i].receipt.revision.Some? {
        delivered := delivered + {RevisionKey(entries[i].receipt)};
      }
    }
    assert entries[..|entries|] == entries;
  }

  /** What one more entry adds to the two sets. */
  lemma AddedEntry(entries: seq<Entry>, e: Entry, session: Text)
    ensures Receipts(entries + [e], session)
         == Receipts(entries, session) + if Counts(e, session) then {e.receipt.key} else {}
    ensures OwnerRevisions(entries + [e], session)
         == OwnerRevisions(entries, session)
            + if Counts(e, session) && e.receipt.revision.Some? then {RevisionKey(e.receipt)} else {}
  {
    var all := entries + [e];
    forall k ensures k in Receipts(all, session) <==>
      k in Receipts(entries, session) || (Counts(e, session) && k == e.receipt.key)
    {
      if Counts(e, session) && k == e.receipt.key { assert e in all; }
      if x :| x in entries && Counts(x, session) && x.receipt.key == k { assert x in all; }
    }
    forall k ensures k in OwnerRevisions(all, session) <==>
      k in OwnerRevisions(entries, session)
      || (Counts(e, session) && e.receipt.revision.Some? && k == RevisionKey(e.receipt))
    {
      if Counts(e, session) && e.receipt.revision.Some? && k == RevisionKey(e.receipt) { assert e in all; }
      if x :| x in entries && Counts(x, session) && x.receipt.revision.Some? && RevisionKey(x.receipt) == k { assert x in all; }
    }
  }
}
