/**
 Reservations of output tokens: one entry for each operation, in the order they were
 made, each bound to the serving epoch it was made in.
 */
module Reservations {
  import opened Utf

  /** A JavaScript number. */
  datatype Num = NotFinite | Finite(value: real)

  /** What a serving epoch is identified by. */
  datatype Epoch = Epoch(provider: Text, model: Text, endpoint: Text, declared: Option<Num>, served: Option<Num>)

  datatype Reservation = Reservation(id: Text, epoch: Epoch, tokens: nat)

  datatype Refusal = Invalid | Inflation | BudgetExceeded | Unavailable

  datatype ReservationResult = Reserved(id: Text, epoch: Epoch, tokens: nat, idempotent: bool) | Refused(reason: Refusal)

  function Ceil(r: real): (n: int)
    ensures r <= n as real < r + 1.0
  {
    if r.Floor as real == r then r.Floor else r.Floor + 1
  }

  predicate DistinctIds(rs: seq<Reservation>) { forall i, j | 0 <= i < j < |rs| :: rs[i].id != rs[j].id }

  function Find(rs: seq<Reservation>, id: Text): (n: nat)
    ensures n <= |rs|
    ensures n < |rs| ==> rs[n].id == id
    ensures n == |rs| ==> forall r | r in rs :: r.id != id
    decreases |rs|
  {
    if rs == [] then 0
    else
      var n := Find(rs[..|rs| - 1], id);
      assert rs == rs[..|rs| - 1] + [rs[|rs| - 1]];
      if n < |rs| - 1 then n else if rs[|rs| - 1].id == id then |rs| - 1 else |rs|
  }

  /** The tokens reserved in an epoch. */
  function Sum(rs: seq<Reservation>, e: Epoch): nat {
    if rs == [] then 0
    else Sum(rs[..|rs| - 1], e) + if rs[|rs| - 1].epoch == e then rs[|rs| - 1].tokens else 0
  }

  function Count(rs: seq<Reservation>, e: Epoch): nat {
    if rs == [] then 0
    else Count(rs[..|rs| - 1], e) + if rs[|rs| - 1].epoch == e then 1 else 0
  }

  /** The entries of one epoch. */
  function Only(rs: seq<Reservation>, e: Epoch): (r: seq<Reservation>)
    ensures forall x :: x in r <==> x in rs && x.epoch == e
  {
    if rs == [] then []
    else
      assert rs == rs[..|rs| - 1] + [rs[|rs| - 1]];
      Only(rs[..|rs| - 1], e) + if rs[|rs| - 1].epoch == e then [rs[|rs| - 1]] else []
  }

  function Remove(rs: seq<Reservation>, id: Text): (r: seq<Reservation>)
    ensures |r| <= |rs|
  {
    var n := Find(rs, id);
    if n < |rs| then rs[..n] + rs[n + 1..] else rs
  }

  /** What reserving does and answers. */
  function Reserving(rs: seq<Reservation>, id: Text, e: Epoch, tokens: Num, allowance: Num): (seq<Reservation>, ReservationResult) {
    if id == [] || !tokens.Finite? || tokens.value < 0.0 || !allowance.Finite? || allowance.value < 0.0 then (rs, Refused(Invalid))
    else
      var wanted := Ceil(tokens.value);
      var n := Find(rs, id);
      if n < |rs| then
        if rs[n].epoch != e || rs[n].tokens != wanted then (rs, Refused(Inflation))
        else (rs, Reserved(id, e, wanted, true))
      else if Sum(rs, e) + wanted > allowance.value.Floor then (rs, Refused(BudgetExceeded))
      else (rs + [Reservation(id, e, wanted)], Reserved(id, e, wanted, false))
  }

  lemma {:induction false} SumConcat(a: seq<Reservation>, b: seq<Reservation>, e: Epoch)
    ensures Sum(a + b, e) == Sum(a, e) + Sum(b, e)
  {
    if b == [] {
      assert a + b == a;
    } else {
      assert (a + b)[..|a| + |b| - 1] == a + b[..|b| - 1];
      SumConcat(a, b[..|b| - 1], e);
    }
  }

  /** Reserving leaves the ledger alone or ends within the allowance, a fractional one too,
      whatever was reserved before and in whatever epochs. */
  lemma ReservingStaysWithin(rs: seq<Reservation>, id: Text, e: Epoch, tokens: Num, allowance: Num)
    ensures var after := Reserving(rs, id, e, tokens, allowance).0;
      after == rs || (allowance.Finite? && Sum(after, e) as real <= allowance.value)
  {
    var r := Reserving(rs, id, e, tokens, allowance);
    if r.1.Reserved? && !r.1.idempotent {
      var x := Reservation(id, e, r.1.tokens);
      assert (rs + [x])[..|rs|] == rs;
    }
  }

  /** Asking again with the same amount answers the same and changes nothing. */
  lemma ReservingTwice(rs: seq<Reservation>, id: Text, e: Epoch, tokens: Num, allowance: Num, allowance': Num)
    requires Reserving(rs, id, e, tokens, allowance).1.Reserved?
    requires allowance'.Finite? && allowance'.value >= 0.0
    ensures var (after, answer) := Reserving(rs, id, e, tokens, allowance);
      Reserving(after, id, e, tokens, allowance') == (after, answer.(idempotent := true))
  {
    var (after, answer) := Reserving(rs, id, e, tokens, allowance);
    if !answer.idempotent {
      var x := Reservation(id, e, answer.tokens);
      assert (rs + [x])[..|rs|] == rs;
      assert Find(after, id) == |rs|;
    }
  }

  lemma ReservingKeepsDistinct(rs: seq<Reservation>, id: Text, e: Epoch, tokens: Num, allowance: Num)
    requires DistinctIds(rs)
    ensures DistinctIds(Reserving(rs, id, e, tokens, allowance).0)
    ensures forall x | x in Reserving(rs, id, e, tokens, allowance).0 ::
      x in rs || (x.id == id && x.epoch == e && Reserving(rs, id, e, tokens, allowance).1.Reserved?)
  {
    if Find(rs, id) == |rs| {
      assert forall i | 0 <= i < |rs| :: rs[i] in rs;
    }
  }

  /** Releasing an id takes its reservation out and keeps all others in order. */
  lemma RemoveReleases(rs: seq<Reservation>, id: Text, e: Epoch)
    requires DistinctIds(rs)
    ensures DistinctIds(Remove(rs, id)) && Find(Remove(rs, id), id) == |Remove(rs, id)|
    ensures forall x :: x in Remove(rs, id) <==> x in rs && x.id != id
    ensures Sum(Remove(rs, id), e) <= Sum(rs, e)
  {
    hide Sum, DistinctIds, Find;
    var n := Find(rs, id);
    if n < |rs| {
      RemoveAt(rs, n);
      var a, b := rs[..n], rs[n + 1..];
      SumConcat(a, b, e);
      SumConcat(a, [rs[n]] + b, e);
      SumConcat([rs[n]], b, e);
      assert rs == a + ([rs[n]] + b);
    }
  }

  lemma RemoveAt(rs: seq<Reservation>, n: nat)
    requires DistinctIds(rs) && n < |rs|
    ensures var r := rs[..n] + rs[n + 1..];
      DistinctIds(r) && forall x :: x in r <==> x in rs && x.id != rs[n].id
  {
    var r := rs[..n] + rs[n + 1..];
    forall i | 0 <= i < |r| ensures r[i] == rs[if i < n then i else i + 1] {}
    forall x ensures x in r <==> x in rs && x.id != rs[n].id {
      if x in rs && x.id != rs[n].id {
        var i :| 0 <= i < |rs| && rs[i] == x;
        assert r[if i < n then i else i - 1] == x;
      }
      if x in r {
        var i :| 0 <= i < |r| && r[i] == x;
        assert rs[if i < n then i else i + 1] == x;
      }
    }
  }

  class ContextReservationLedger {
    var reservations: seq<Reservation>

    constructor ()
      ensures reservations == []
    {
      reservations := [];
    }

    method Lookup(id: Text) returns (n: nat)
      ensures n == Find(reservations, id)
    {
      n := 0;
      while n < |reservations| && reservations[n].id != id
        invariant n <= |reservations|
        invariant Find(reservations[..n], id) == n
      {
        assert reservations[..n + 1][..n] == reservations[..n];
        n := n + 1;
      }
      FoundAt(reservations, id, n);
    }

    method Snapshot(e: Epoch) returns (reserved: nat, count: nat)
      ensures reserved == Sum(reservations, e) && count == Count(reservations, e)
    {
      reserved, count := 0, 0;
      for i := 0 to |reservations|
        invariant reserved == Sum(reservations[..i], e) && count == Count(reservations[..i], e)
      {
        assert reservations[..i + 1][..i] == reservations[..i];
        if reservations[i].epoch == e { reserved, count := reserved + reservations[i].tokens, count + 1; }
      }
      assert reservations[..|reservations|] == reservations;
    }

    method Reserve(id: Text, e: Epoch, tokens: Num, allowance: Num) returns (r: ReservationResult)
      modifies this
      ensures (reservations, r) == Reserving(old(reservations), id, e, tokens, allowance)
    {
      if id == [] || !tokens.Finite? || tokens.value < 0.0 || !allowance.Finite? || allowance.value < 0.0 { return Refused(Invalid); }
      var wanted := Ceil(tokens.value);
      var n := Lookup(id);
      if n < |reservations| {
        var existing := reservations[n];
        if existing.epoch != e || existing.tokens != wanted { return Refused(Inflation); }
        return Reserved(id, e, wanted, true);
      }
      var reserved, _ := Snapshot(e);
      if reserved + wanted > allowance.value.Floor { return Refused(BudgetExceeded); }
      reservations := reservations + [Reservation(id, e, wanted)];
      return Reserved(id, e, wanted, false);
    }

    method Release(id: Text)
      modifies this
      ensures reservations == Remove(old(reservations), id)
    {
      var n := Lookup(id);
      if n < |reservations| { reservations := reservations[..n] + reservations[n + 1..]; }
    }

    /** Drops everything, or everything from other epochs. */
    method Reset(e: Option<Epoch>)
      modifies this
      ensures reservations == if e.None? then [] else Only(old(reservations), e.value)
    {
      if e.None? {
        reservations := [];
        return;
      }
      var kept: seq<Reservation> := [];
      for i := 0 to |reservations|
        invariant kept == Only(reservations[..i], e.value) && reservations == old(reservations)
      {
        assert reservations[..i + 1][..i] == reservations[..i];
        if reservations[i].epoch == e.value { kept := kept + [reservations[i]]; }
      }
      assert reservations[..|reservations|] == reservations;
      reservations := kept;
    }
  }

  lemma {:induction false} FoundAt(rs: seq<Reservation>, id: Text, n: nat)
    requires n <= |rs| && Find(rs[..n], id) == n && (n < |rs| ==> rs[n].id == id)
    ensures Find(rs, id) == n
    decreases |rs|
  {
    if n == |rs| {
      assert rs[..n] == rs;
    } else if n == |rs| - 1 {
      assert rs[..n] == rs[..|rs| - 1];
    } else {
      assert rs[..|rs| - 1][..n] == rs[..n];
      FoundAt(rs[..|rs| - 1], id, n);
    }
  }
}
