/** White space and trimming, as JavaScript's strings know them. */
module Spaces {
  import opened Utf

  /** White space as `String.prototype.trim` knows it. */
  predicate IsSpace(u: Unit) {
    || 9 <= u <= 13 || u == 0x20 || u == 0xA0 || u == 0x1680 || 0x2000 <= u <= 0x200A
    || u == 0x2028 || u == 0x2029 || u == 0x202F || u == 0x205F || u == 0x3000 || u == BOM
  }

  predicate AllSpace(t: Text) { forall u | u in t :: IsSpace(u) }

  function TrimStart(t: Text): (r: Text)
    ensures r != [] ==> !IsSpace(r[0])
    ensures r == [] <==> AllSpace(t)
    ensures forall u | u in r :: u in t
  {
    if t == [] then []
    else if IsSpace(t[0]) then TrimStart(t[1..])
    else assert t[0] in t; t
  }

  function TrimEnd(t: Text): (r: Text)
    ensures r <= t
    ensures r == [] <==> AllSpace(t)
  {
    if t == [] then []
    else if IsSpace(t[|t| - 1]) then
      var r := TrimEnd(t[..|t| - 1]);
      assert t == t[..|t| - 1] + [t[|t| - 1]];
      r
    else assert t[|t| - 1] in t; t
  }

  function Trim(t: Text): Text { TrimEnd(TrimStart(t)) }

  /** `v` is what is left between white space at both ends. */
  predicate Stripped(t: Text, a: Text, v: Text, b: Text) {
    && t == a + v + b && AllSpace(a) && AllSpace(b)
    && (v != [] ==> !IsSpace(v[0]) && !IsSpace(v[|v| - 1]))
  }

  lemma {:induction false} TrimStartIs(t: Text) returns (a: Text)
    ensures t == a + TrimStart(t) && AllSpace(a)
  {
    a := [];
    if t != [] && IsSpace(t[0]) {
      var rest := TrimStartIs(t[1..]);
      a := [t[0]] + rest;
    }
  }

  lemma {:induction false} TrimEndIs(t: Text) returns (b: Text)
    ensures t == TrimEnd(t) + b && AllSpace(b)
    ensures TrimEnd(t) != [] ==> !IsSpace(TrimEnd(t)[|TrimEnd(t)| - 1])
  {
    b := [];
    if t != [] && IsSpace(t[|t| - 1]) {
      var rest := TrimEndIs(t[..|t| - 1]);
      b := rest + [t[|t| - 1]];
    }
  }

  lemma TrimIs(t: Text) returns (a: Text, v: Text, b: Text)
    ensures v == Trim(t) && Stripped(t, a, v, b)
  {
    a := TrimStartIs(t);
    b := TrimEndIs(TrimStart(t));
    v := Trim(t);
    hide IsSpace;
  }

  lemma {:induction false} TrimEndOf(t: Text, b: Text)
    requires AllSpace(b) && (t != [] ==> !IsSpace(t[|t| - 1]))
    ensures TrimEnd(t + b) == t
  {
    if b == [] {
      assert t + b == t;
    } else {
      assert (t + b)[..|t + b| - 1] == t + b[..|b| - 1];
      TrimEndOf(t, b[..|b| - 1]);
    }
  }

  lemma {:induction false} TrimStartOf(a: Text, t: Text)
    requires AllSpace(a) && (t != [] ==> !IsSpace(t[0]))
    ensures TrimStart(a + t) == t
  {
    if a == [] {
      assert a + t == t;
    } else {
      assert (a + t)[1..] == a[1..] + t;
      TrimStartOf(a[1..], t);
    }
  }

  /** There is only one way to take the white space off. */
  lemma TrimOf(t: Text, a: Text, v: Text, b: Text)
    requires Stripped(t, a, v, b)
    ensures Trim(t) == v
  {
    hide IsSpace;
    if v == [] {
      assert TrimStart(t) == [];
    } else {
      assert t == a + (v + b);
      TrimStartOf(a, v + b);
      TrimEndOf(v, b);
    }
  }
}
