/** Bottom-k sketches of text blocks and their comparison
    (harness/lib/context-surface.ts). */
module Sketch {
  import opened Basics
  import opened Utf

  const K: nat := 64
  const MIN_CARDINALITY: nat := 16
  const MAX_BLOCK: nat := 8192

  /** 32-bit FNV-1a over the three units that start at `from`. */
  function ShingleHash(text: Text, from: nat): nat
    requires from + 3 <= |text|
  {
    var h0 := (0x811c9dc5 as bv32 ^ text[from] as bv32) * 0x01000193;
    var h1 := (h0 ^ text[from + 1] as bv32) * 0x01000193;
    var h2 := (h1 ^ text[from + 2] as bv32) * 0x01000193;
    h2 as nat
  }

  function Bounded(text: Text): (r: Text)
    ensures |r| == Min(8192, |text|) && r <= text
  {
    if |text| > MAX_BLOCK then text[..MAX_BLOCK] else text
  }

  /** The hashes of all shingles of the bounded block. */
  function Shingles(text: Text): set<nat> {
    set i | 0 <= i <= |Bounded(text)| - 3 :: ShingleHash(Bounded(text), i)
  }

  predicate Ascending(s: seq<nat>) { forall i, j | 0 <= i < j < |s| :: s[i] < s[j] }

  function Elements(s: seq<nat>): set<nat> { set x | x in s }

  /** `c` holds the `k` smallest members of `s`, or all of them if there are fewer. */
  predicate IsBottom(c: set<nat>, s: set<nat>, k: nat) {
    && c <= s && |c| == Min(k, |s|)
    && forall x, y | x in c && y in s - c :: x < y
  }

  /** The sketch of a set: its smallest members in ascending order. */
  predicate IsSketch(a: seq<nat>, s: set<nat>) {
    Ascending(a) && IsBottom(Elements(a), s, 64)
  }

  /** There is only one bottom of a set. */
  lemma BottomUnique(c: set<nat>, d: set<nat>, s: set<nat>, k: nat)
    requires IsBottom(c, s, k) && IsBottom(d, s, k)
    ensures c == d
  {
    if c <= d {
      SubsetSize(c, d);
    } else if d <= c {
      SubsetSize(d, c);
    } else {
      var x :| x in c && x !in d;
      var y :| y in d && y !in c;
      InBottom(c, s, k, x, y);
      InBottom(d, s, k, y, x);
    }
  }

  lemma InBottom(c: set<nat>, s: set<nat>, k: nat, x: nat, y: nat)
    requires IsBottom(c, s, k) && x in c && y in s && y !in c
    ensures x < y
  {
    assert y in s - c;
  }

  lemma {:induction false} SubsetSize<T>(c: set<T>, d: set<T>)
    requires c <= d
    ensures |c| <= |d|
    ensures |c| == |d| ==> c == d
  {
    if c != {} {
      var x :| x in c;
      SubsetSize(c - {x}, d - {x});
    }
  }

  lemma {:induction false} AscendingSize(s: seq<nat>)
    requires Ascending(s)
    ensures |Elements(s)| == |s|
  {
    if s != [] {
      var front, last := s[..|s| - 1], s[|s| - 1];
      AscendingSize(front);
      assert s == front + [last];
      assert Elements(s) == Elements(front) + {last};
      assert last !in Elements(front);
    }
  }

  // Building a sketch

  /** All hashes are put in a set, sorted, and the first `K` kept. */
  method BottomKSketch(text: Text) returns (sketch: seq<nat>)
    ensures IsSketch(sketch, Shingles(text))
  {
    var hashes := CollectHashes(text);
    var sorted := SortSet(hashes);
    AscendingSize(sorted);
    hide Shingles, Ascending, Elements;
    sketch := if |sorted| > K then sorted[..K] else sorted;
    FirstAreBottom(sorted, |sketch|);
    assert sorted[..|sorted|] == sorted;
  }

  method CollectHashes(text: Text) returns (hashes: set<nat>)
    ensures hashes == Shingles(text)
  {
    hide ShingleHash;
    var bounded := Bounded(text);
    hashes := {};
    var i: nat := 0;
    while i + 3 <= |bounded|
      invariant 0 <= i && (i + 3 <= |bounded| + 1 || i == 0)
      invariant hashes == set j | 0 <= j < i && j + 3 <= |bounded| :: ShingleHash(bounded, j)
    {
      hashes := hashes + {ShingleHash(bounded, i)};
      i := i + 1;
    }
  }

  method SortSet(s: set<nat>) returns (r: seq<nat>)
    ensures Ascending(r) && Elements(r) == s
  {
    r := [];
    var rest := s;
    while rest != {}
      invariant rest <= s && Elements(r) == s - rest && Ascending(r)
      invariant forall x, y | x in Elements(r) && y in rest :: x < y
      decreases |rest|
    {
      Least(rest);
      var x :| IsLeast(x, rest);
      TakeLeast(r, x, rest);
      r, rest := r + [x], rest - {x};
    }
  }

  lemma TakeLeast(r: seq<nat>, x: nat, rest: set<nat>)
    requires IsLeast(x, rest) && Ascending(r) && forall y, z | y in Elements(r) && z in rest :: y < z
    ensures Ascending(r + [x]) && Elements(r + [x]) == Elements(r) + {x}
    ensures forall y, z | y in Elements(r + [x]) && z in rest - {x} :: y < z
  {
    AppendLargest(r, x);
    hide Ascending;
  }

  lemma AppendLargest(r: seq<nat>, x: nat)
    requires Ascending(r) && forall y | y in Elements(r) :: y < x
    ensures Ascending(r + [x]) && Elements(r + [x]) == Elements(r) + {x}
  {
    forall i | 0 <= i < |r| ensures r[i] < x { assert r[i] in Elements(r); }
  }

  predicate IsLeast(x: nat, s: set<nat>) { x in s && forall y | y in s :: x <= y }

  lemma {:induction false} Least(s: set<nat>)
    requires s != {}
    ensures exists x :: IsLeast(x, s)
  {
    var x :| x in s;
    var rest := s - {x};
    assert s == rest + {x};
    if rest == {} {
      assert IsLeast(x, s);
    } else {
      Least(rest);
      var m :| IsLeast(m, rest);
      if m < x { assert IsLeast(m, s); } else { assert IsLeast(x, s); }
    }
  }

  lemma FirstAreBottom(sorted: seq<nat>, k: nat)
    requires Ascending(sorted) && k <= |sorted|
    ensures Ascending(sorted[..k]) && |Elements(sorted[..k])| == k
    ensures Elements(sorted[..k]) <= Elements(sorted)
    ensures forall x, y | x in Elements(sorted[..k]) && y in Elements(sorted) - Elements(sorted[..k]) :: x < y
  {
    AscendingSize(sorted[..k]);
    forall x, y | x in Elements(sorted[..k]) && y in Elements(sorted) - Elements(sorted[..k]) ensures x < y {
      var i :| 0 <= i < k && sorted[i] == x;
      var j :| 0 <= j < |sorted| && sorted[j] == y;
      assert forall m | 0 <= m < k :: sorted[m] in Elements(sorted[..k]) by {
        forall m | 0 <= m < k ensures sorted[m] in Elements(sorted[..k]) { assert sorted[..k][m] == sorted[m]; }
      }
    }
  }

  // Comparing two sketches

  /** All of `c` lies below what is left of `a`. */
  predicate Below(c: set<nat>, a: seq<nat>, i: nat) {
    forall x, k | x in c && i <= k < |a| :: x < a[k]
  }

  ghost function Consumed(a: seq<nat>, i: nat, b: seq<nat>, j: nat): set<nat>
    requires i <= |a| && j <= |b|
  {
    Elements(a[..i]) + Elements(b[..j])
  }

  ghost function Shared(a: seq<nat>, i: nat, b: seq<nat>, j: nat): set<nat>
    requires i <= |a| && j <= |b|
  {
    Elements(a[..i]) * Elements(b[..j])
  }

  /** What has been consumed lies below what is left of both sketches. */
  ghost predicate Walked(a: seq<nat>, i: nat, b: seq<nat>, j: nat)
    requires i <= |a| && j <= |b|
  {
    Below(Consumed(a, i, b, j), a, i) && Below(Consumed(a, i, b, j), b, j)
  }

  lemma TakeOne(a: seq<nat>, i: nat, c: set<nat>)
    requires Ascending(a) && i < |a| && Below(c, a, i)
    ensures Elements(a[..i + 1]) == Elements(a[..i]) + {a[i]} && a[i] !in c
    ensures Below(c + {a[i]}, a, i + 1)
  {
    assert a[..i + 1] == a[..i] + [a[i]];
  }

  /** The next element of `a` is below the rest of both, so it is new. */
  lemma StepA(a: seq<nat>, i: nat, b: seq<nat>, j: nat)
    requires Ascending(a) && Ascending(b) && i < |a| && j <= |b| && Walked(a, i, b, j)
    requires j < |b| ==> a[i] < b[j]
    ensures Walked(a, i + 1, b, j)
    ensures |Consumed(a, i + 1, b, j)| == |Consumed(a, i, b, j)| + 1 && |Shared(a, i + 1, b, j)| == |Shared(a, i, b, j)|
  {
    hide Elements, Below, Ascending;
    var c := Consumed(a, i, b, j);
    TakeOne(a, i, c);
    BelowWith(c, b, j, a[i]);
    AddOutside(Elements(a[..i]), Elements(b[..j]), a[i]);
    assert Consumed(a, i + 1, b, j) == c + {a[i]};
  }

  lemma BelowWith(c: set<nat>, b: seq<nat>, j: nat, x: nat)
    requires Below(c, b, j) && Ascending(b) && (j < |b| ==> x < b[j])
    ensures Below(c + {x}, b, j)
  {
  }

  lemma AddOutside(s: set<nat>, t: set<nat>, x: nat)
    requires x !in s + t
    ensures (s + {x}) * t == s * t && (s + {x}) + t == (s + t) + {x} && |(s + {x}) + t| == |s + t| + 1
  {
    assert (s + {x}) + t == (s + t) + {x};
  }

  lemma WalkedSwap(a: seq<nat>, i: nat, b: seq<nat>, j: nat)
    requires i <= |a| && j <= |b| && Walked(a, i, b, j)
    ensures Walked(b, j, a, i) && Consumed(b, j, a, i) == Consumed(a, i, b, j) && Shared(b, j, a, i) == Shared(a, i, b, j)
  {
    assert Shared(b, j, a, i) == Shared(a, i, b, j);
    assert Consumed(b, j, a, i) == Consumed(a, i, b, j);
  }

  /** Equal heads are taken together, and are shared. */
  lemma StepBoth(a: seq<nat>, i: nat, b: seq<nat>, j: nat)
    requires Ascending(a) && Ascending(b) && i < |a| && j < |b| && a[i] == b[j] && Walked(a, i, b, j)
    ensures Walked(a, i + 1, b, j + 1)
    ensures |Consumed(a, i + 1, b, j + 1)| == |Consumed(a, i, b, j)| + 1
    ensures |Shared(a, i + 1, b, j + 1)| == |Shared(a, i, b, j)| + 1
  {
    var c := Consumed(a, i, b, j);
    TakeOne(a, i, c);
    TakeOne(b, j, c);
    assert Consumed(a, i + 1, b, j + 1) == c + {a[i]};
    assert Shared(a, i + 1, b, j + 1) == Shared(a, i, b, j) + {a[i]};
  }

  /** The bottom of the union, which the merge of two sketches walks through. */
  ghost function UnionBottom(s: set<nat>): (c: set<nat>)
    ensures IsBottom(c, s, K)
  {
    BottomExists(s, K);
    var c :| IsBottom(c, s, K);
    c
  }

  lemma BottomWithLeast(c: set<nat>, x: nat, s: set<nat>, k: nat)
    requires IsLeast(x, s) && k > 0 && IsBottom(c, s - {x}, k - 1)
    ensures IsBottom(c + {x}, s, k)
  {
    assert x !in c && s - (c + {x}) == (s - {x}) - c;
    assert |s - {x}| == |s| - 1;
  }

  lemma {:induction false} BottomExists(s: set<nat>, k: nat)
    ensures exists c :: IsBottom(c, s, k)
    decreases k
  {
    if k == 0 || s == {} {
      assert IsBottom({}, s, k);
    } else {
      Least(s);
      var x :| IsLeast(x, s);
      BottomExists(s - {x}, k - 1);
      var c :| IsBottom(c, s - {x}, k - 1);
      BottomWithLeast(c, x, s, k);
    }
  }

  /** The share of the smallest members of the union that belong to both sets. */
  ghost function Overlap(s: set<nat>, t: set<nat>): real {
    var c := UnionBottom(s + t);
    if |c| == 0 then 0.0 else |c * s * t| as real / |c| as real
  }

  /** Two pointers walk up both sketches. Whatever sets they are the sketches of, the
      result is exactly the overlap of the full sets within the smallest members of their
      union, or zero for sketches too small to compare. */
  method SketchSimilarity(a: seq<nat>, b: seq<nat>) returns (r: real)
    requires Ascending(a) && Ascending(b)
    ensures |a| < 16 || |b| < 16 ==> r == 0.0
    ensures |a| >= 16 && |b| >= 16 ==>
      forall s, t | IsSketch(a, s) && IsSketch(b, t) :: r == Overlap(s, t)
  {
    if |a| < MIN_CARDINALITY || |b| < MIN_CARDINALITY { return 0.0; }
    var i, j, shared, unionSeen := Walk(a, b);
    r := if unionSeen == 0 then 0.0 else shared as real / unionSeen as real;
    forall s, t | IsSketch(a, s) && IsSketch(b, t) ensures r == Overlap(s, t) {
      MergeIsBottom(a, i, s, b, j, t, unionSeen);
      OverlapIs(s, t, Consumed(a, i, b, j), Shared(a, i, b, j));
      hide Overlap, IsSketch, Consumed, Shared;
    }
  }

  /** The loop of the comparison: how far each pointer came, and the two counts. */
  method Walk(a: seq<nat>, b: seq<nat>) returns (i: nat, j: nat, shared: nat, unionSeen: nat)
    requires Ascending(a) && Ascending(b)
    ensures i <= |a| && j <= |b| && unionSeen <= K && (unionSeen == K || (i == |a| && j == |b|))
    ensures Walked(a, i, b, j)
    ensures |Consumed(a, i, b, j)| == unionSeen && |Shared(a, i, b, j)| == shared
  {
    hide Walked, Ascending, Consumed, Shared;
    i, j, shared, unionSeen := 0, 0, 0, 0;
    WalkStart(a, b);
    while unionSeen < K && (i < |a| || j < |b|)
      invariant 0 <= i <= |a| && 0 <= j <= |b| && unionSeen <= K
      invariant Walked(a, i, b, j)
      invariant |Consumed(a, i, b, j)| == unionSeen && |Shared(a, i, b, j)| == shared
      decreases |a| - i + |b| - j
    {
      if i < |a| && j < |b| && a[i] == b[j] {
        StepBoth(a, i, b, j);
        shared, i, j := shared + 1, i + 1, j + 1;
      } else if j >= |b| || (i < |a| && a[i] < b[j]) {
        StepA(a, i, b, j);
        i := i + 1;
      } else {
        WalkedSwap(a, i, b, j);
        StepA(b, j, a, i);
        WalkedSwap(b, j + 1, a, i);
        j := j + 1;
      }
      unionSeen := unionSeen + 1;
    }
  }

  lemma WalkStart(a: seq<nat>, b: seq<nat>)
    ensures Walked(a, 0, b, 0) && |Consumed(a, 0, b, 0)| == 0 && |Shared(a, 0, b, 0)| == 0
  {
  }

  lemma OverlapIs(s: set<nat>, t: set<nat>, c: set<nat>, shared: set<nat>)
    requires c == UnionBottom(s + t) && shared == c * s * t
    ensures Overlap(s, t) == if |c| == 0 then 0.0 else |shared| as real / |c| as real
  {
  }

  lemma PrefixElements(a: seq<nat>, i: nat, k: nat)
    requires i <= |a| && k < |a|
    ensures k < i ==> a[k] in Elements(a[..i])
  {
    if k < i { assert a[..i][k] == a[k]; }
  }

  /** A member of a set outside the consumed part of its sketch lies above everything
      consumed. */
  lemma BeyondConsumed(a: seq<nat>, i: nat, s: set<nat>, c: set<nat>, x: nat)
    requires IsSketch(a, s) && i <= |a| && Elements(a[..i]) <= c && |c| <= K && Below(c, a, i)
    requires x in s && x !in Elements(a[..i])
    ensures forall y | y in c :: y < x
  {
    if x in a {
      var k :| 0 <= k < |a| && a[k] == x;
      PrefixElements(a, i, k);
    } else {
      assert forall y | y in Elements(a) :: y < x by { assert x in s - Elements(a); }
      if i < |a| {
        assert a[i] in Elements(a);
      } else {
        assert a[..i] == a;
        SketchFull(a, s, x);
        SubsetSize(Elements(a), c);
      }
    }
  }

  lemma SketchFull(a: seq<nat>, s: set<nat>, x: nat)
    requires IsSketch(a, s) && x in s && x !in a
    ensures |Elements(a)| == K
  {
    if |Elements(a)| == |s| { SubsetSize(Elements(a), s); }
  }

  /** When the walk stops it has consumed exactly the smallest members of the union, and
      counted as shared exactly those that belong to both sets. */
  lemma MergeIsBottom(a: seq<nat>, i: nat, s: set<nat>, b: seq<nat>, j: nat, t: set<nat>, seen: nat)
    requires IsSketch(a, s) && IsSketch(b, t) && i <= |a| && j <= |b| && Walked(a, i, b, j)
    requires |Consumed(a, i, b, j)| == seen <= K && (seen == K || (i == |a| && j == |b|))
    ensures Consumed(a, i, b, j) == UnionBottom(s + t)
    ensures Shared(a, i, b, j) == UnionBottom(s + t) * s * t
  {
    var c := Consumed(a, i, b, j);
    AllBeyond(a, i, s, c);
    AllBeyond(b, j, t, c);
    PrefixWithin(a, i, s);
    PrefixWithin(b, j, t);
    SubsetSize(c, s + t);
    if seen < K {
      UsedUp(a, s, c);
      UsedUp(b, t, c);
      assert a[..i] == a && b[..j] == b;
      assert c == s + t;
    }
    assert IsBottom(c, s + t, K);
    BottomUnique(c, UnionBottom(s + t), s + t, K);
    assert Shared(a, i, b, j) == c * s * t;
  }

  lemma PrefixWithin(a: seq<nat>, i: nat, s: set<nat>)
    requires IsSketch(a, s) && i <= |a|
    ensures Elements(a[..i]) <= s
  {
    assert forall x | x in a[..i] :: x in Elements(a);
  }

  lemma AllBeyond(a: seq<nat>, i: nat, s: set<nat>, c: set<nat>)
    requires IsSketch(a, s) && i <= |a| && Elements(a[..i]) <= c && |c| <= K && Below(c, a, i)
    ensures forall x, y | x in s && x !in Elements(a[..i]) && y in c :: y < x
    ensures c * s == Elements(a[..i])
  {
    PrefixWithin(a, i, s);
    forall x | x in s && x !in Elements(a[..i]) ensures forall y | y in c :: y < x {
      BeyondConsumed(a, i, s, c, x);
    }
  }

  /** A sketch that did not fill the merge is its whole set. */
  lemma UsedUp(a: seq<nat>, s: set<nat>, c: set<nat>)
    requires IsSketch(a, s) && |c| < K && Elements(a[..|a|]) <= c
    ensures s == Elements(a)
  {
    assert a[..|a|] == a;
    SubsetSize(Elements(a), c);
    SubsetSize(Elements(a), s);
  }

  /** The comparison does not depend on the order of its arguments. */
  lemma OverlapSymmetric(s: set<nat>, t: set<nat>)
    ensures Overlap(s, t) == Overlap(t, s)
  {
    assert s + t == t + s;
    var c := UnionBottom(s + t);
    assert c * s * t == c * t * s;
  }
}
