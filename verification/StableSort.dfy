/** The stable ascending sort behind JavaScript's `sort`, on keys compared in order. */
module StableSort {
  import opened Basics

  type Key = (int, int, int)

  predicate Less(x: Key, y: Key) {
    x.0 < y.0 || (x.0 == y.0 && (x.1 < y.1 || (x.1 == y.1 && x.2 < y.2)))
  }

  /** Places `x` behind every element whose key is not greater. */
  function Insert<T>(x: T, s: seq<T>, key: T -> Key): seq<T> {
    if s == [] || !Less(key(x), key(s[|s| - 1])) then s + [x]
    else Insert(x, s[..|s| - 1], key) + [s[|s| - 1]]
  }

  function Sort<T>(s: seq<T>, key: T -> Key): seq<T> {
    if s == [] then [] else Insert(s[|s| - 1], Sort(s[..|s| - 1], key), key)
  }

  ghost predicate Sorted<T>(s: seq<T>, key: T -> Key) {
    forall i, j | 0 <= i < j < |s| :: !Less(key(s[j]), key(s[i]))
  }

  lemma {:induction false} InsertPermutes<T>(x: T, s: seq<T>, key: T -> Key)
    ensures multiset(Insert(x, s, key)) == multiset(s) + multiset{x}
  {
    if s != [] && Less(key(x), key(s[|s| - 1])) {
      InsertPermutes(x, s[..|s| - 1], key);
      assert s == s[..|s| - 1] + [s[|s| - 1]];
    }
  }

  lemma {:induction false} InsertSorted<T>(x: T, s: seq<T>, key: T -> Key)
    requires Sorted(s, key)
    ensures Sorted(Insert(x, s, key), key)
  {
    if s != [] && Less(key(x), key(s[|s| - 1])) {
      var front, last := s[..|s| - 1], s[|s| - 1];
      InsertSorted(x, front, key);
      InsertPermutes(x, front, key);
      var r := Insert(x, front, key);
      forall i | 0 <= i < |r| ensures !Less(key(last), key(r[i])) {
        assert r[i] in multiset(r);
        assert r[i] == x || r[i] in front;
      }
    }
  }

  /** Sorting orders the elements and neither loses nor invents one. */
  lemma {:induction false} SortSorts<T>(s: seq<T>, key: T -> Key)
    ensures Sorted(Sort(s, key), key)
    ensures multiset(Sort(s, key)) == multiset(s)
    ensures |Sort(s, key)| == |s|
  {
    if s != [] {
      SortSorts(s[..|s| - 1], key);
      InsertSorted(s[|s| - 1], Sort(s[..|s| - 1], key), key);
      InsertPermutes(s[|s| - 1], Sort(s[..|s| - 1], key), key);
      assert s == s[..|s| - 1] + [s[|s| - 1]];
    }
    assert |multiset(Sort(s, key))| == |Sort(s, key)|;
  }

  lemma InsertAtEnd<T>(x: T, s: seq<T>, key: T -> Key)
    requires s == [] || !Less(key(x), key(s[|s| - 1]))
    ensures Insert(x, s, key) == s + [x]
  {
  }

  /** A list already in order is left alone. */
  lemma {:induction false} SortOfSorted<T>(s: seq<T>, key: T -> Key)
    requires Sorted(s, key)
    ensures Sort(s, key) == s
  {
    if s != [] {
      var front, last := s[..|s| - 1], s[|s| - 1];
      assert Sorted(front, key) by {
        forall i, j | 0 <= i < j < |front| ensures !Less(key(front[j]), key(front[i])) {
          assert !Less(key(s[j]), key(s[i]));
        }
      }
      if front != [] { assert !Less(key(last), key(s[|front| - 1])); }
      SortOfSorted(front, key);
      hide Less, Sorted;
      InsertAtEnd(last, front, key);
      assert s == front + [last];
    }
  }

  function IntKey(i: int): Key { (i, 0, 0) }

  lemma {:induction false} DistinctCounts<T>(s: seq<T>, x: T)
    requires Distinct(s)
    ensures multiset(s)[x] == if x in s then 1 else 0
  {
    if s != [] {
      assert s == s[..|s| - 1] + [s[|s| - 1]];
      DistinctCounts(s[..|s| - 1], x);
    }
  }

  /** Sorting distinct numbers puts them in strictly ascending order. */
  lemma SortAscends(s: seq<int>)
    requires Distinct(s)
    ensures |Sort(s, IntKey)| == |s| && forall x :: x in Sort(s, IntKey) <==> x in s
    ensures forall i, j | 0 <= i < j < |s| :: Sort(s, IntKey)[i] < Sort(s, IntKey)[j]
  {
    SortSorts(s, IntKey);
    var r := Sort(s, IntKey);
    forall x ensures x in r <==> x in s { assert x in r <==> x in multiset(r); }
    forall i, j | 0 <= i < j < |s| ensures r[i] < r[j] {
      assert !Less(IntKey(r[j]), IntKey(r[i]));
      if r[i] == r[j] { TwiceCounts(r, i, j); DistinctCounts(s, r[i]); }
    }
  }

  lemma TwiceCounts<T>(s: seq<T>, i: nat, j: nat)
    requires i < j < |s| && s[i] == s[j]
    ensures multiset(s)[s[i]] >= 2
  {
    assert s == s[..i] + [s[i]] + s[i + 1..j] + [s[j]] + s[j + 1..];
  }
}
