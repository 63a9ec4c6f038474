/**
 Applying hunks, told from each hunk's own place in the file: which lists of hunks are taken,
 and the contents afterwards, rebuilt from top to bottom. The order in which the hunks are
 given plays no part, nor do the ranges the program sorts.
 */
module Places {
  import opened Utf
  import opened Lines
  import opened StableSort
  import opened Stitching
  import opened Hunks
  import opened Apply

  // ---- Places ------------------------------------------------------------------------------

  /** The lines that stand before what a hunk replaces, deletes or inserts, in a file of `n`. */
  function Ahead(h: Hunk, n: nat): int {
    match h
    case Replace(start, _, _, _) => start - 1
    case Delete(start, _, _) => start - 1
    case Insert(pos, line, _, _) =>
      match pos
      case Head => 0
      case Tail => n
      case Before => line - 1
      case After => line
  }

  /** How many lines it takes away. */
  function Width(h: Hunk): int {
    match h
    case Replace(start, end, _, _) => end - start + 1
    case Delete(start, end, _) => end - start + 1
    case Insert(_, _, _, _) => 0
  }

  /** The lines it names are in the file. */
  predicate InFile(h: Hunk, n: nat) {
    match h
    case Replace(_, end, _, _) => end <= n
    case Delete(_, end, _) => end <= n
    case Insert(pos, line, _, _) => pos == Head || pos == Tail || 1 <= line <= n
  }

  /** The rows it expects to find are there. */
  predicate FindsSource(h: Hunk, base: seq<Text>) {
    h.source.Some? ==>
      var rows, from := h.source.value.lines, h.source.value.start - 1;
      rows != [] ==> 0 <= from && from + |rows| <= |base| && base[from..from + |rows|] == rows
  }

  /** Two hunks do not touch the same lines, and are not two insertions at one place. */
  predicate Compatible(a: Hunk, b: Hunk, n: nat) {
    && (Ahead(a, n) + Width(a) <= Ahead(b, n) || Ahead(b, n) + Width(b) <= Ahead(a, n))
    && !(a.Insert? && b.Insert? && Ahead(a, n) == Ahead(b, n))
  }

  /** Any two of the hunks are compatible. */
  predicate AllCompatible(hunks: seq<Hunk>, n: nat) {
    forall i, j | 0 <= i < j < |hunks| :: Compatible(hunks[i], hunks[j], n)
  }

  lemma OpForPlace(h: Hunk, n: nat)
    requires ValidHunk(h)
    ensures OpFor(h, n).Ok? <==> InFile(h, n)
    ensures InFile(h, n) ==> OpFor(h, n) == Ok(Op(Ahead(h, n), Ahead(h, n) + Width(h), h))
    ensures OpFor(h, n).Err? ==> OpFor(h, n).error.OutOfBounds?
  {
  }

  lemma {:induction false} OpsForPlaces(hunks: seq<Hunk>, n: nat)
    requires AllValid(hunks)
    ensures OpsFor(hunks, n).Ok? <==> forall h | h in hunks :: InFile(h, n)
    ensures OpsFor(hunks, n).Err? ==> OpsFor(hunks, n).error.OutOfBounds?
  {
    if hunks != [] {
      OpForPlace(hunks[0], n);
      assert hunks == [hunks[0]] + hunks[1..];
      OpsForPlaces(hunks[1..], n);
    }
  }

  // ---- Acceptance --------------------------------------------------------------------------

  predicate Clear(a: Op, b: Op) { (a.end <= b.start || b.end <= a.start) && !SamePlace(a, b) }

  predicate AllClear(ops: seq<Op>) { forall i, j | 0 <= i < j < |ops| :: Clear(ops[i], ops[j]) }

  /** Being clear of each other does not depend on the order. */
  predicate ClearMembers(m: multiset<Op>) {
    (forall a | a in m :: m[a] == 1) && forall a, b | a in m && b in m && a != b :: Clear(a, b)
  }

  lemma ClearByMembers(ops: seq<Op>)
    requires forall op | op in ops :: op.start <= op.end
    ensures AllClear(ops) <==> ClearMembers(multiset(ops))
  {
    if AllClear(ops) {
      forall a | a in multiset(ops) ensures multiset(ops)[a] == 1 { ClearOnce(ops, a); }
      forall a, b | a in multiset(ops) && b in multiset(ops) && a != b ensures Clear(a, b) {
        var i :| 0 <= i < |ops| && ops[i] == a;
        var j :| 0 <= j < |ops| && ops[j] == b;
        if i < j { assert Clear(ops[i], ops[j]); } else { assert Clear(ops[j], ops[i]); }
      }
    }
    if ClearMembers(multiset(ops)) {
      forall i, j | 0 <= i < j < |ops| ensures Clear(ops[i], ops[j]) {
        assert ops[i] in multiset(ops) && ops[j] in multiset(ops);
        if ops[i] == ops[j] { TwiceCounts(ops, i, j); }
      }
    }
  }

  /** No range is clear of itself. */
  lemma ClearOnce(ops: seq<Op>, a: Op)
    requires AllClear(ops) && a in ops && forall op | op in ops :: op.start <= op.end
    ensures multiset(ops)[a] == 1
  {
    forall i, j | 0 <= i < j < |ops| ensures ops[i] != ops[j] { assert Clear(ops[i], ops[j]) && ops[i] in ops; }
    DistinctCounts(ops, a);
  }

  predicate Adjacent(ops: seq<Op>) {
    forall k | 1 <= k < |ops| :: ops[k - 1].end <= ops[k].start && !SamePlace(ops[k - 1], ops[k])
  }

  lemma {:induction false} AdjacentAscend(ops: seq<Op>, i: nat, j: nat)
    requires Adjacent(ops) && i < j < |ops| && forall op | op in ops :: op.start <= op.end
    ensures ops[i].end <= ops[j].start && !SamePlace(ops[i], ops[j])
    decreases j - i
  {
    assert ops[i + 1 - 1].end <= ops[i + 1].start && !SamePlace(ops[i + 1 - 1], ops[i + 1]);
    if i + 1 < j {
      assert ops[i + 1] in ops;
      AdjacentAscend(ops, i + 1, j);
    }
  }

  /** In order it is enough to compare neighbours. */
  lemma NeighboursTell(ops: seq<Op>)
    requires Sorted(ops, OpKey) && forall op | op in ops :: op.start <= op.end
    ensures Adjacent(ops) <==> AllClear(ops)
  {
    if Adjacent(ops) {
      forall i, j | 0 <= i < j < |ops| ensures Clear(ops[i], ops[j]) { AdjacentAscend(ops, i, j); }
    }
    if AllClear(ops) {
      forall k | 1 <= k < |ops| ensures ops[k - 1].end <= ops[k].start && !SamePlace(ops[k - 1], ops[k]) {
        assert Clear(ops[k - 1], ops[k]) && !Less(OpKey(ops[k]), OpKey(ops[k - 1]));
        assert ops[k - 1] in ops && ops[k] in ops;
      }
    }
  }

  lemma CompatibleIsClear(hunks: seq<Hunk>, ops: seq<Op>, n: nat)
    requires AllValid(hunks) && |ops| == |hunks| && forall k | 0 <= k < |hunks| :: OpFor(hunks[k], n) == Ok(ops[k])
    ensures AllCompatible(hunks, n) <==> AllClear(ops)
    ensures forall op | op in ops :: op.start <= op.end
  {
    forall k | 0 <= k < |hunks| ensures ops[k] == Op(Ahead(hunks[k], n), Ahead(hunks[k], n) + Width(hunks[k]), hunks[k]) {
      assert hunks[k] in hunks && OpFor(hunks[k], n) == Ok(ops[k]);
      OpForPlace(hunks[k], n);
    }
    hide Ahead;
    forall i, j | 0 <= i < j < |hunks| ensures Compatible(hunks[i], hunks[j], n) <==> Clear(ops[i], ops[j]) {
      assert hunks[i] in hunks && hunks[j] in hunks;
    }
  }

  lemma SourcesOfMembers(hunks: seq<Hunk>, ops: seq<Op>, sorted: seq<Op>, n: nat, base: seq<Text>)
    requires AllValid(hunks) && |ops| == |hunks| && forall k | 0 <= k < |hunks| :: OpFor(hunks[k], n) == Ok(ops[k])
    requires multiset(sorted) == multiset(ops)
    ensures (forall op | op in sorted :: SourceOk(op, base)) <==> forall h | h in hunks :: FindsSource(h, base)
  {
    hide SourceMatches;
    forall k | 0 <= k < |hunks| ensures SourceOk(ops[k], base) <==> FindsSource(hunks[k], base) {
      assert hunks[k] in hunks && OpFor(hunks[k], n) == Ok(ops[k]);
      SourceTells(hunks[k], base);
    }
    forall op ensures op in sorted <==> op in ops { assert op in multiset(sorted) <==> op in multiset(ops); }
  }

  lemma SourceTells(h: Hunk, base: seq<Text>)
    requires ValidHunk(h)
    ensures h.source.Some? ==> (SourceMatches(h.source.value, base) <==> FindsSource(h, base))
  {
  }

  /** A list of hunks is taken exactly when each names lines of the file, finds the rows it
      expects, and is compatible with every other; the refusal tells which it is. */
  lemma AcceptsExactly(lines: seq<TextLine>, hunks: seq<Hunk>)
    requires AllValid(hunks)
    ensures var n, base, r := |lines|, Contents(lines), Prepare(lines, hunks);
      && (r.Ok? <==> (forall h | h in hunks :: InFile(h, n) && FindsSource(h, base)) && AllCompatible(hunks, n))
      && (r.Err? && r.error.OutOfBounds? <==> exists h :: h in hunks && !InFile(h, n))
      && (r.Err? && r.error.SourceMismatch? <==>
            (forall h | h in hunks :: InFile(h, n)) && exists h :: h in hunks && !FindsSource(h, base))
  {
    hide Ahead, Width, InFile, FindsSource, OpsFor, Sort, CheckSources, CheckOverlaps, AllCompatible;
    var n, base := |lines|, Contents(lines);
    OpsForPlaces(hunks, n);
    if OpsFor(hunks, n).Ok? {
      var ops := Sort(OpsFor(hunks, n).value, OpKey);
      SortSorts(OpsFor(hunks, n).value, OpKey);
      SourcesOfMembers(hunks, OpsFor(hunks, n).value, ops, n, base);
      hide SourceOk;
      SourcesChecked(ops, base);
      ClashesTell(hunks, ops, n);
      ClashKind(ops, 1);
    }
  }

  lemma ClashesTell(hunks: seq<Hunk>, ops: seq<Op>, n: nat)
    requires AllValid(hunks) && OpsFor(hunks, n).Ok? && ops == Sort(OpsFor(hunks, n).value, OpKey)
    ensures CheckOverlaps(ops, 1).None? <==> AllCompatible(hunks, n)
  {
    hide Ahead, Width, OpsFor, Sort, CheckOverlaps, AllCompatible, AllClear, ClearMembers, SamePlace;
    var unsorted := OpsFor(hunks, n).value;
    SortSorts(unsorted, OpKey);
    CompatibleIsClear(hunks, unsorted, n);
    forall op | op in ops ensures op.start <= op.end { assert op in multiset(ops) && op in unsorted; }
    ClearByMembers(unsorted);
    ClearByMembers(ops);
    OverlapsChecked(ops, 1);
    NeighboursTell(ops);
  }

  lemma {:induction false} ClashKind(ops: seq<Op>, i: nat)
    requires 1 <= i
    ensures CheckOverlaps(ops, i).Some? ==> CheckOverlaps(ops, i).value.Overlap? || CheckOverlaps(ops, i).value.SamePosition?
    decreases |ops| - i
  {
    if i < |ops| { ClashKind(ops, i + 1); }
  }
}
