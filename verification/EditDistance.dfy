/** The banded edit distance of harness/lib/did-you-mean.ts. */
module EditDistance {
  import opened Basics
  import opened Utf

  const MAX_DISTANCE := 2
  const MAX_COMPONENT := 128

  /** The Levenshtein distance between the first `i` units of `a` and `j` of `b`. */
  function Lev(a: Text, i: nat, b: Text, j: nat): nat
    requires i <= |a| && j <= |b|
    decreases i + j
  {
    if i == 0 then j
    else if j == 0 then i
    else Min(Min(Lev(a, i, b, j - 1) + 1, Lev(a, i - 1, b, j) + 1), Lev(a, i - 1, b, j - 1) + Cost(a, i, b, j))
  }

  function Cost(a: Text, i: nat, b: Text, j: nat): nat
    requires 0 < i <= |a| && 0 < j <= |b|
  {
    if a[i - 1] == b[j - 1] then 0 else 1
  }

  function Distance(a: Text, b: Text): nat { Lev(a, |a|, b, |b|) }

  // The distance is the cost of the cheapest edit script

  datatype Edit = Keep | Substitute | InsertUnit | DropUnit

  /** The script rewrites the first `i` units of `a` into the first `j` of `b`. */
  predicate Rewrites(script: seq<Edit>, a: Text, i: nat, b: Text, j: nat)
    requires i <= |a| && j <= |b|
  {
    if script == [] then i == 0 && j == 0
    else
      var rest := script[..|script| - 1];
      match script[|script| - 1]
      case Keep => i > 0 && j > 0 && a[i - 1] == b[j - 1] && Rewrites(rest, a, i - 1, b, j - 1)
      case Substitute => i > 0 && j > 0 && Rewrites(rest, a, i - 1, b, j - 1)
      case InsertUnit => j > 0 && Rewrites(rest, a, i, b, j - 1)
      case DropUnit => i > 0 && Rewrites(rest, a, i - 1, b, j)
  }

  function ScriptCost(script: seq<Edit>): nat {
    if script == [] then 0
    else ScriptCost(script[..|script| - 1]) + if script[|script| - 1] == Keep then 0 else 1
  }

  lemma {:induction false} ScriptCostsAtLeast(script: seq<Edit>, a: Text, i: nat, b: Text, j: nat)
    requires i <= |a| && j <= |b| && Rewrites(script, a, i, b, j)
    ensures ScriptCost(script) >= Lev(a, i, b, j)
    decreases |script|
  {
    if script != [] {
      var rest := script[..|script| - 1];
      match script[|script| - 1]
      case Keep => ScriptCostsAtLeast(rest, a, i - 1, b, j - 1);
      case Substitute => ScriptCostsAtLeast(rest, a, i - 1, b, j - 1);
      case InsertUnit => ScriptCostsAtLeast(rest, a, i, b, j - 1);
      case DropUnit => ScriptCostsAtLeast(rest, a, i - 1, b, j);
    }
  }

  lemma {:induction false} CheapestScript(a: Text, i: nat, b: Text, j: nat) returns (script: seq<Edit>)
    requires i <= |a| && j <= |b|
    ensures Rewrites(script, a, i, b, j) && ScriptCost(script) == Lev(a, i, b, j)
    decreases i + j
  {
    if i == 0 && j == 0 {
      script := [];
    } else {
      var rest, last;
      if i == 0 || (j > 0 && Lev(a, i, b, j) == Lev(a, i, b, j - 1) + 1) {
        rest := CheapestScript(a, i, b, j - 1);
        last := InsertUnit;
      } else if j == 0 || Lev(a, i, b, j) == Lev(a, i - 1, b, j) + 1 {
        rest := CheapestScript(a, i - 1, b, j);
        last := DropUnit;
      } else {
        rest := CheapestScript(a, i - 1, b, j - 1);
        last := if a[i - 1] == b[j - 1] then Keep else Substitute;
      }
      script := rest + [last];
      assert script[..|script| - 1] == rest;
    }
  }

  // The band

  /** Distances above the limit are all alike. */
  function Cap(x: int): int { Min(x, MAX_DISTANCE + 1) }

  lemma {:induction false} LengthGap(a: Text, i: nat, b: Text, j: nat)
    requires i <= |a| && j <= |b|
    ensures Lev(a, i, b, j) >= i - j && Lev(a, i, b, j) >= j - i
    decreases i + j
  {
    if i > 0 && j > 0 {
      LengthGap(a, i, b, j - 1);
      LengthGap(a, i - 1, b, j);
      LengthGap(a, i - 1, b, j - 1);
    }
  }

  /** Once a whole row exceeds the limit, so does every later row. */
  lemma {:induction false} RowStaysAbove(a: Text, i: nat, b: Text, i': nat, j: nat)
    requires i <= i' <= |a| && j <= |b|
    requires forall k | 0 <= k <= |b| :: Lev(a, i, b, k) > MAX_DISTANCE
    ensures Lev(a, i', b, j) > MAX_DISTANCE
    decreases i' - i, j
  {
    if i < i' {
      RowStaysAbove(a, i, b, i' - 1, j);
      if j > 0 {
        RowStaysAbove(a, i, b, i' - 1, j - 1);
        RowStaysAbove(a, i, b, i', j - 1);
      }
    }
  }

  /** The first rows reach column one within the limit, so a row without small entries
      beyond column zero has none at column zero either. */
  lemma EarlyRowsAreLow(a: Text, i: nat, b: Text)
    requires 1 <= i <= |a| && i <= MAX_DISTANCE && b != []
    ensures Lev(a, i, b, 1) <= MAX_DISTANCE
  {
    assert Lev(a, i - 1, b, 0) == i - 1;
  }

  /** One cell from capped neighbours. */
  lemma Cell(a: Text, i: nat, b: Text, j: nat, left: int, above: int, diagonal: int)
    requires 0 < i <= |a| && 0 < j <= |b| && left >= 0 && above >= 0 && diagonal >= 0
    requires Cap(left) == Cap(Lev(a, i, b, j - 1)) && Cap(above) == Cap(Lev(a, i - 1, b, j))
    requires Cap(diagonal) == Cap(Lev(a, i - 1, b, j - 1))
    ensures Cap(Min(Min(left + 1, above + 1), diagonal + Cost(a, i, b, j))) == Cap(Lev(a, i, b, j))
  {
  }

  /** `row` holds the capped distances of row `i` up to column `n`. */
  predicate RowDone(row: seq<int>, a: Text, i: nat, b: Text, n: int)
    requires i <= |a|
  {
    |row| == |b| + 1 && forall k | 0 <= k < n && k <= |b| :: row[k] >= 0 && Cap(row[k]) == Cap(Lev(a, i, b, k))
  }

  /** A row filled from column `from` up to `j`, with a lower bound of what was filled in. */
  predicate Filled(row: seq<int>, a: Text, i: nat, b: Text, from: int, j: int, rowMin: int)
    requires i <= |a|
  {
    && RowDone(row, a, i, b, j)
    && (forall k | 0 <= k <= |b| && j <= k :: row[k] == MAX_DISTANCE + 1)
    && (forall k | 0 <= k <= |b| && from <= k < j :: rowMin <= row[k])
    && (b == [] ==> rowMin > MAX_DISTANCE)
  }

  lemma OutsideBand(a: Text, i: nat, b: Text)
    requires i <= |a|
    ensures Lev(a, i, b, 0) == i
    ensures forall k | 0 <= k <= |b| && (k < i - MAX_DISTANCE || k > i + MAX_DISTANCE) :: Lev(a, i, b, k) > MAX_DISTANCE
  {
    forall k | 0 <= k <= |b| && (k < i - MAX_DISTANCE || k > i + MAX_DISTANCE)
      ensures Lev(a, i, b, k) > MAX_DISTANCE
    {
      LengthGap(a, i, b, k);
    }
  }

  /** One row of the table, filled only inside the band. */
  method NextRow(prev: array<int>, a: Text, i: nat, b: Text) returns (next: array<int>, rowMin: int)
    requires 1 <= i <= |a| && RowDone(prev[..], a, i - 1, b, |b| + 1)
    ensures fresh(next) && RowDone(next[..], a, i, b, |b| + 1)
    ensures rowMin > MAX_DISTANCE ==> forall k | 1 <= k <= |b| :: Lev(a, i, b, k) > MAX_DISTANCE
    ensures b == [] ==> rowMin > MAX_DISTANCE
  {
    hide RowDone, Filled, Lev, Cost, Max;
    RowLength(prev[..], a, i - 1, b, |b| + 1);
    next := new int[|b| + 1](_ => MAX_DISTANCE + 1);
    next[0] := i;
    var from, to := Max(1, i - MAX_DISTANCE), Min(|b|, i + MAX_DISTANCE);
    rowMin := MAX_DISTANCE + 1;
    RowBegun(next[..], a, i, b, from, to);
    var j := from;
    while j <= to
      invariant 1 <= from <= j && (j <= to + 1 || (j == from && to == |b|))
      invariant Filled(next[..], a, i, b, from, j, rowMin)
    {
      CellFilled(next[..], prev[..], a, i, b, from, j, rowMin);
      ghost var row := next[..];
      var cell := Min(Min(next[j - 1] + 1, prev[j] + 1), prev[j - 1] + Cost(a, i, b, j));
      next[j] := cell;
      assert next[..] == row[j := cell];
      rowMin := Min(rowMin, cell);
      j := j + 1;
    }
    RowEnd(next[..], a, i, b, from, to, j, rowMin);
  }

  lemma RowLength(row: seq<int>, a: Text, i: nat, b: Text, n: int)
    requires i <= |a| && RowDone(row, a, i, b, n)
    ensures |row| == |b| + 1
  {
  }

  lemma RowBegun(row: seq<int>, a: Text, i: nat, b: Text, from: int, to: int)
    requires 1 <= i <= |a| && from == Max(1, i - MAX_DISTANCE) && to == Min(|b|, i + MAX_DISTANCE)
    requires |row| == |b| + 1 && row[0] == i && forall k | 1 <= k <= |b| :: row[k] == MAX_DISTANCE + 1
    ensures Filled(row, a, i, b, from, from, MAX_DISTANCE + 1) && from >= 1 && (from <= to + 1 || to == |b|)
  {
    hide Lev;
    OutsideBand(a, i, b);
  }

  lemma CellFilled(row: seq<int>, prev: seq<int>, a: Text, i: nat, b: Text, from: int, j: int, rowMin: int)
    requires 1 <= i <= |a| && 1 <= from <= j <= |b|
    requires RowDone(prev, a, i - 1, b, |b| + 1) && Filled(row, a, i, b, from, j, rowMin)
    ensures |row| == |prev| == |b| + 1
    ensures var cell := Min(Min(row[j - 1] + 1, prev[j] + 1), prev[j - 1] + Cost(a, i, b, j));
      Filled(row[j := cell], a, i, b, from, j + 1, Min(rowMin, cell))
  {
    hide Lev, Cap;
    Cell(a, i, b, j, row[j - 1], prev[j], prev[j - 1]);
  }

  lemma RowEnd(row: seq<int>, a: Text, i: nat, b: Text, from: int, to: int, j: int, rowMin: int)
    requires 1 <= i <= |a| && from == Max(1, i - MAX_DISTANCE) && to == Min(|b|, i + MAX_DISTANCE)
    requires to < j && (j == to + 1 || (j == from && to == |b|)) && Filled(row, a, i, b, from, j, rowMin)
    ensures RowDone(row, a, i, b, |b| + 1)
    ensures rowMin > MAX_DISTANCE ==> forall k | 1 <= k <= |b| :: Lev(a, i, b, k) > MAX_DISTANCE
    ensures b == [] ==> rowMin > MAX_DISTANCE
  {
    hide Lev;
    OutsideBand(a, i, b);
    forall k | 1 <= k <= |b| && rowMin > MAX_DISTANCE ensures Lev(a, i, b, k) > MAX_DISTANCE {
      if from <= k <= to { assert rowMin <= row[k]; }
    }
  }

  /** Up to the limit the banded computation gives the true distance, early exits
      included, unless a short text is compared with the empty one: there the row minimum
      skips column zero and the answer is "too far". */
  method EditDistanceAtMost2(a: Text, b: Text) returns (r: int)
    ensures r >= 0
    ensures |a| > 128 || |b| > 128 ==> r == 3
    ensures |a| <= 128 && |b| <= 128 ==>
      (Cap(r) == Cap(Distance(a, b)) <==> !(b == [] && 1 <= |a| <= 2))
    ensures b == [] && a != [] ==> r == 3
  {
    LengthGap(a, |a|, b, |b|);
    if |a| > MAX_COMPONENT || |b| > MAX_COMPONENT || Max(|a| - |b|, |b| - |a|) > MAX_DISTANCE {
      return MAX_DISTANCE + 1;
    }
    var prev := new int[|b| + 1](i => i);
    var i: nat := 1;
    while i <= |a|
      invariant 1 <= i <= |a| + 1
      invariant fresh(prev) && RowDone(prev[..], a, i - 1, b, |b| + 1)
      invariant b == [] ==> i == 1
    {
      var next, rowMin := NextRow(prev, a, i, b);
      if rowMin > MAX_DISTANCE {
        if b != [] {
          if i <= MAX_DISTANCE { EarlyRowsAreLow(a, i, b); }
          assert Lev(a, i, b, 0) == i;
          RowStaysAbove(a, i, b, |a|, |b|);
        }
        return MAX_DISTANCE + 1;
      }
      prev := next;
      i := i + 1;
    }
    return prev[|b|];
  }
}
