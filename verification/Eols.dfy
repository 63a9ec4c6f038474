/** How an edit picks the terminator of a new line: the three EOL choosers of
    harness/lib/hashline-core.ts. */
module Eols {
  import opened Lines

  function Count(lines: seq<TextLine>, eol: Eol): nat {
    if lines == [] then 0
    else Count(lines[..|lines| - 1], eol) + if lines[|lines| - 1].eol == eol then 1 else 0
  }

  /** The terminator that leads after a walk over the lines, with its count: a later
      one takes the lead only by exceeding the leader. */
  function Leader(lines: seq<TextLine>): (Eol, nat) {
    if lines == [] then (NoEol, 0)
    else
      var before := Leader(lines[..|lines| - 1]);
      var eol := lines[|lines| - 1].eol;
      if eol != NoEol && Count(lines, eol) > before.1 then (eol, Count(lines, eol)) else before
  }

  /** `eol` is a terminator of these lines, or a newline when they have none. */
  ghost predicate Offered(lines: seq<TextLine>, eol: Eol) {
    && eol != NoEol
    && ((exists i :: 0 <= i < |lines| && lines[i].eol == eol)
        || (eol == LF && forall i :: 0 <= i < |lines| ==> lines[i].eol == NoEol))
  }

  /** The leader is used most often, and where it ties it got there first. */
  lemma {:induction false} LeaderIsMostUsed(lines: seq<TextLine>, other: Eol)
    requires other != NoEol
    ensures var (best, n) := Leader(lines);
      && Count(lines, other) <= n
      && (best == NoEol <==> n == 0)
      && (best != NoEol ==> Count(lines, best) == n)
      && (other != best && Count(lines, other) == n > 0 ==>
            exists k :: 0 <= k < |lines| && Count(lines[..k], best) == n && Count(lines[..k], other) < n)
  {
    if lines != [] {
      var front := lines[..|lines| - 1];
      var eol := lines[|lines| - 1].eol;
      LeaderIsMostUsed(front, other);
      if eol != NoEol { LeaderIsMostUsed(front, eol); }
      var (best, n) := Leader(lines);
      if other != best && Count(lines, other) == n > 0 {
        if eol == other {
          assert lines[..|front|] == front;
        } else {
          var k :| 0 <= k < |front| && Count(front[..k], best) == n && Count(front[..k], other) < n;
          assert lines[..k] == front[..k];
        }
      }
    }
  }

  lemma {:induction false} LeaderOccurs(lines: seq<TextLine>)
    ensures var (best, n) := Leader(lines);
      && (best != NoEol ==> exists i :: 0 <= i < |lines| && lines[i].eol == best)
      && (best == NoEol ==> forall i :: 0 <= i < |lines| ==> lines[i].eol == NoEol)
  {
    if lines != [] {
      var front, last := lines[..|lines| - 1], lines[|lines| - 1];
      LeaderOccurs(front);
      if last.eol != NoEol { LeaderIsMostUsed(lines, last.eol); }
      if Leader(lines).0 != NoEol {
        if Leader(lines) == Leader(front) {
          var i :| 0 <= i < |front| && front[i].eol == Leader(front).0;
          assert lines[i].eol == Leader(front).0;
        } else {
          assert lines[|front|].eol == Leader(lines).0;
        }
      }
    }
  }

  lemma LeaderNext(lines: seq<TextLine>, start: nat, i: nat)
    requires start <= i < |lines|
    ensures var front, eol := lines[start..i], lines[i].eol;
      && (forall e :: Count(lines[start..i + 1], e) == Count(front, e) + if e == eol then 1 else 0)
      && Leader(lines[start..i + 1]) == if eol != NoEol && Count(front, eol) + 1 > Leader(front).1 then (eol, Count(front, eol) + 1) else Leader(front)
  {
    assert lines[start..i + 1][..i - start] == lines[start..i];
  }

  lemma NoLeader(lines: seq<TextLine>)
    requires lines == []
    ensures Leader(lines) == (NoEol, 0) && forall e :: Count(lines, e) == 0
  {
  }

  /** The counting loop shared by `dominantEol` and `rangeEol`. */
  method LeadingEol(lines: seq<TextLine>, start: nat, end: nat) returns (best: Eol)
    requires start <= end <= |lines|
    ensures best == Leader(lines[start..end]).0
  {
    hide Leader, Count;
    var counts: map<Eol, nat> := map[];
    var bestCount := 0;
    best := NoEol;
    NoLeader(lines[start..start]);
    for i := start to end
      invariant (best, bestCount) == Leader(lines[start..i])
      invariant forall e | e != NoEol :: Count(lines[start..i], e) == if e in counts then counts[e] else 0
    {
      LeaderNext(lines, start, i);
      var eol := lines[i].eol;
      if eol != NoEol {
        var n := (if eol in counts then counts[eol] else 0) + 1;
        counts := counts[eol := n];
        if n > bestCount { best, bestCount := eol, n; }
      }
    }
  }

  function DominantEol(lines: seq<TextLine>): (eol: Eol)
    ensures Offered(lines, eol)
  {
    LeaderOccurs(lines);
    if Leader(lines).0 == NoEol then LF else Leader(lines).0
  }

  /** The first terminator met when walking outwards from the range, one line before
      it and one line after it at a time. */
  function NearestFrom(lines: seq<TextLine>, start: nat, end: nat, distance: nat): (eol: Eol)
    requires start <= end <= |lines|
    ensures Offered(lines, eol)
    decreases |lines| - distance
  {
    if distance >= |lines| then DominantEol(lines)
    else if start >= 1 + distance && lines[start - 1 - distance].eol != NoEol then lines[start - 1 - distance].eol
    else if end + distance < |lines| && lines[end + distance].eol != NoEol then lines[end + distance].eol
    else NearestFrom(lines, start, end, distance + 1)
  }

  function RangeEol(lines: seq<TextLine>, start: nat, end: nat): (eol: Eol)
    requires start <= end <= |lines|
    ensures Offered(lines, eol)
  {
    LeaderOccurs(lines[start..end]);
    var best := Leader(lines[start..end]).0;
    if best != NoEol then
      var i :| 0 <= i < |lines[start..end]| && lines[start..end][i].eol == best;
      assert lines[start + i].eol == best;
      best
    else NearestFrom(lines, start, end, 0)
  }

  method ComputeDominantEol(lines: seq<TextLine>) returns (eol: Eol)
    ensures eol == DominantEol(lines)
  {
    eol := LeadingEol(lines, 0, |lines|);
    assert lines[0..|lines|] == lines;
    if eol == NoEol { eol := LF; }
  }

  method ComputeNearestEol(lines: seq<TextLine>, start: nat, end: nat) returns (eol: Eol)
    requires start <= end <= |lines|
    ensures eol == NearestFrom(lines, start, end, 0)
  {
    for distance := 0 to |lines|
      invariant NearestFrom(lines, start, end, distance) == NearestFrom(lines, start, end, 0)
    {
      var before := start as int - 1 - distance;
      if before >= 0 && lines[before].eol != NoEol { return lines[before].eol; }
      var after := end + distance;
      if after < |lines| && lines[after].eol != NoEol { return lines[after].eol; }
    }
    eol := ComputeDominantEol(lines);
  }

  method ComputeRangeEol(lines: seq<TextLine>, start: nat, end: nat) returns (eol: Eol)
    requires start <= end <= |lines|
    ensures eol == RangeEol(lines, start, end)
  {
    eol := LeadingEol(lines, start, end);
    if eol == NoEol { eol := ComputeNearestEol(lines, start, end); }
  }

  /** The line `d` steps before the range, or `d` steps after it, ends in `eol`. */
  predicate EndsAtDistance(lines: seq<TextLine>, start: nat, end: nat, d: nat, eol: Eol)
    requires start <= end <= |lines|
  {
    (d < start && lines[start - 1 - d].eol == eol) || (end + d < |lines| && lines[end + d].eol == eol)
  }

  /** No terminated line outside the range is nearer than the one chosen. */
  lemma {:induction false} NearestIsNearest(lines: seq<TextLine>, start: nat, end: nat, distance: nat, i: nat)
    requires start <= end <= |lines| && i < |lines| && lines[i].eol != NoEol
    requires i < start - distance || end + distance <= i
    ensures exists d :: distance <= d <= (if i < start then start - 1 - i else i - end)
                        && EndsAtDistance(lines, start, end, d, NearestFrom(lines, start, end, distance))
    decreases |lines| - distance
  {
    if EndsAtDistance(lines, start, end, distance, NearestFrom(lines, start, end, distance)) {
    } else {
      NearestIsNearest(lines, start, end, distance + 1, i);
    }
  }
}
