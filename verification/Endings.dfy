/**
 How new lines end, also in files that mix terminators: like the line next to which they are
 inserted, like most of the lines they replace, or like the nearest line that ends at all.
 */
module Endings {
  import opened Lines
  import opened Stitching
  import opened Eols
  import opened Hunks
  import opened Apply
  import opened EditFacts
  import opened Places

  predicate NoneEnds(lines: seq<TextLine>) { forall line | line in lines :: line.eol == NoEol }

  /** The terminator most lines have, and among equals the one that was first to be used so often. */
  ghost predicate MostUsed(lines: seq<TextLine>, eol: Eol) {
    && eol != NoEol && Count(lines, eol) > 0
    && forall other | other != NoEol && other != eol ::
         && Count(lines, other) <= Count(lines, eol)
         && (Count(lines, other) == Count(lines, eol) ==>
               exists k :: 0 <= k < |lines| && Count(lines[..k], eol) == Count(lines, eol) && Count(lines[..k], other) < Count(lines, eol))
  }

  /** The file's own terminator; a newline where no line ends. */
  ghost predicate IsDominant(lines: seq<TextLine>, eol: Eol) {
    if NoneEnds(lines) then eol == LF else MostUsed(lines, eol)
  }

  predicate EndsAt(lines: seq<TextLine>, i: int, eol: Eol) { 0 <= i < |lines| && lines[i].eol == eol }

  predicate EndsNowhere(lines: seq<TextLine>, i: int) { 0 <= i < |lines| ==> lines[i].eol == NoEol }

  /** At `d` lines from the range some line ends so, the one before it first; no nearer one ends. */
  ghost predicate IsNearest(lines: seq<TextLine>, start: int, end: int, d: int, eol: Eol) {
    && d >= 0 && eol != NoEol
    && (EndsAt(lines, start - 1 - d, eol) || (EndsNowhere(lines, start - 1 - d) && EndsAt(lines, end + d, eol)))
    && forall c | 0 <= c < d :: QuietAt(lines, start, end, c)
  }

  predicate QuietAt(lines: seq<TextLine>, start: int, end: int, c: int) {
    EndsNowhere(lines, start - 1 - c) && EndsNowhere(lines, end + c)
  }

  /** The terminator for lines that replace `start..end`. */
  ghost predicate RangeEnding(lines: seq<TextLine>, start: nat, end: nat, eol: Eol)
    requires start <= end <= |lines|
  {
    if !NoneEnds(lines[start..end]) then MostUsed(lines[start..end], eol)
    else if NoneEnds(lines) then eol == LF
    else exists d :: IsNearest(lines, start, end, d, eol)
  }

  // ---- The choosers ------------------------------------------------------------------------

  lemma LeaderIsMost(lines: seq<TextLine>)
    ensures if NoneEnds(lines) then Leader(lines).0 == NoEol else MostUsed(lines, Leader(lines).0)
  {
    hide Leader, Count;
    var (best, n) := Leader(lines);
    LeaderOccurs(lines);
    LeaderIsMostUsed(lines, LF);
    forall other | other != NoEol
      ensures Count(lines, other) <= n && (best != NoEol ==> Count(lines, best) == n)
      ensures other != best && Count(lines, other) == n > 0 ==>
        exists k :: 0 <= k < |lines| && Count(lines[..k], best) == n && Count(lines[..k], other) < n
    {
      LeaderIsMostUsed(lines, other);
    }
    if best == NoEol {
      forall line | line in lines ensures line.eol == NoEol {}
    } else {
      var i :| 0 <= i < |lines| && lines[i].eol == best;
      assert lines[i] in lines;
    }
  }

  lemma DominantIs(lines: seq<TextLine>)
    ensures IsDominant(lines, DominantEol(lines))
  {
    hide Leader, MostUsed, NoneEnds;
    LeaderIsMost(lines);
    if !NoneEnds(lines) { MostUsedEnds(lines, Leader(lines).0); }
  }

  lemma MostUsedEnds(lines: seq<TextLine>, eol: Eol)
    requires MostUsed(lines, eol)
    ensures eol != NoEol
  {
  }

  lemma {:induction false} NearestIs(lines: seq<TextLine>, start: nat, end: nat, distance: nat)
    requires start <= end <= |lines| && NoneEnds(lines[start..end]) && forall c | 0 <= c < distance :: QuietAt(lines, start, end, c)
    ensures var eol := NearestFrom(lines, start, end, distance);
      if NoneEnds(lines) then eol == LF else exists d :: IsNearest(lines, start, end, d, eol)
    decreases |lines| - distance
  {
    hide NoneEnds, Leader;
    if distance >= |lines| {
      QuietEverywhere(lines, start, end);
      DominantIs(lines);
    } else if EndsNowhere(lines, start - 1 - distance) && EndsNowhere(lines, end + distance) {
      assert QuietAt(lines, start, end, distance);
      NearestIs(lines, start, end, distance + 1);
      var eol := NearestFrom(lines, start, end, distance + 1);
      assert NearestFrom(lines, start, end, distance) == eol;
      if !NoneEnds(lines) {
        var d :| IsNearest(lines, start, end, d, eol);
        assert IsNearest(lines, start, end, d, NearestFrom(lines, start, end, distance));
      }
    } else {
      EndsSomewhere(lines, if EndsNowhere(lines, start - 1 - distance) then end + distance else start - 1 - distance);
      assert IsNearest(lines, start, end, distance, NearestFrom(lines, start, end, distance));
    }
  }

  lemma EndsSomewhere(lines: seq<TextLine>, i: int)
    requires !EndsNowhere(lines, i)
    ensures !NoneEnds(lines)
  {
    assert lines[i] in lines;
  }

  lemma QuietEverywhere(lines: seq<TextLine>, start: nat, end: nat)
    requires start <= end <= |lines| && NoneEnds(lines[start..end]) && forall c | 0 <= c < |lines| :: QuietAt(lines, start, end, c)
    ensures NoneEnds(lines)
  {
    forall i | 0 <= i < |lines| ensures lines[i].eol == NoEol {
      if i < start {
        assert QuietAt(lines, start, end, start - 1 - i);
      } else if i >= end {
        assert QuietAt(lines, start, end, i - end);
      } else {
        assert lines[start..end][i - start] in lines[start..end];
      }
    }
  }

  lemma RangeIs(lines: seq<TextLine>, start: nat, end: nat)
    requires start <= end <= |lines|
    ensures RangeEnding(lines, start, end, RangeEol(lines, start, end))
  {
    hide NoneEnds, MostUsed, IsNearest, Leader, NearestFrom;
    LeaderIsMost(lines[start..end]);
    if NoneEnds(lines[start..end]) {
      NearestIs(lines, start, end, 0);
    } else {
      MostUsedEnds(lines[start..end], Leader(lines[start..end]).0);
    }
  }

  // ---- New lines ---------------------------------------------------------------------------

  /** How the `i`th new line of a hunk ends, while it is not the last line of the file. */
  ghost predicate NewEnding(original: seq<TextLine>, h: Hunk, i: nat, eol: Eol)
    requires ValidHunk(h) && InFile(h, |original|)
  {
    match h
    case Delete(_, _, _) => false
    case Replace(start, end, body, _) =>
      if i + 1 < |body| then RangeEnding(original, start - 1, end, eol)
      else if original[end - 1].eol != NoEol then eol == original[end - 1].eol
      else IsDominant(original, eol)
    case Insert(pos, _, _, _) =>
      var at := Ahead(h, |original|);
      var beside := if at < |original| then at else |original| - 1;
      if original != [] && original[beside].eol != NoEol then eol == original[beside].eol else IsDominant(original, eol)
  }

  lemma OrDominantIs(eol: Eol, original: seq<TextLine>)
    ensures if eol != NoEol then OrDominant(eol, original) == eol else IsDominant(original, OrDominant(eol, original))
    ensures OrDominant(eol, original) != NoEol
  {
    DominantIs(original);
  }

  /** In a body line the ending is as stated, once the closing pass has made sure that it ends. */
  lemma BodyEnding(original: seq<TextLine>, op: Op, i: nat)
    requires FromHunk(op, |original|) && i < |HunkBody(op)|
    ensures InFile(op.hunk, |original|) && |BodyLines(op, original)| == |HunkBody(op)|
    ensures var line := BodyLines(op, original)[i];
      && line.content == HunkBody(op)[i]
      && (i + 1 < |HunkBody(op)| || op.hunk.Replace? || op.start < |original| ==> NewEnding(original, op.hunk, i, OrDominant(line.eol, original)))
  {
    hide RangeEnding, IsDominant, RangeEol, DominantEol, OrDominant;
    OpForPlace(op.hunk, |original|);
    match op.hunk
    case Delete(_, _, _) =>
    case Replace(start, end, body, _) =>
      RangeIs(original, op.start, op.end);
      OrDominantIs(RangeEol(original, op.start, op.end), original);
      OrDominantIs(original[op.end - 1].eol, original);
    case Insert(pos, line, body, _) =>
      InsertionEnding(original, op, i);
  }

  lemma InsertionEnding(original: seq<TextLine>, op: Op, i: nat)
    requires FromHunk(op, |original|) && op.hunk.Insert? && i < |HunkBody(op)| && InFile(op.hunk, |original|)
    requires op.start == Ahead(op.hunk, |original|)
    ensures var line := BodyLines(op, original)[i];
      && line.content == HunkBody(op)[i]
      && (i + 1 < |HunkBody(op)| || op.start < |original| ==> NewEnding(original, op.hunk, i, OrDominant(line.eol, original)))
  {
    hide RangeEnding, IsDominant, RangeEol, DominantEol;
    var n := |original|;
    DominantIs(original);
    OrDominantIs(DominantEol(original), original);
    if original != [] { OrDominantIs(original[if op.start < n then op.start else n - 1].eol, original); }
  }

  /** Every new line stands in the result where its span says, and ends as its place in the old
      file demands; the last line of the file ends as it did. */
  lemma NewLinesEnd(original: seq<TextLine>, ops: seq<Op>, k: nat, i: nat)
    requires Accepted(ops, |original|) && k < |ops| && i < |HunkBody(ops[k])|
    ensures FromHunk(ops[k], |original|) && InFile(ops[k].hunk, |original|)
    ensures var lines, r := EditedLines(original, ops), Changed(ops)[k].line - 1 + i;
      && 0 <= r < |lines| && lines[r].content == HunkBody(ops[k])[i]
      && if r == |lines| - 1 then lines[r].eol == (if original == [] then NoEol else original[|original| - 1].eol)
         else NewEnding(original, ops[k].hunk, i, lines[r].eol)
  {
    hide Accepted, Growth, Stitch, Chain, NewEnding, BodyLines, Touched, OrDominant;
    assert FromHunk(ops[k], |original|) by { Member(ops, |original|, k); }
    BodyEnding(original, ops[k], i);
    InResult(original, ops, k, i);
    ResultTerminated(original, ops);
  }

  lemma Member(ops: seq<Op>, n: nat, k: nat)
    requires Accepted(ops, n) && k < |ops|
    ensures FromHunk(ops[k], n)
  {
  }

  lemma InResult(original: seq<TextLine>, ops: seq<Op>, k: nat, i: nat)
    requires Accepted(ops, |original|) && k < |ops| && i < |HunkBody(ops[k])| && FromHunk(ops[k], |original|)
    requires |BodyLines(ops[k], original)| == |HunkBody(ops[k])|
    ensures var lines, r := EditedLines(original, ops), Changed(ops)[k].line - 1 + i;
      && 0 <= r < |lines|
      && lines[r].content == BodyLines(ops[k], original)[i].content
      && (r < |lines| - 1 ==> lines[r].eol == OrDominant(BodyLines(ops[k], original)[i].eol, original))
      && (r < |lines| - 1 ==> i + 1 < |HunkBody(ops[k])| || ops[k].hunk.Replace? || ops[k].start < |original|)
  {
    hide Accepted, Growth, Stitch, Chain, BodyLines, Touched, OrDominant, DominantEol;
    LineChain(ops, original, 0);
    BodiesParallel(ops, original);
    GrowthParallel(ContentOf, LineEdits(ops, original), ContentEdits(ops), k);
    AllFrom(ops, |original|);
    var base, edits := Touched(original, ops), LineEdits(ops, original);
    StitchBody(base, edits, 0, k);
    var lines, at := Stitch(base, edits, 0), ops[k].start + Growth(ContentEdits(ops), k);
    assert edits[k].body == BodyLines(ops[k], original);
    assert lines[at..at + |edits[k].body|][i] == edits[k].body[i];
    if original != [] { FinishAt(original, lines, at + i); }
    if ops[k].hunk.Insert? && ops[k].start == |original| { InsertedLast(original, ops, k); }
    if original == [] { IntoNothing(original, ops, k, i); }
  }

  lemma AllFrom(ops: seq<Op>, n: nat)
    requires Accepted(ops, n)
    ensures forall op | op in ops :: FromHunk(op, n)
  {
  }

  /** What is inserted at the end of the file comes last. */
  lemma InsertedLast(original: seq<TextLine>, ops: seq<Op>, k: nat)
    requires Accepted(ops, |original|) && k < |ops| && ops[k].hunk.Insert? && ops[k].start == |original|
    ensures |EditedLines(original, ops)| == ops[k].start + Growth(ContentEdits(ops), k) + |HunkBody(ops[k])|
  {
    hide Growth;
    assert FromHunk(ops[k], |original|);
    if k + 1 < |ops| {
      assert FromHunk(ops[k + 1], |original|);
      assert ops[k + 1 - 1].end <= ops[k + 1].start && !SamePlace(ops[k + 1 - 1], ops[k + 1]);
    }
    hide Accepted;
    LineCountKept(original, ops);
    GrowthAfter(ContentEdits(ops), k);
  }

  lemma GrowthAfter<T>(edits: seq<Edit<T>>, k: nat)
    requires k < |edits|
    ensures Growth(edits, k + 1) == Growth(edits, k) + |edits[k].body| - (edits[k].end - edits[k].start)
  {
  }

  lemma IntoNothing(original: seq<TextLine>, ops: seq<Op>, k: nat, i: nat)
    requires Accepted(ops, |original|) && original == [] && k < |ops| && FromHunk(ops[k], |original|) && i < |BodyLines(ops[k], original)|
    ensures ops[k].hunk.Insert? && ops[k].start == 0
    ensures i + 1 < |HunkBody(ops[k])| ==>
      BodyLines(ops[k], original)[i].eol == OrDominant(BodyLines(ops[k], original)[i].eol, original)
  {
    OneInsertionIntoNothing(ops);
    DominantIs(original);
  }
}
