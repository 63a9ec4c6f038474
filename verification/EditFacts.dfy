/** What every successful edit of a document guarantees. */
module EditFacts {
  import opened Utf
  import opened Lines
  import opened StableSort
  import opened Stitching
  import opened Eols
  import opened Hunks
  import opened Apply

  function ContentOf(line: TextLine): Text { line.content }

  /** A successful application is the edit of some accepted ranges, which are the
      ranges of its hunks in order. */
  lemma AppliedIsEdit(doc: Document, hunks: seq<Hunk>) returns (ops: seq<Op>)
    requires AllValid(hunks) && Apply.Apply(doc, hunks).Ok?
    ensures OpsFor(hunks, |doc.lines|).Ok? && multiset(ops) == multiset(OpsFor(hunks, |doc.lines|).value)
    ensures Accepted(ops, |doc.lines|) && |ops| == |hunks|
    ensures Apply.Apply(doc, hunks).value.document == Document(doc.bom, EditedLines(doc.lines, ops))
    ensures Apply.Apply(doc, hunks).value.changed == Changed(ops)
  {
    PrepareAccepts(doc.lines, hunks);
    ops := Prepare(doc.lines, hunks).value;
  }

  lemma ContentChain(ops: seq<Op>, original: seq<TextLine>)
    requires Accepted(ops, |original|)
    ensures Chain(ContentEdits(ops), 0, |Contents(original)|)
  {
    AcceptedChain(ops, |original|, HunkBody, 0);
  }

  lemma BodiesParallel(ops: seq<Op>, original: seq<TextLine>)
    requires Accepted(ops, |original|)
    ensures Parallel(ContentOf, LineEdits(ops, original), ContentEdits(ops))
  {
    forall k | 0 <= k < |ops|
      ensures Mapped(ContentOf, LineBodies(original)(ops[k]), HunkBody(ops[k]))
    {
      assert FromHunk(ops[k], |original|);
    }
  }

  /** The contents of the result are the original with every range replaced by its body,
      read from top to bottom. */
  lemma SplicingIsStitching(original: seq<TextLine>, ops: seq<Op>)
    requires Accepted(ops, |original|)
    ensures Chain(ContentEdits(ops), 0, |Contents(original)|)
    ensures Contents(EditedLines(original, ops)) == Stitch(Contents(original), ContentEdits(ops), 0)
  {
    BodiesParallel(ops, original);
    LineChain(ops, original, 0);
    ContentChain(ops, original);
    StitchMapped(ContentOf, Touched(original, ops), LineEdits(ops, original), Contents(original), ContentEdits(ops), 0);
  }

  /** The line count changes by what the bodies add over the ranges. */
  lemma LineCountKept(original: seq<TextLine>, ops: seq<Op>)
    requires Accepted(ops, |original|)
    ensures |EditedLines(original, ops)| == |original| + Growth(ContentEdits(ops), |ops|)
  {
    SplicingIsStitching(original, ops);
    StitchLength(Contents(original), ContentEdits(ops), 0);
  }

  /** Each reported span covers exactly the body of its hunk. */
  lemma SpanCoversBody(original: seq<TextLine>, ops: seq<Op>, k: nat)
    requires Accepted(ops, |original|) && k < |ops|
    ensures var contents, span := Contents(EditedLines(original, ops)), Changed(ops)[k];
      && span.count == |HunkBody(ops[k])|
      && 1 <= span.line <= |contents| - span.count + 1
      && contents[span.line - 1..span.line - 1 + span.count] == HunkBody(ops[k])
  {
    SplicingIsStitching(original, ops);
    StitchBody(Contents(original), ContentEdits(ops), 0, k);
  }

  /** Into an empty file there is room for one insertion at most. */
  lemma OneInsertionIntoNothing(ops: seq<Op>)
    requires Accepted(ops, 0)
    ensures |ops| <= 1
    ensures ops != [] ==> ops[0].start == 0 && ops[0].hunk.Insert?
  {
    if ops != [] { assert FromHunk(ops[0], 0); }
    if |ops| > 1 { Neighbours(ops, 0, 0); }
  }

  /** Every line but the last is terminated; a nonempty original passes on its final
      terminator, or its lack of one. */
  lemma ResultTerminated(original: seq<TextLine>, ops: seq<Op>)
    requires Accepted(ops, |original|)
    ensures var lines := EditedLines(original, ops);
      && Terminated(lines)
      && (lines != [] ==> lines[|lines| - 1].eol == if original == [] then NoEol else original[|original| - 1].eol)
  {
    if original == [] {
      OneInsertionIntoNothing(ops);
      var edits := LineEdits(ops, original);
      if ops == [] {
        StitchNone(original, edits);
      } else {
        StitchOne(original, edits[0]);
        assert edits == [edits[0]];
        assert FromHunk(ops[0], 0);
      }
    }
  }

  /** Where a surviving line lands, and exactly which terminator it ends with: its own,
      unless it is now last, or had none, or lost it to the deletion of an unterminated
      end of file. */
  lemma SurvivorKeepsLine(original: seq<TextLine>, ops: seq<Op>, j: nat)
    requires Accepted(ops, |original|) && j < |original| && Survives(ContentEdits(ops), j)
    ensures var lines, r := EditedLines(original, ops), Target(ContentEdits(ops), j);
      && 0 <= r < |lines| && lines[r].content == original[j].content
      && lines[r].eol == (
           if r == |lines| - 1 then original[|original| - 1].eol
           else if LosesEol(original, ops, j) then DominantEol(original)
           else OrDominant(original[j].eol, original))
  {
    SurvivorInStitch(original, ops, j);
    hide LosesEol, Target, Stitch, Survives, Chain, Touched;
    FinishAt(original, Stitch(Touched(original, ops), LineEdits(ops, original), 0), Target(ContentEdits(ops), j));
    TouchedLine(original, ops, j);
  }

  lemma SurvivorInStitch(original: seq<TextLine>, ops: seq<Op>, j: nat)
    requires Accepted(ops, |original|) && j < |original| && Survives(ContentEdits(ops), j)
    ensures |Touched(original, ops)| == |original| && Chain(LineEdits(ops, original), 0, |original|)
    ensures var lines := Stitch(Touched(original, ops), LineEdits(ops, original), 0);
      0 <= Target(ContentEdits(ops), j) < |lines| && lines[Target(ContentEdits(ops), j)] == Touched(original, ops)[j]
  {
    BodiesParallel(ops, original);
    LineChain(ops, original, 0);
    TargetParallel(ContentOf, LineEdits(ops, original), ContentEdits(ops), j);
    SurvivesParallel(ops, original, j);
    StitchSurvivor(Touched(original, ops), LineEdits(ops, original), 0, j);
  }

  lemma FinishAt(original: seq<TextLine>, lines: seq<TextLine>, r: nat)
    requires original != [] && r < |lines|
    ensures Finish(original, lines)[r].content == lines[r].content
    ensures Finish(original, lines)[r].eol
         == if r == |lines| - 1 then original[|original| - 1].eol else OrDominant(lines[r].eol, original)
  {
  }

  /** Line `j` stands right before the deletion of an unterminated end of file. */
  predicate LosesEol(original: seq<TextLine>, ops: seq<Op>, j: nat) {
    original != [] && original[|original| - 1].eol == NoEol && ops != [] &&
    ops[|ops| - 1].hunk.Delete? && ops[|ops| - 1].end == |original| && j + 1 == ops[|ops| - 1].start
  }

  lemma SurvivesParallel(ops: seq<Op>, original: seq<TextLine>, j: nat)
    requires Accepted(ops, |original|) && Survives(ContentEdits(ops), j)
    ensures Survives(LineEdits(ops, original), j)
  {
    forall k | 0 <= k < |ops|
      ensures !(LineEdits(ops, original)[k].start <= j < LineEdits(ops, original)[k].end)
    {
      assert !(ContentEdits(ops)[k].start <= j < ContentEdits(ops)[k].end);
    }
  }

  lemma TouchedLine(original: seq<TextLine>, ops: seq<Op>, j: nat)
    requires Accepted(ops, |original|) && j < |original|
    ensures Touched(original, ops)[j].content == original[j].content
    ensures OrDominant(Touched(original, ops)[j].eol, original)
         == if LosesEol(original, ops, j) then DominantEol(original) else OrDominant(original[j].eol, original)
  {
    if ops != [] { assert FromHunk(ops[|ops| - 1], |original|); }
  }

  // Files of one style

  predicate UsesOnly(lines: seq<TextLine>, style: Eol) {
    forall i | 0 <= i < |lines| :: lines[i].eol == NoEol || lines[i].eol == style
  }

  /** The style of new lines is forced: `style` is in use, or nothing is and it is LF. */
  ghost predicate Style(lines: seq<TextLine>, style: Eol) {
    UsesOnly(lines, style) && Offered(lines, style)
  }

  lemma OfferedIsStyle(lines: seq<TextLine>, style: Eol, eol: Eol)
    requires Style(lines, style) && Offered(lines, eol)
    ensures eol == style
  {
    if i :| 0 <= i < |lines| && lines[i].eol == eol {}
    if i :| 0 <= i < |lines| && lines[i].eol == style {}
  }

  lemma StyleOf(lines: seq<TextLine>, style: Eol)
    requires UsesOnly(lines, style) && style != NoEol
    ensures Style(lines, style) || Style(lines, LF)
  {
    if i :| 0 <= i < |lines| && lines[i].eol != NoEol {
      assert lines[i].eol == style;
    }
  }

  lemma BodyLinesStyle(op: Op, original: seq<TextLine>, style: Eol)
    requires FromHunk(op, |original|) && Style(original, style)
    ensures UsesOnly(BodyLines(op, original), style)
  {
    OfferedIsStyle(original, style, DominantEol(original));
    if op.hunk.Replace? { OfferedIsStyle(original, style, RangeEol(original, op.start, op.end)); }
  }

  lemma {:induction false} StitchStyle(base: seq<TextLine>, edits: seq<Edit<TextLine>>, from: nat, style: Eol)
    requires Chain(edits, from, |base|) && UsesOnly(base, style)
    requires forall k | 0 <= k < |edits| :: UsesOnly(edits[k].body, style)
    ensures UsesOnly(Stitch(base, edits, from), style)
    decreases |edits|
  {
    if edits != [] {
      assert forall k | 0 <= k < |edits[1..]| :: edits[1..][k] == edits[k + 1];
      StitchStyle(base, edits[1..], edits[0].end, style);
    }
  }

  /** A file of one style stays a file of that style. */
  lemma StyleKept(original: seq<TextLine>, ops: seq<Op>, style: Eol)
    requires Accepted(ops, |original|) && Style(original, style)
    ensures UsesOnly(EditedLines(original, ops), style)
  {
    LineChain(ops, original, 0);
    OfferedIsStyle(original, style, DominantEol(original));
    BodiesStyle(original, ops, style);
    StitchStyle(Touched(original, ops), LineEdits(ops, original), 0, style);
  }

  lemma BodiesStyle(original: seq<TextLine>, ops: seq<Op>, style: Eol)
    requires Accepted(ops, |original|) && Style(original, style)
    ensures forall k | 0 <= k < |ops| :: UsesOnly(LineEdits(ops, original)[k].body, style)
    ensures UsesOnly(Touched(original, ops), style)
  {
    forall k | 0 <= k < |ops| ensures UsesOnly(LineEdits(ops, original)[k].body, style) {
      assert FromHunk(ops[k], |original|);
      BodyLinesStyle(ops[k], original, style);
    }
    OfferedIsStyle(original, style, DominantEol(original));
    if ops != [] { assert FromHunk(ops[|ops| - 1], |original|); }
  }
}
