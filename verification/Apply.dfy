/**
 Applying hunks to a document (`applyHunks` in harness/lib/hashline-core.ts): the
 bottom-up, in-place splicing and what it means read from the top.
 */
module Apply {
  import opened Utf
  import opened Lines
  import opened StableSort
  import opened Stitching
  import opened Eols
  import opened Hunks

  /** A changed place in the result: 1-based line and number of lines. */
  datatype Span = Span(line: int, count: nat)

  datatype Counts = Counts(replaced: nat, inserted: nat, deleted: nat)

  datatype Applied = Applied(document: Document, changed: seq<Span>, counts: Counts)

  /** New lines: all but the last end in `eol`, the last in `finalEol`. */
  function WithEols(body: seq<Text>, eol: Eol, finalEol: Eol): (r: seq<TextLine>)
    ensures |r| == |body|
  {
    seq(|body|, i requires 0 <= i < |body| => TextLine(body[i], if i == |body| - 1 then finalEol else eol))
  }

  function OrDominant(eol: Eol, original: seq<TextLine>): Eol {
    if eol != NoEol then eol else DominantEol(original)
  }

  function InsertEol(op: Op, original: seq<TextLine>): Eol
    requires FromHunk(op, |original|) && op.hunk.Insert?
  {
    if original == [] then DominantEol(original)
    else if op.hunk.pos == Head then OrDominant(original[0].eol, original)
    else if op.start < |original| then OrDominant(original[op.start].eol, original)
    else OrDominant(original[|original| - 1].eol, original)
  }

  function InsertFinalEol(op: Op, original: seq<TextLine>): Eol
    requires FromHunk(op, |original|) && op.hunk.Insert?
  {
    if original == [] then NoEol
    else if op.start == |original| then original[|original| - 1].eol
    else InsertEol(op, original)
  }

  function BodyLines(op: Op, original: seq<TextLine>): seq<TextLine>
    requires FromHunk(op, |original|)
  {
    match op.hunk
    case Delete(_, _, _) => []
    case Replace(_, _, body, _) => WithEols(body, RangeEol(original, op.start, op.end), original[op.end - 1].eol)
    case Insert(_, _, body, _) => WithEols(body, InsertEol(op, original), InsertFinalEol(op, original))
  }

  function LineBodies(original: seq<TextLine>): Op -> seq<TextLine> {
    (op: Op) => if FromHunk(op, |original|) then BodyLines(op, original) else []
  }

  function HunkBody(op: Op): seq<Text> { BodyOf(op.hunk) }

  /** An append gives an unterminated last line its terminator; deleting an unterminated
      end of file takes the terminator of the line before it. */
  function Touched(original: seq<TextLine>, ops: seq<Op>): (r: seq<TextLine>)
    requires forall op | op in ops :: FromHunk(op, |original|)
    ensures |r| == |original|
  {
    var n := |original|;
    if ops == [] || n == 0 || original[n - 1].eol != NoEol then original
    else
      var last := ops[|ops| - 1];
      assert FromHunk(last, n);
      if last.hunk.Insert? && last.start == n then
        original[n - 1 := TextLine(original[n - 1].content, InsertEol(last, original))]
      else if last.hunk.Delete? && last.end == n && last.start > 0 then
        original[last.start - 1 := TextLine(original[last.start - 1].content, NoEol)]
      else original
  }

  /** The closing pass: no line but the last goes without a terminator, and the last
      ends as the original did. */
  function Finish(original: seq<TextLine>, lines: seq<TextLine>): (r: seq<TextLine>)
    ensures |r| == |lines|
  {
    if original == [] then lines
    else
      seq(|lines|, i requires 0 <= i < |lines| =>
        TextLine(lines[i].content,
                 if i == |lines| - 1 then original[|original| - 1].eol
                 else OrDominant(lines[i].eol, original)))
  }

  ghost function LineEdits(ops: seq<Op>, original: seq<TextLine>): seq<Edit<TextLine>> {
    Edits(ops, LineBodies(original))
  }

  ghost function ContentEdits(ops: seq<Op>): seq<Edit<Text>> {
    Edits(ops, HunkBody)
  }

  ghost function EditedLines(original: seq<TextLine>, ops: seq<Op>): seq<TextLine>
    requires Accepted(ops, |original|)
  {
    AcceptedChain(ops, |original|, LineBodies(original), 0);
    Finish(original, Stitch(Touched(original, ops), LineEdits(ops, original), 0))
  }

  ghost function Changed(ops: seq<Op>): (r: seq<Span>)
    ensures |r| == |ops|
  {
    seq(|ops|, k requires 0 <= k < |ops| => Span(ops[k].start + Growth(ContentEdits(ops), k) + 1, |HunkBody(ops[k])|))
  }

  function CountHunks(hunks: seq<Hunk>): Counts {
    if hunks == [] then Counts(0, 0, 0)
    else
      var c := CountHunks(hunks[..|hunks| - 1]);
      match hunks[|hunks| - 1]
      case Replace(_, _, _, _) => c.(replaced := c.replaced + 1)
      case Delete(_, _, _) => c.(deleted := c.deleted + 1)
      case Insert(_, _, _, _) => c.(inserted := c.inserted + 1)
  }

  /** What applying hunks means, from the top of the document to its end. */
  ghost function Apply(doc: Document, hunks: seq<Hunk>): Result<Applied, EditError>
    requires AllValid(hunks)
  {
    match Prepare(doc.lines, hunks)
    case Err(e) => Err(e)
    case Ok(ops) =>
      PrepareAccepts(doc.lines, hunks);
      Ok(Applied(Document(doc.bom, EditedLines(doc.lines, ops)), Changed(ops), CountHunks(hunks)))
  }

  /** One turn of the splicing loop on the lines as they stand. */
  function SpliceOp(original: seq<TextLine>, op: Op, lines: seq<TextLine>): seq<TextLine>
    requires FromHunk(op, |original|) && op.end <= |lines|
  {
    var spliced := lines[..op.start] + BodyLines(op, original) + lines[op.end..];
    match op.hunk
    case Delete(_, _, _) =>
      if op.end == |original| && spliced != [] && lines[op.end - 1].eol == NoEol then
        spliced[|spliced| - 1 := TextLine(spliced[|spliced| - 1].content, NoEol)]
      else spliced
    case Replace(_, _, _, _) => spliced
    case Insert(pos, _, _, _) =>
      if (pos == Tail || (pos == After && op.start == |original|)) && lines != [] && lines[|lines| - 1].eol == NoEol then
        var marked := lines[|lines| - 1 := TextLine(lines[|lines| - 1].content, InsertEol(op, original))];
        marked[..op.start] + BodyLines(op, original) + marked[op.end..]
      else spliced
  }

  lemma Neighbours(ops: seq<Op>, n: nat, i: nat)
    requires Accepted(ops, n) && i + 1 < |ops|
    ensures ops[i].start <= ops[i].end <= ops[i + 1].start <= ops[i + 1].end <= n
    ensures !SamePlace(ops[i], ops[i + 1])
  {
    assert FromHunk(ops[i], n) && FromHunk(ops[i + 1], n);
    assert ops[i + 1 - 1].end <= ops[i + 1].start && !SamePlace(ops[i + 1 - 1], ops[i + 1]);
  }

  /** After a range that reaches the end of the file comes one insertion there, at most. */
  lemma AcceptedEnds(ops: seq<Op>, n: nat, i: nat)
    requires Accepted(ops, n) && i + 1 < |ops| && ops[i].end == n
    ensures i + 2 == |ops| && ops[i + 1].start == n && ops[i + 1].hunk.Insert? && ops[i].start != n
  {
    Neighbours(ops, n, i);
    assert FromHunk(ops[i + 1], n);
    if i + 2 < |ops| { Neighbours(ops, n, i + 1); }
  }

  lemma LineChain(ops: seq<Op>, original: seq<TextLine>, i: nat)
    requires Accepted(ops, |original|) && i <= |ops|
    ensures Chain(LineEdits(ops, original), 0, |original|)
    ensures Chain(LineEdits(ops, original)[i..], 0, |original|)
  {
    AcceptedChain(ops, |original|, LineBodies(original), 0);
    ChainDrop(LineEdits(ops, original), 0, |original|, i);
  }

  lemma StitchOne<T>(base: seq<T>, edit: Edit<T>)
    requires edit.start <= edit.end <= |base|
    ensures Chain([edit], 0, |base|)
    ensures Stitch(base, [edit], 0) == base[..edit.start] + edit.body + base[edit.end..]
  {
    assert [edit][1..] == [];
    assert base[0..edit.start] == base[..edit.start];
  }

  lemma SpliceLastValue(original: seq<TextLine>, ops: seq<Op>)
    requires Accepted(ops, |original|) && ops != []
    ensures var op, base := ops[|ops| - 1], Touched(original, ops);
      && op.start <= op.end <= |original| && FromHunk(op, |original|)
      && SpliceOp(original, op, original) == base[..op.start] + BodyLines(op, original) + base[op.end..]
  {
    var op, base := ops[|ops| - 1], Touched(original, ops);
    assert FromHunk(op, |original|);
    hide Accepted;
    if op.hunk.Delete? && base != original {
      assert base[..op.start] == original[..op.start][op.start - 1 := base[op.start - 1]];
      assert base[op.end..] == [] == original[op.end..];
    }
  }

  /** The first turn, on the untouched lines. */
  lemma SpliceLast(original: seq<TextLine>, ops: seq<Op>)
    requires Accepted(ops, |original|) && ops != []
    ensures Chain(LineEdits(ops, original)[|ops| - 1..], 0, |original|)
    ensures SpliceOp.requires(original, ops[|ops| - 1], original)
    ensures SpliceOp(original, ops[|ops| - 1], original)
         == Stitch(Touched(original, ops), LineEdits(ops, original)[|ops| - 1..], 0)
  {
    var op := ops[|ops| - 1];
    SpliceLastValue(original, ops);
    var edit := Edit(op.start, op.end, BodyLines(op, original));
    StitchOne(Touched(original, ops), edit);
    assert LineEdits(ops, original)[|ops| - 1..] == [edit];
  }

  /** Every later turn, on the stitch made so far. */
  lemma SpliceNext(original: seq<TextLine>, ops: seq<Op>, i: nat)
    requires Accepted(ops, |original|) && i + 1 < |ops|
    ensures Chain(LineEdits(ops, original)[i..], 0, |original|)
    ensures Chain(LineEdits(ops, original)[i + 1..], 0, |original|)
    ensures var lines := Stitch(Touched(original, ops), LineEdits(ops, original)[i + 1..], 0);
      && ops[i].end <= |lines|
      && SpliceOp(original, ops[i], lines) == Stitch(Touched(original, ops), LineEdits(ops, original)[i..], 0)
  {
    var op := ops[i];
    assert FromHunk(op, |original|);
    LineChain(ops, original, i);
    LineChain(ops, original, i + 1);
    var base, edits := Touched(original, ops), LineEdits(ops, original);
    var edit := Edit(op.start, op.end, BodyLines(op, original));
    assert edits[i..] == [edit] + edits[i + 1..];
    SpliceStep(base, edit, edits[i + 1..]);
    SpliceIsPlain(original, ops, i, Stitch(base, edits[i + 1..], 0));
  }

  /** Only the last range can meet the end of an unterminated file. */
  lemma SpliceIsPlain(original: seq<TextLine>, ops: seq<Op>, i: nat, lines: seq<TextLine>)
    requires Accepted(ops, |original|) && i + 1 < |ops|
    requires ops[i].end <= |original| && ops[i].end <= |lines|
    requires lines[..ops[i].end] == Touched(original, ops)[..ops[i].end]
    ensures FromHunk(ops[i], |original|)
    ensures SpliceOp(original, ops[i], lines)
         == lines[..ops[i].start] + BodyLines(ops[i], original) + lines[ops[i].end..]
  {
    var op, n := ops[i], |original|;
    assert FromHunk(op, n);
    if op.end == n {
      AcceptedEnds(ops, n, i);
      assert FromHunk(ops[i + 1], n);
      if op.hunk.Delete? {
        assert lines[op.end - 1] == lines[..op.end][op.end - 1] == Touched(original, ops)[n - 1];
      }
    }
  }

  /** The in-place loop, from the last range to the first. */
  method SpliceUp(original: seq<TextLine>, ops: seq<Op>) returns (lines: seq<TextLine>)
    requires Accepted(ops, |original|)
    ensures Chain(LineEdits(ops, original), 0, |original|)
    ensures lines == if ops == [] then original else Stitch(Touched(original, ops), LineEdits(ops, original), 0)
  {
    lines := original;
    var i := |ops|;
    LineChain(ops, original, 0);
    assert LineEdits(ops, original)[0..] == LineEdits(ops, original);
    while i > 0
      invariant 0 <= i <= |ops| && Chain(LineEdits(ops, original)[i..], 0, |original|)
      invariant lines == if i == |ops| then original else Stitch(Touched(original, ops), LineEdits(ops, original)[i..], 0)
    {
      i := i - 1;
      var op, before := ops[i], lines;
      assert FromHunk(op, |original|);
      if i + 1 < |ops| { SpliceNext(original, ops, i); } else { SpliceLast(original, ops); }
      lines := SpliceTurn(original, op, before);
    }
  }

  method SpliceTurn(original: seq<TextLine>, op: Op, before: seq<TextLine>) returns (lines: seq<TextLine>)
    requires FromHunk(op, |original|) && op.end <= |before|
    ensures lines == SpliceOp(original, op, before)
  {
    hide RangeEol, DominantEol, InsertEol, InsertFinalEol, WithEols;
    lines := before;
    match op.hunk {
      case Delete(_, _, _) =>
        var removed := lines[op.start..op.end];
        lines := lines[..op.start] + lines[op.end..];
        if op.end == |original| && |lines| > 0 && removed[|removed| - 1].eol == NoEol {
          lines := lines[|lines| - 1 := TextLine(lines[|lines| - 1].content, NoEol)];
        }
      case Replace(_, _, body, _) =>
        var inherited := ComputeRangeEol(original, op.start, op.end);
        lines := lines[..op.start] + WithEols(body, inherited, original[op.end - 1].eol) + lines[op.end..];
      case Insert(_, _, _, _) =>
        lines := InsertTurn(original, op, before);
    }
  }

  method InsertTurn(original: seq<TextLine>, op: Op, before: seq<TextLine>) returns (lines: seq<TextLine>)
    requires FromHunk(op, |original|) && op.end <= |before| && op.hunk.Insert?
    ensures lines == SpliceOp(original, op, before)
  {
    hide DominantEol, InsertEol, InsertFinalEol, WithEols;
    lines := before;
    var eol := ComputeInsertEol(op, original);
    var finalEol := InsertFinalEol(op, original);
    if (op.hunk.pos == Tail || (op.hunk.pos == After && op.start == |original|))
      && |lines| > 0 && lines[|lines| - 1].eol == NoEol
    {
      lines := lines[|lines| - 1 := TextLine(lines[|lines| - 1].content, eol)];
    }
    lines := lines[..op.start] + WithEols(op.hunk.body, eol, finalEol) + lines[op.start..];
  }

  method ComputeInsertEol(op: Op, original: seq<TextLine>) returns (eol: Eol)
    requires FromHunk(op, |original|) && op.hunk.Insert?
    ensures eol == InsertEol(op, original)
  {
    eol := NoEol;
    if original != [] {
      eol := if op.hunk.pos == Head then original[0].eol
             else if op.start < |original| then original[op.start].eol
             else original[|original| - 1].eol;
    }
    if eol == NoEol { eol := ComputeDominantEol(original); }
  }

  method ApplyHunks(doc: Document, hunks: seq<Hunk>) returns (r: Result<Applied, EditError>)
    requires AllValid(hunks)
    ensures r == Apply(doc, hunks)
  {
    var original := doc.lines;
    var prepared := Prepare(original, hunks);
    if prepared.Err? { return Err(prepared.error); }
    var ops := prepared.value;
    PrepareAccepts(original, hunks);

    var counts := ComputeCounts(hunks);
    var changed := ComputeChanged(ops);
    var spliced := SpliceUp(original, ops);
    var lines := FinishLines(original, spliced);
    if ops == [] { StitchNone(original, LineEdits(ops, original)); }
    return Ok(Applied(Document(doc.bom, lines), changed, counts));
  }

  lemma StitchNone<T>(base: seq<T>, edits: seq<Edit<T>>)
    requires edits == []
    ensures Stitch(base, edits, 0) == base
  {
    assert base[0..] == base;
  }

  method ComputeCounts(hunks: seq<Hunk>) returns (counts: Counts)
    ensures counts == CountHunks(hunks)
  {
    counts := Counts(0, 0, 0);
    for k := 0 to |hunks|
      invariant counts == CountHunks(hunks[..k])
    {
      assert hunks[..k + 1][..k] == hunks[..k];
      match hunks[k] {
        case Replace(_, _, _, _) => counts := counts.(replaced := counts.replaced + 1);
        case Delete(_, _, _) => counts := counts.(deleted := counts.deleted + 1);
        case Insert(_, _, _, _) => counts := counts.(inserted := counts.inserted + 1);
      }
    }
    assert hunks[..|hunks|] == hunks;
  }

  method ComputeChanged(ops: seq<Op>) returns (changed: seq<Span>)
    ensures changed == Changed(ops)
  {
    changed := [];
    var delta := 0;
    for k := 0 to |ops|
      invariant |changed| == k && forall i | 0 <= i < k :: changed[i] == Changed(ops)[i]
      invariant delta == Growth(ContentEdits(ops), k)
    {
      var count := |BodyOf(ops[k].hunk)|;
      changed := changed + [Span(ops[k].start + delta + 1, count)];
      delta := delta + count - (ops[k].end - ops[k].start);
    }
  }

  method FinishLines(original: seq<TextLine>, spliced: seq<TextLine>) returns (lines: seq<TextLine>)
    ensures lines == Finish(original, spliced)
  {
    lines := spliced;
    if |lines| > 0 && |original| > 0 {
      var separator := ComputeDominantEol(original);
      for i := 0 to |lines| - 1
        invariant |lines| == |spliced|
        invariant forall j | 0 <= j < i :: lines[j] == Finish(original, spliced)[j]
        invariant forall j | i <= j < |lines| :: lines[j] == spliced[j]
      {
        if lines[i].eol == NoEol { lines := lines[i := TextLine(lines[i].content, separator)]; }
      }
      lines := lines[|lines| - 1 := TextLine(lines[|lines| - 1].content, original[|original| - 1].eol)];
    }
  }
}
