/** A unified hunk does to a file exactly what its rows say. */
module UnifiedFacts {
  import opened Utf
  import opened Lines
  import opened StableSort
  import opened Stitching
  import opened Hunks
  import opened Apply
  import opened EditFacts
  import opened Unified

  /** The index of the first row a hunk is about: its old rows stand there, or, when it
      has none, its new rows go there. */
  function Place(h: Header): nat {
    if h.oldCount == 0 then h.oldStart else if h.oldStart == 0 then 0 else h.oldStart - 1
  }

  /** The file holds the old rows where the hunk says. */
  predicate Fits(h: Header, rows: seq<Row>, base: seq<Text>) {
    Place(h) <= |base| && OldRows(rows) <= base[Place(h)..]
  }

  predicate Apart(ops: seq<Op>) {
    forall k | 1 <= k < |ops| :: ops[k - 1].end < ops[k].start
  }

  ghost function Raw(h: Header, rows: seq<Row>): seq<Hunk> {
    Flush(Compile(Start(h), rows)).hunks
  }

  lemma StartMeaning(h: Header, base: seq<Text>)
    requires SafeRange(h) && Place(h) <= |base|
    ensures Meaning(Start(h), base, Place(h), Place(h), [])
  {
    assert HunkOps([]) == [] && ContentEdits([]) == [];
  }

  /** On a file that holds the old rows, the operations turn them into the new rows. */
  lemma RawMeaning(h: Header, rows: seq<Row>, base: seq<Text>)
    requires SafeRange(h) && |OldRows(rows)| == h.oldCount && Fits(h, rows, base)
    ensures var p, q := Place(h), Place(h) + h.oldCount;
      && Shaped(Raw(h, rows), p, q) && q <= |base|
      && Stitch(base[..q], ContentEdits(HunkOps(Raw(h, rows))), p) == NewRows(rows)
  {
    hide Meaning, Shaped, Step, Flush;
    var p := Place(h);
    StartMeaning(h, base);
    CompileMeaning(Start(h), base, p, p, [], rows);
    assert [] + NewRows(rows) == NewRows(rows);
    FlushMeaning(Compile(Start(h), rows), base, p, p + h.oldCount, NewRows(rows));
  }

  lemma {:induction false} ApartAscend(ops: seq<Op>, i: nat, j: nat)
    requires Apart(ops) && i < j < |ops| && forall op | op in ops :: op.start <= op.end
    ensures ops[i].end < ops[j].start
    decreases j
  {
    assert ops[j - 1].end < ops[j].start;
    if i < j - 1 { ApartAscend(ops, i, j - 1); }
  }

  /** Separate ranges are in order already and pass the overlap check. */
  lemma ApartAccepted(ops: seq<Op>)
    requires Apart(ops) && forall op | op in ops :: op.start <= op.end
    ensures Sort(ops, OpKey) == ops && CheckOverlaps(ops, 1).None?
  {
    forall i, j | 0 <= i < j < |ops| ensures !Less(OpKey(ops[j]), OpKey(ops[i])) {
      ApartAscend(ops, i, j);
    }
    SortOfSorted(ops, OpKey);
    OverlapsChecked(ops, 1);
  }

  lemma {:induction false} OpsForHunks(hunks: seq<Hunk>, n: nat)
    requires forall hunk | hunk in hunks :: ValidHunk(hunk) && OpFor(hunk, n) == Ok(HunkOp(hunk))
    ensures OpsFor(hunks, n) == Ok(HunkOps(hunks))
  {
    if hunks != [] {
      OpsForHunks(hunks[1..], n);
      assert HunkOps(hunks) == [HunkOp(hunks[0])] + HunkOps(hunks[1..]);
    }
  }

  /** `hunks` are the raw operations, the first with its source rows attached. */
  predicate Sourced(raw: seq<Hunk>, hunks: seq<Hunk>, h: Header, expected: seq<Text>) {
    && raw != [] && |hunks| == |raw| && hunks[1..] == raw[1..]
    && hunks[0] == if expected == [] then raw[0] else WithSource(raw[0], Source(h.oldStart, expected))
  }

  lemma CompiledHunks(h: Header, rows: seq<Row>)
    requires SafeRange(h) && CompileHunk(h, rows).Ok?
    ensures |OldRows(rows)| == h.oldCount
    ensures Sourced(Raw(h, rows), CompileHunk(h, rows).value, h, OldRows(rows))
    ensures Shaped(Raw(h, rows), Place(h), Place(h) + h.oldCount)
  {
    var base := seq(Place(h), _ => []) + OldRows(rows);
    assert base[Place(h)..] == OldRows(rows);
    RawMeaning(h, rows, base);
  }

  lemma SourcedAt(raw: seq<Hunk>, hunks: seq<Hunk>, h: Header, expected: seq<Text>, k: nat)
    requires Sourced(raw, hunks, h, expected) && k < |raw|
    ensures k > 0 ==> hunks[k] == raw[k]
  {
    if k > 0 { assert hunks[1..][k - 1] == raw[1..][k - 1]; }
  }

  lemma SourcedEdits(raw: seq<Hunk>, hunks: seq<Hunk>, h: Header, expected: seq<Text>)
    requires Sourced(raw, hunks, h, expected)
    ensures ContentEdits(HunkOps(hunks)) == ContentEdits(HunkOps(raw))
    ensures Apart(HunkOps(raw)) ==> Apart(HunkOps(hunks))
  {
    forall k | 0 <= k < |raw|
      ensures HunkOps(hunks)[k].start == HunkOps(raw)[k].start && HunkOps(hunks)[k].end == HunkOps(raw)[k].end
      ensures HunkBody(HunkOps(hunks)[k]) == HunkBody(HunkOps(raw)[k])
    {
      SourcedAt(raw, hunks, h, expected, k);
    }
  }

  lemma SourcedValid(raw: seq<Hunk>, hunks: seq<Hunk>, h: Header, expected: seq<Text>)
    requires Sourced(raw, hunks, h, expected) && (expected != [] ==> h.oldStart >= 1)
    requires forall hunk | hunk in raw :: Compiled(hunk)
    ensures forall k | 0 <= k < |hunks| :: ValidHunk(hunks[k])
    ensures forall k, n | 0 <= k < |hunks| && HunkOp(hunks[k]).end <= n :: OpFor(hunks[k], n) == Ok(HunkOp(hunks[k]))
  {
    forall k | 0 <= k < |hunks|
      ensures ValidHunk(hunks[k])
      ensures forall n | HunkOp(hunks[k]).end <= n :: OpFor(hunks[k], n) == Ok(HunkOp(hunks[k]))
    {
      SourcedAt(raw, hunks, h, expected, k);
      assert raw[k] in raw;
    }
  }

  lemma TwoTouch(ops: seq<Op>, p: nat)
    requires |ops| > 1 && Chain(ContentEdits(ops), p, p)
    ensures ops[1 - 1].end == ops[1].start
  {
    var edits := ContentEdits(ops);
    ChainDrop(edits, p, p, 1);
    assert edits[0] == Edit(ops[0].start, ops[0].end, HunkBody(ops[0]));
    assert edits[1] == Edit(ops[1].start, ops[1].end, HunkBody(ops[1]));
  }

  /** A hunk without old rows is one insertion at its place. */
  lemma PureInsertion(raw: seq<Hunk>, p: nat)
    requires raw != [] && Shaped(raw, p, p)
    ensures |raw| == 1 && raw[0].Insert?
    ensures if p == 0 then raw[0].pos == Head else raw[0].pos == After && raw[0].line == p
  {
    var ops := HunkOps(raw);
    assert ContentEdits(ops)[0] == Edit(ops[0].start, ops[0].end, HunkBody(ops[0]));
    assert raw[0] in raw;
    if |raw| > 1 { TwoTouch(ops, p); }
  }

  lemma FittingBounds(raw: seq<Hunk>, hunks: seq<Hunk>, h: Header, expected: seq<Text>, p: nat, q: nat, n: nat)
    requires Sourced(raw, hunks, h, expected) && (expected != [] ==> h.oldStart >= 1)
    requires Shaped(raw, p, q) && q <= n
    ensures AllValid(hunks)
    ensures OpsFor(hunks, n) == Ok(HunkOps(hunks))
    ensures Apart(HunkOps(hunks)) && forall op | op in HunkOps(hunks) :: op.start <= op.end
  {
    var ops := HunkOps(hunks);
    SourcedEdits(raw, hunks, h, expected);
    SourcedValid(raw, hunks, h, expected);
    forall k | 0 <= k < |ops| ensures ops[k].start <= ops[k].end <= n {
      ChainDrop(ContentEdits(ops), p, q, k);
      assert ContentEdits(ops)[k] == Edit(ops[k].start, ops[k].end, HunkBody(ops[k]));
    }
    OpsForHunks(hunks, n);
  }

  lemma FittingSources(raw: seq<Hunk>, hunks: seq<Hunk>, h: Header, expected: seq<Text>, base: seq<Text>)
    requires Sourced(raw, hunks, h, expected) && (forall hunk | hunk in raw :: Compiled(hunk))
    requires expected != [] ==> SourceMatches(Source(h.oldStart, expected), base)
    ensures CheckSources(HunkOps(hunks), base).None?
  {
    var ops := HunkOps(hunks);
    forall op | op in ops ensures SourceOk(op, base) {
      var k :| 0 <= k < |ops| && ops[k] == op;
      SourcedAt(raw, hunks, h, expected, k);
      assert raw[k] in raw;
    }
    SourcesChecked(ops, base);
  }

  /** On a file that holds the old rows every check passes. */
  lemma FittingAccepted(raw: seq<Hunk>, hunks: seq<Hunk>, h: Header, expected: seq<Text>, lines: seq<TextLine>, p: nat, q: nat)
    requires Sourced(raw, hunks, h, expected) && (expected != [] ==> h.oldStart >= 1)
    requires Shaped(raw, p, q) && q <= |lines|
    requires expected != [] ==> SourceMatches(Source(h.oldStart, expected), Contents(lines))
    ensures AllValid(hunks)
    ensures Prepare(lines, hunks) == Ok(HunkOps(hunks))
  {
    hide Sourced, Shaped, Apart, SourceMatches, CheckSources, CheckOverlaps, Sort, OpsFor;
    FittingBounds(raw, hunks, h, expected, p, q, |lines|);
    ShapedCompiled(raw, p, q);
    FittingSources(raw, hunks, h, expected, Contents(lines));
    ApartAccepted(HunkOps(hunks));
  }

  lemma SourceFits(h: Header, rows: seq<Row>, base: seq<Text>)
    requires SafeRange(h) && OldRows(rows) != [] && |OldRows(rows)| == h.oldCount
    ensures SourceMatches(Source(h.oldStart, OldRows(rows)), base) <==> Fits(h, rows, base)
  {
    var p, expected := Place(h), OldRows(rows);
    if p <= |base| && p + |expected| <= |base| {
      assert base[p..][..|expected|] == base[p..p + |expected|];
    }
  }

  lemma SourceRefused(hunks: seq<Hunk>, lines: seq<TextLine>)
    requires hunks != [] && AllValid(hunks) && OpsFor(hunks, |lines|).Ok?
    requires hunks[0].source.Some? && !SourceMatches(hunks[0].source.value, Contents(lines))
    ensures CheckSources(Sort(OpsFor(hunks, |lines|).value, OpKey), Contents(lines)).Some?
  {
    hide SourceMatches;
    var unsorted := OpsFor(hunks, |lines|).value;
    SortSorts(unsorted, OpKey);
    assert OpFor(hunks[0], |lines|) == Ok(unsorted[0]);
    assert unsorted[0] in multiset(Sort(unsorted, OpKey));
    SourcesChecked(Sort(unsorted, OpKey), Contents(lines));
    assert !SourceOk(unsorted[0], Contents(lines));
  }

  /** On any other file the edit is refused, for its bounds or its source rows. */
  lemma MisfitRefused(raw: seq<Hunk>, hunks: seq<Hunk>, h: Header, expected: seq<Text>, lines: seq<TextLine>, p: nat)
    requires Sourced(raw, hunks, h, expected) && AllValid(hunks)
    requires if expected == [] then Shaped(raw, p, p) && p > |lines|
             else !SourceMatches(Source(h.oldStart, expected), Contents(lines))
    ensures Prepare(lines, hunks).Err?
    ensures Prepare(lines, hunks).error.OutOfBounds? || Prepare(lines, hunks).error.SourceMismatch?
  {
    hide Shaped, SourceMatches, CheckOverlaps, Sort, CheckSources;
    OutOfBoundsOnly(hunks, |lines|);
    if expected == [] {
      PureInsertion(raw, p);
      assert OpFor(hunks[0], |lines|).Err?;
    } else if OpsFor(hunks, |lines|).Ok? {
      SourceRefused(hunks, lines);
    }
  }

  lemma {:induction false} OutOfBoundsOnly(hunks: seq<Hunk>, n: nat)
    requires AllValid(hunks)
    ensures OpsFor(hunks, n).Err? ==> OpsFor(hunks, n).error.OutOfBounds?
  {
    if hunks != [] { OutOfBoundsOnly(hunks[1..], n); }
  }

  /** The operations of a hunk are applied exactly to the files that hold its old rows at
      the stated lines, and there they replace those rows by the new ones, however added,
      removed and context rows interleave; a refusal is never for an overlap among the
      hunk's own operations. */
  lemma UnifiedHunkMeaning(h: Header, rows: seq<Row>, doc: Document)
    requires SafeRange(h) && CompileHunk(h, rows).Ok?
    ensures var hunks, base, p := CompileHunk(h, rows).value, Contents(doc.lines), Place(h);
      && AllValid(hunks)
      && (Apply.Apply(doc, hunks).Ok? <==> Fits(h, rows, base))
      && (Apply.Apply(doc, hunks).Err? ==>
            Apply.Apply(doc, hunks).error.OutOfBounds? || Apply.Apply(doc, hunks).error.SourceMismatch?)
      && (Apply.Apply(doc, hunks).Ok? ==>
            Contents(Apply.Apply(doc, hunks).value.document.lines)
            == base[..p] + NewRows(rows) + base[p + |OldRows(rows)|..])
  {
    hide Prepare, CompileHunk, Fits, EditedLines, Changed;
    if Fits(h, rows, Contents(doc.lines)) {
      FittingPrepared(h, rows, doc.lines);
      FittingResult(h, rows, doc.lines);
    } else {
      MisfitPrepared(h, rows, doc.lines);
    }
  }

  lemma FittingPrepared(h: Header, rows: seq<Row>, lines: seq<TextLine>)
    requires SafeRange(h) && CompileHunk(h, rows).Ok? && Fits(h, rows, Contents(lines))
    ensures var hunks := CompileHunk(h, rows).value;
      AllValid(hunks) && Prepare(lines, hunks) == Ok(HunkOps(hunks)) && Accepted(HunkOps(hunks), |lines|)
  {
    hide Shaped, Prepare, CompileHunk, Accepted;
    var hunks, expected := CompileHunk(h, rows).value, OldRows(rows);
    CompiledHunks(h, rows);
    if expected != [] { SourceFits(h, rows, Contents(lines)); }
    RawMeaning(h, rows, Contents(lines));
    FittingAccepted(Raw(h, rows), hunks, h, expected, lines, Place(h), Place(h) + h.oldCount);
    PrepareAccepts(lines, hunks);
  }

  lemma MisfitPrepared(h: Header, rows: seq<Row>, lines: seq<TextLine>)
    requires SafeRange(h) && CompileHunk(h, rows).Ok? && !Fits(h, rows, Contents(lines))
    ensures var hunks := CompileHunk(h, rows).value;
      && AllValid(hunks) && Prepare(lines, hunks).Err?
      && (Prepare(lines, hunks).error.OutOfBounds? || Prepare(lines, hunks).error.SourceMismatch?)
  {
    hide Shaped, Prepare, CompileHunk;
    var hunks, raw, expected := CompileHunk(h, rows).value, Raw(h, rows), OldRows(rows);
    CompiledHunks(h, rows);
    if expected != [] { SourceFits(h, rows, Contents(lines)); }
    ShapedCompiled(raw, Place(h), Place(h) + h.oldCount);
    SourcedValid(raw, hunks, h, expected);
    MisfitRefused(raw, hunks, h, expected, lines, Place(h));
  }

  lemma ShapedCompiled(raw: seq<Hunk>, p: nat, q: nat)
    requires Shaped(raw, p, q)
    ensures forall hunk | hunk in raw :: Compiled(hunk)
  {
  }

  lemma FittingResult(h: Header, rows: seq<Row>, lines: seq<TextLine>)
    requires SafeRange(h) && CompileHunk(h, rows).Ok? && Fits(h, rows, Contents(lines))
    requires Accepted(HunkOps(CompileHunk(h, rows).value), |lines|)
    ensures var base, p := Contents(lines), Place(h);
      && p + |OldRows(rows)| <= |base|
      && Contents(EditedLines(lines, HunkOps(CompileHunk(h, rows).value)))
         == base[..p] + NewRows(rows) + base[p + |OldRows(rows)|..]
  {
    hide Shaped, CompileHunk, EditedLines, Compile, Flush;
    var base, p, ops := Contents(lines), Place(h), HunkOps(CompileHunk(h, rows).value);
    CompiledHunks(h, rows);
    SourcedEdits(Raw(h, rows), CompileHunk(h, rows).value, h, OldRows(rows));
    RawMeaning(h, rows, base);
    SplicingIsStitching(lines, ops);
    ShapedChain(Raw(h, rows), p, p + h.oldCount);
    StitchWithin(base, ContentEdits(ops), p, p + h.oldCount);
  }

  lemma ShapedChain(raw: seq<Hunk>, p: nat, q: nat)
    requires Shaped(raw, p, q)
    ensures Chain(ContentEdits(HunkOps(raw)), p, q)
  {
  }

  /** Edits within `p..q` leave the text before and after alone. */
  lemma StitchWithin<T>(base: seq<T>, edits: seq<Edit<T>>, p: nat, q: nat)
    requires Chain(edits, p, q) && q <= |base|
    ensures Chain(edits, 0, |base|)
    ensures Stitch(base, edits, 0) == base[..p] + Stitch(base[..q], edits, p) + base[q..]
  {
    StitchExtend(base, edits, p, q, |base|);
    assert base[..|base|] == base && base[q..|base|] == base[q..] && base[0..p] == base[..p];
    ChainFromLess(edits, 0, p, |base|);
    StitchSplit(base, edits, 0, p);
    assert base[..p] + (Stitch(base[..q], edits, p) + base[q..]) == base[..p] + Stitch(base[..q], edits, p) + base[q..];
  }
}
