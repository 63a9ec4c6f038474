/**
 Planning one file of a patch (`execute` of the edit tool in
 harness/extensions/hashline.ts): the chained stages, and the lines reported as changed.
 */
module Planning {
  import opened Basics
  import opened Utf
  import opened Lines
  import opened StableSort
  import opened Stitching
  import opened Hunks
  import opened Apply
  import opened EditFacts
  import opened MapChanged
  import opened Staged
  import opened Trails

  datatype Planned = Planned(finalBytes: Bytes, changed: seq<Span>, hunkCount: nat)

  /** For every line of a document, whether some earlier stage wrote it. */
  type Marks = seq<bool>

  ghost function AllTrue(op: Op): (r: Marks)
    ensures |r| == |HunkBody(op)|
  {
    seq(|HunkBody(op)|, _ => true)
  }

  ghost function MarkEdits(ops: seq<Op>): seq<Edit<bool>> { Edits(ops, AllTrue) }

  /** Marks after a stage: kept with the lines that survive, set on the lines it writes. */
  ghost function MarksAfter(marks: Marks, ops: seq<Op>): Marks
    requires Accepted(ops, |marks|)
  {
    AcceptedChain(ops, |marks|, AllTrue, 0);
    Stitch(marks, MarkEdits(ops), 0)
  }

  /** Where a deletion leaves its trace when nothing takes the place of what it deletes: on the
      line that comes there, or on the last one. */
  ghost function Landing(ops: seq<Op>, k: nat, n: nat): int
    requires k < |ops|
  {
    Min(n - 1, ops[k].start + Growth(ContentEdits(ops), k))
  }

  ghost predicate LandsAt(ops: seq<Op>, n: nat, r: int) {
    exists k | 0 <= k < |ops| :: HunkBody(ops[k]) == [] && r == Landing(ops, k, n)
  }

  /** Traces after a stage: what it writes, where its deletions land, and earlier traces on the
      lines that survive. */
  ghost function TracesAfter(traces: Marks, ops: seq<Op>): (r: Marks)
    requires Accepted(ops, |traces|)
    ensures |r| == |MarksAfter(traces, ops)|
  {
    var kept := MarksAfter(traces, ops);
    seq(|kept|, r requires 0 <= r < |kept| => kept[r] || LandsAt(ops, |kept|, r))
  }

  /** The lines with a trace are the lines of the spans. */
  ghost predicate Reported(traces: Marks, spans: seq<Span>) {
    forall r | 0 <= r < |traces| :: traces[r] <==> CoversIndex(spans, r)
  }

  lemma MarksParallel(ops: seq<Op>)
    ensures Parallel((t: Text) => true, ContentEdits(ops), MarkEdits(ops))
  {
  }

  /** As many marks as lines. */
  lemma MarksCount(original: seq<TextLine>, marks: Marks, ops: seq<Op>)
    requires Accepted(ops, |original|) && |marks| == |original|
    ensures |MarksAfter(marks, ops)| == |EditedLines(original, ops)|
  {
    AcceptedChain(ops, |marks|, AllTrue, 0);
    StitchLength(marks, MarkEdits(ops), 0);
    LineCountKept(original, ops);
    MarksParallel(ops);
    GrowthParallel((t: Text) => true, ContentEdits(ops), MarkEdits(ops), |ops|);
  }

  /** A marked line of the result was written by this stage, or survived from a marked
      line, and then the map leads to it. */
  lemma MarkOrigin(original: seq<TextLine>, marks: Marks, ops: seq<Op>, r: nat) returns (written: bool, k: nat)
    requires Accepted(ops, |original|) && |marks| == |original|
    requires r < |MarksAfter(marks, ops)| && MarksAfter(marks, ops)[r]
    ensures written ==> k < |ops| && HunkBody(ops[k]) != [] && SpanCovers(Changed(ops)[k], r + 1)
    ensures !written ==> k < |marks| && marks[k] && MapIndex(ops, k, 0) == r && Survives(ContentEdits(ops), k)
  {
    hide Accepted, Growth, Stitch, Chain, HunkBody, Target, MapIndex, Survives;
    AcceptedChain(ops, |marks|, AllTrue, 0);
    ContentChain(ops, original);
    MarksParallel(ops);
    var edits := MarkEdits(ops);
    written, k := StitchOrigin(marks, edits, 0, r);
    if written {
      assert edits[k] == Edit(ops[k].start, ops[k].end, AllTrue(ops[k]));
      GrowthParallel((t: Text) => true, ContentEdits(ops), edits, k);
    } else {
      StitchSurvivor(marks, edits, 0, k);
      TargetParallel((t: Text) => true, ContentEdits(ops), edits, k);
      SurvivesEither(ops, k);
      SurvivorMapped(ops, k, 0, 0, |original|);
    }
  }

  lemma SurvivesEither(ops: seq<Op>, j: nat)
    ensures Survives(ContentEdits(ops), j) <==> Survives(MarkEdits(ops), j)
  {
    forall i | 0 <= i < |ops|
      ensures ContentEdits(ops)[i].start == MarkEdits(ops)[i].start && ContentEdits(ops)[i].end == MarkEdits(ops)[i].end
    {
    }
  }

  /** What a stage writes is marked. */
  lemma BodyMarked(original: seq<TextLine>, marks: Marks, ops: seq<Op>, k: nat)
    requires Accepted(ops, |original|) && |marks| == |original| && k < |ops|
    ensures var at, size := ops[k].start + Growth(ContentEdits(ops), k), |HunkBody(ops[k])|;
      0 <= at && at + size <= |MarksAfter(marks, ops)| && forall r | at <= r < at + size :: MarksAfter(marks, ops)[r]
  {
    hide Accepted, Growth, Stitch, Chain, HunkBody;
    AcceptedChain(ops, |marks|, AllTrue, 0);
    MarksParallel(ops);
    var edits := MarkEdits(ops);
    GrowthParallel((t: Text) => true, ContentEdits(ops), edits, k);
    StitchBody(marks, edits, 0, k);
    AllSet(MarksAfter(marks, ops), ops[k].start + Growth(ContentEdits(ops), k), AllTrue(ops[k]));
  }

  lemma AllSet(marks: Marks, at: int, part: Marks)
    requires 0 <= at && at + |part| <= |marks| && marks[at..at + |part|] == part && forall i | 0 <= i < |part| :: part[i]
    ensures forall r | at <= r < at + |part| :: marks[r]
  {
    forall r | at <= r < at + |part| ensures marks[r] { assert marks[at..at + |part|][r - at] == part[r - at]; }
  }

  /** A line that survives keeps its mark, and the map leads there. */
  lemma SurvivorMarked(original: seq<TextLine>, marks: Marks, ops: seq<Op>, j: nat)
    requires Accepted(ops, |original|) && |marks| == |original| && j < |marks| && Survives(ContentEdits(ops), j)
    ensures var r := MapIndex(ops, j, 0);
      0 <= r < |MarksAfter(marks, ops)| && MarksAfter(marks, ops)[r] == marks[j]
  {
    hide Accepted, Growth, Stitch, Chain, HunkBody, Target, MapIndex, Survives;
    AcceptedChain(ops, |marks|, AllTrue, 0);
    ContentChain(ops, original);
    MarksParallel(ops);
    var edits := MarkEdits(ops);
    SurvivesEither(ops, j);
    StitchSurvivor(marks, edits, 0, j);
    TargetParallel((t: Text) => true, ContentEdits(ops), edits, j);
    SurvivorMapped(ops, j, 0, 0, |original|);
  }

  /** Wherever the map takes a line with a trace, there is a trace. */
  lemma CarriedTraced(original: seq<TextLine>, traces: Marks, ops: seq<Op>, j: nat)
    requires Accepted(ops, |original|) && |traces| == |original| && j < |traces| && traces[j]
    requires |MarksAfter(traces, ops)| > 0
    ensures var t := TargetIndex(ops, |original|, |MarksAfter(traces, ops)|, j + 1);
      0 <= t < |MarksAfter(traces, ops)| && TracesAfter(traces, ops)[t]
  {
    hide Accepted, MapIndex, MarksAfter;
    if Survives(ContentEdits(ops), j) {
      SurvivorMarked(original, traces, ops, j);
    } else {
      var k :| 0 <= k < |ops| && ContentEdits(ops)[k].start <= j < ContentEdits(ops)[k].end;
      ContentChain(ops, original);
      ReplacedMapped(ops, k, j, 0, 0, |original|);
      BodyMarked(original, traces, ops, k);
    }
  }

  /** A span of the stage, its line kept inside the document. */
  ghost predicate Spanned(spans: seq<Span>, n: nat, t: int) {
    exists line :: Covers(spans, line) && t == Min(n, line) - 1
  }

  /** What a stage reports: its own spans and the earlier ones carried through it. */
  ghost predicate Gathered(original: seq<TextLine>, ops: seq<Op>, before: seq<Span>, after: seq<Span>, n: nat) {
    forall t | 0 <= t < n :: CoversIndex(after, t) <==> Spanned(Changed(ops), n, t) || IsTarget(ops, |original|, n, before, t)
  }

  /** The lines of the stage's own spans have traces. */
  lemma SpannedTraced(original: seq<TextLine>, traces: Marks, ops: seq<Op>, t: nat)
    requires Accepted(ops, |original|) && |traces| == |original| && t < |MarksAfter(traces, ops)|
    requires Spanned(Changed(ops), |MarksAfter(traces, ops)|, t)
    ensures TracesAfter(traces, ops)[t]
  {
    hide Accepted, MarksAfter, Growth;
    var n := |MarksAfter(traces, ops)|;
    var line :| Covers(Changed(ops), line) && t == Min(n, line) - 1;
    var s :| s in Changed(ops) && SpanCovers(s, line);
    var k :| 0 <= k < |ops| && Changed(ops)[k] == s;
    BodyMarked(original, traces, ops, k);
    if HunkBody(ops[k]) == [] { assert t == Landing(ops, k, n); }
  }

  /** One stage reports exactly the lines with a trace. */
  lemma StageReports(original: seq<TextLine>, traces: Marks, ops: seq<Op>, before: seq<Span>, after: seq<Span>)
    requires Accepted(ops, |original|) && |traces| == |original| && Reported(traces, before) && LineList(before, |original|)
    requires Gathered(original, ops, before, after, |EditedLines(original, ops)|)
    ensures Reported(TracesAfter(traces, ops), after)
  {
    hide Accepted, MarksAfter, EditedLines, Changed;
    var n := |EditedLines(original, ops)|;
    MarksCount(original, traces, ops);
    forall r | 0 <= r < n ensures TracesAfter(traces, ops)[r] <==> CoversIndex(after, r) {
      if TracesAfter(traces, ops)[r] { TracedCovered(original, traces, ops, before, r); }
      if Spanned(Changed(ops), n, r) { SpannedTraced(original, traces, ops, r); }
      if IsTarget(ops, |original|, n, before, r) {
        var line :| Covers(before, line) && MappedTo(ops, |original|, n, line, r);
        assert 1 <= line <= |original| && CoversIndex(before, line - 1);
        CarriedTraced(original, traces, ops, line - 1);
      }
    }
  }

  lemma TracedCovered(original: seq<TextLine>, traces: Marks, ops: seq<Op>, before: seq<Span>, r: nat)
    requires Accepted(ops, |original|) && |traces| == |original| && Reported(traces, before)
    requires r < |MarksAfter(traces, ops)| && TracesAfter(traces, ops)[r]
    ensures var n := |MarksAfter(traces, ops)|; Spanned(Changed(ops), n, r) || IsTarget(ops, |original|, n, before, r)
  {
    hide Accepted, MarksAfter, MapIndex;
    var n := |MarksAfter(traces, ops)|;
    if MarksAfter(traces, ops)[r] {
      var written, k := MarkOrigin(original, traces, ops, r);
      if written {
        assert Covers(Changed(ops), r + 1);
      } else {
        assert CoversIndex(before, k);
        assert MappedTo(ops, |original|, n, k + 1, r);
      }
    } else {
      var k :| 0 <= k < |ops| && HunkBody(ops[k]) == [] && r == Landing(ops, k, n);
      var s := Changed(ops)[k];
      assert SpanCovers(s, s.line) && Covers(Changed(ops), s.line);
    }
  }

  /** The marks after all the stages that a plan runs. */
  ghost function FinalMarks(env: Env, doc: Document, bytes: Bytes, marks: Marks, stages: seq<Stage>): Marks
    requires ValidStages(stages) && |marks| == |doc.lines|
    decreases |stages|
  {
    if stages == [] || StageResult(env, doc, bytes, stages[0]).Err? then marks
    else
      var (doc', bytes') := StageResult(env, doc, bytes, stages[0]).value;
      PrepareAccepts(doc.lines, stages[0].hunks);
      var ops := Prepare(doc.lines, stages[0].hunks).value;
      MarksCount(doc.lines, marks, ops);
      FinalMarks(env, doc', bytes', MarksAfter(marks, ops), stages[1..])
  }

  /** The traces after all the stages that a plan runs. */
  ghost function FinalTraces(env: Env, doc: Document, bytes: Bytes, traces: Marks, stages: seq<Stage>): Marks
    requires ValidStages(stages) && |traces| == |doc.lines|
    decreases |stages|
  {
    if stages == [] || StageResult(env, doc, bytes, stages[0]).Err? then traces
    else
      var (doc', bytes') := StageResult(env, doc, bytes, stages[0]).value;
      PrepareAccepts(doc.lines, stages[0].hunks);
      var ops := Prepare(doc.lines, stages[0].hunks).value;
      MarksCount(doc.lines, traces, ops);
      FinalTraces(env, doc', bytes', TracesAfter(traces, ops), stages[1..])
  }

  lemma AfterStays(original: seq<TextLine>, marks: Marks, traces: Marks, ops: seq<Op>)
    requires Accepted(ops, |original|) && |marks| == |traces| == |original| && forall r | 0 <= r < |marks| && marks[r] :: traces[r]
    ensures |MarksAfter(marks, ops)| == |TracesAfter(traces, ops)|
    ensures forall r | 0 <= r < |MarksAfter(marks, ops)| && MarksAfter(marks, ops)[r] :: TracesAfter(traces, ops)[r]
  {
    hide Accepted, MarksAfter, MapIndex, Survives, Growth;
    MarksCount(original, marks, ops);
    MarksCount(original, traces, ops);
    forall r | 0 <= r < |MarksAfter(marks, ops)| && MarksAfter(marks, ops)[r] ensures TracesAfter(traces, ops)[r] {
      var written, k := MarkOrigin(original, marks, ops, r);
      if written { BodyMarked(original, traces, ops, k); } else { SurvivorMarked(original, traces, ops, k); }
    }
  }

  /** Every line that some stage wrote has a trace. */
  lemma {:induction false} WrittenIsTraced(env: Env, doc: Document, bytes: Bytes, marks: Marks, traces: Marks, stages: seq<Stage>)
    requires ValidStages(stages) && |marks| == |traces| == |doc.lines| && forall r | 0 <= r < |marks| && marks[r] :: traces[r]
    ensures var m, t := FinalMarks(env, doc, bytes, marks, stages), FinalTraces(env, doc, bytes, traces, stages);
      |m| == |t| && forall r | 0 <= r < |m| && m[r] :: t[r]
    decreases |stages|
  {
    hide StageResult, Prepare, Accepted, MarksAfter, TracesAfter;
    if stages != [] && StageResult(env, doc, bytes, stages[0]).Ok? {
      var (doc', bytes') := StageResult(env, doc, bytes, stages[0]).value;
      StagesTail(stages);
      MarksAfterStage(env, doc, bytes, stages[0], marks);
      MarksAfterStage(env, doc, bytes, stages[0], traces);
      var ops := Prepare(doc.lines, stages[0].hunks).value;
      AfterStays(doc.lines, marks, traces, ops);
      WrittenIsTraced(env, doc', bytes', MarksAfter(marks, ops), TracesAfter(traces, ops), stages[1..]);
    }
  }

  /** Every hunk puts something in its place. */
  predicate PutsSomething(hunks: seq<Hunk>) { forall h | h in hunks :: BodyOf(h) != [] }

  lemma NothingLands(lines: seq<TextLine>, hunks: seq<Hunk>, n: nat, r: int)
    requires AllValid(hunks) && Prepare(lines, hunks).Ok? && PutsSomething(hunks)
    ensures !LandsAt(Prepare(lines, hunks).value, n, r)
  {
    hide Growth;
    PrepareAccepts(lines, hunks);
    hide Prepare, Accepted;
    var ops := Prepare(lines, hunks).value;
    forall k | 0 <= k < |ops| ensures HunkBody(ops[k]) != [] {
      assert ops[k] in multiset(ops);
      var unsorted := OpsFor(hunks, |lines|).value;
      assert ops[k] in unsorted;
      var i :| 0 <= i < |unsorted| && unsorted[i] == ops[k];
      assert OpFor(hunks[i], |lines|) == Ok(ops[k]);
    }
  }

  /** Without deletions the lines with a trace are the lines that some stage wrote. */
  lemma {:induction false} TracesAreWritten(env: Env, doc: Document, bytes: Bytes, marks: Marks, stages: seq<Stage>)
    requires ValidStages(stages) && |marks| == |doc.lines| && forall s | s in stages :: PutsSomething(s.hunks)
    ensures FinalTraces(env, doc, bytes, marks, stages) == FinalMarks(env, doc, bytes, marks, stages)
    decreases |stages|
  {
    hide StageResult, Prepare, Accepted, MarksAfter, LandsAt, PutsSomething;
    if stages != [] && StageResult(env, doc, bytes, stages[0]).Ok? {
      var (doc', bytes') := StageResult(env, doc, bytes, stages[0]).value;
      StagesTail(stages);
      MarksAfterStage(env, doc, bytes, stages[0], marks);
      var ops := Prepare(doc.lines, stages[0].hunks).value;
      var kept := MarksAfter(marks, ops);
      assert stages[0] in stages;
      forall r ensures !LandsAt(ops, |kept|, r) { NothingLands(doc.lines, stages[0].hunks, |kept|, r); }
      assert TracesAfter(marks, ops) == kept;
      TracesAreWritten(env, doc', bytes', kept, stages[1..]);
    }
  }

  /** The changed lines of a plan: single lines in order, inside the document. */
  predicate LineList(spans: seq<Span>, n: nat) {
    && (forall s | s in spans :: s.count == 1 && 1 <= s.line <= n)
    && (forall i, j | 0 <= i < j < |spans| :: spans[i].line < spans[j].line)
  }

  /** The set of lines of some spans, each kept inside the document, in order. */
  method CollectLines(spans: seq<Span>, n: nat) returns (lines: seq<Span>)
    requires forall s | s in spans :: s.line >= 1
    ensures LineList(lines, n)
    ensures forall t | 0 <= t < n :: CoversIndex(lines, t) <==> Spanned(spans, n, t)
  {
    var found: seq<int> := [];
    for k := 0 to |spans|
      invariant Distinct(found) && forall line | line in found :: 1 <= line <= n
      invariant n > 0 ==> forall line :: line in found <==> Spanned(spans[..k], n, line - 1)
    {
      var span := spans[k];
      ghost var earlier := found;
      var offset := 0;
      while offset < Max(1, span.count)
        invariant 0 <= offset <= Max(1, span.count)
        invariant Distinct(found) && (forall line | line in found :: 1 <= line <= n)
        invariant n > 0 ==> forall line :: line in found <==> line in earlier || Reached(span, n, offset, line)
      {
        ghost var was := found;
        if n > 0 {
          var line := Min(n, span.line + offset);
          if line !in found { found := found + [line]; }
          OneMoreReached(span, n, offset, was, found, earlier);
        }
        offset := offset + 1;
      }
      OneMoreSpanned(spans, n, k);
    }
    assert spans[..|spans|] == spans;
    lines := SingleLines(found, n);
  }

  ghost predicate KeptInside(n: nat, from: int, line: int) { line == Min(n, from) }

  /** One of the first lines of a span, kept inside the document. */
  ghost predicate Reached(span: Span, n: nat, offset: int, line: int) {
    exists from :: span.line <= from < span.line + offset && KeptInside(n, from, line)
  }

  lemma OneMoreReached(span: Span, n: nat, offset: nat, was: seq<int>, found: seq<int>, earlier: seq<int>)
    requires found == if Min(n, span.line + offset) in was then was else was + [Min(n, span.line + offset)]
    requires forall line :: line in was <==> line in earlier || Reached(span, n, offset, line)
    ensures forall line :: line in found <==> line in earlier || Reached(span, n, offset + 1, line)
  {
    forall line ensures Reached(span, n, offset + 1, line) <==> Reached(span, n, offset, line) || line == Min(n, span.line + offset) {
      if line == Min(n, span.line + offset) { assert KeptInside(n, span.line + offset, line); }
    }
  }

  lemma OneMoreSpanned(spans: seq<Span>, n: nat, k: nat)
    requires k < |spans|
    ensures forall t :: Spanned(spans[..k + 1], n, t) <==>
      Spanned(spans[..k], n, t) || Reached(spans[k], n, Max(1, spans[k].count), t + 1)
  {
    var span := spans[k];
    assert spans[..k + 1] == spans[..k] + [span];
    forall t ensures Spanned(spans[..k + 1], n, t) <==> Spanned(spans[..k], n, t) || Reached(span, n, Max(1, span.count), t + 1) {
      if Spanned(spans[..k + 1], n, t) {
        var l :| Covers(spans[..k + 1], l) && t == Min(n, l) - 1;
        if SpanCovers(span, l) { assert KeptInside(n, l, t + 1); } else { assert Covers(spans[..k], l); }
      }
      if Spanned(spans[..k], n, t) {
        var l :| Covers(spans[..k], l) && t == Min(n, l) - 1;
        assert Covers(spans[..k + 1], l);
      }
      if Reached(span, n, Max(1, span.count), t + 1) {
        var l :| span.line <= l < span.line + Max(1, span.count) && KeptInside(n, l, t + 1);
        assert SpanCovers(span, l) && Covers(spans[..k + 1], l);
      }
    }
  }

  method SingleLines(found: seq<int>, n: nat) returns (lines: seq<Span>)
    requires Distinct(found) && forall line | line in found :: 1 <= line <= n
    ensures LineList(lines, n)
    ensures forall line :: line in found <==> Covers(lines, line)
  {
    SortAscends(found);
    var sorted := Sort(found, IntKey);
    lines := seq(|sorted|, i requires 0 <= i < |sorted| => Span(sorted[i], 1));
    forall s | s in lines ensures s.count == 1 && 1 <= s.line <= n {
      var i :| 0 <= i < |lines| && lines[i] == s;
      assert sorted[i] in sorted;
    }
    forall line ensures line in found <==> Covers(lines, line) {
      if line in found {
        var i :| 0 <= i < |sorted| && sorted[i] == line;
        assert lines[i] in lines && SpanCovers(lines[i], line);
      }
      if Covers(lines, line) {
        var s :| s in lines && SpanCovers(s, line);
        var i :| 0 <= i < |lines| && lines[i] == s;
        assert sorted[i] == line && sorted[i] in sorted;
      }
    }
  }

  lemma ChangedStart(ops: seq<Op>, original: seq<TextLine>)
    requires Accepted(ops, |original|)
    ensures forall s | s in Changed(ops) :: s.line >= 1
  {
    forall s | s in Changed(ops) ensures s.line >= 1 {
      var k :| 0 <= k < |ops| && Changed(ops)[k] == s;
      SpanCoversBody(original, ops, k);
    }
  }

  lemma GatheredFrom(original: seq<TextLine>, ops: seq<Op>, before: seq<Span>, mapped: seq<Span>, after: seq<Span>, n: nat)
    requires forall t | 0 <= t < n :: CoversIndex(after, t) <==> Spanned(mapped + Changed(ops), n, t)
    requires n > 0 ==> forall t :: CoversIndex(mapped, t) <==> IsTarget(ops, |original|, n, before, t)
    requires Tidy(mapped, n)
    ensures Gathered(original, ops, before, after, n)
  {
    hide Changed, IsTarget;
    forall t | 0 <= t < n ensures Spanned(mapped + Changed(ops), n, t) <==> Spanned(Changed(ops), n, t) || CoversIndex(mapped, t) {
      if Spanned(mapped + Changed(ops), n, t) {
        var line :| Covers(mapped + Changed(ops), line) && t == Min(n, line) - 1;
        if Covers(mapped, line) { assert line <= n; } else { CoveredBySecond(mapped, Changed(ops), line); }
      }
      if Spanned(Changed(ops), n, t) {
        var line :| Covers(Changed(ops), line) && t == Min(n, line) - 1;
        assert Covers(mapped + Changed(ops), line);
      }
      if CoversIndex(mapped, t) { assert Covers(mapped + Changed(ops), t + 1); }
    }
  }

  lemma CoveredBySecond(a: seq<Span>, b: seq<Span>, line: int)
    requires Covers(a + b, line) && !Covers(a, line)
    ensures Covers(b, line)
  {
  }

  /** One turn of the stage loop. */
  method RunStage(env: Env, doc: Document, bytes: Bytes, stage: Stage, changed: seq<Span>, ghost traces: Marks)
    returns (r: Result<(Document, Bytes, Applied, seq<Span>), PlanError>)
    requires AllValid(stage.hunks) && |traces| == |doc.lines|
    requires Reported(traces, changed) && LineList(changed, |doc.lines|)
    ensures r.Err? ==> StageResult(env, doc, bytes, stage) == Err(r.error)
    ensures r.Ok? ==> StageResult(env, doc, bytes, stage) == Ok((r.value.0, r.value.1))
    ensures r.Ok? ==> Prepare(doc.lines, stage.hunks).Ok? && Accepted(Prepare(doc.lines, stage.hunks).value, |doc.lines|)
    ensures r.Ok? ==> LineList(r.value.3, |r.value.0.lines|)
    ensures r.Ok? ==> Reported(TracesAfter(traces, Prepare(doc.lines, stage.hunks).value), r.value.3)
  {
    hide Prepare, Serialize, Reported, IsTarget, LineList, Spanned, TracesAfter;
    if stage.tag != env.fileTag(bytes) { return Err(StaleTag); }
    var applied := ApplyHunks(doc, stage.hunks);
    if applied.Err? { return Err(Refused(applied.error)); }
    var written := SerializeDocument(applied.value.document);
    if written.Err? { return Err(Unwritable(written.error)); }
    if |written.value| > env.maxBytes { return Err(TooLarge); }
    var n := |applied.value.document.lines|;
    var prior := MapChangedLines(changed, |doc.lines|, stage.hunks, n);
    PreparedOps(doc, stage.hunks);
    ghost var ops := Prepare(doc.lines, stage.hunks).value;
    ChangedStart(ops, doc.lines);
    TidyStart(prior.value, n);
    var lines := CollectLines(prior.value + applied.value.changed, n);
    GatheredFrom(doc.lines, ops, changed, prior.value, lines, n);
    StageReports(doc.lines, traces, ops, changed, lines);
    return Ok((applied.value.document, written.value, applied.value, lines));
  }

  lemma TidyStart(spans: seq<Span>, n: nat)
    requires Tidy(spans, n)
    ensures forall s | s in spans :: s.line >= 1
  {
  }

  lemma PreparedOps(doc: Document, hunks: seq<Hunk>)
    requires AllValid(hunks) && Apply.Apply(doc, hunks).Ok?
    ensures OpsFor(hunks, |doc.lines|).Ok? && Prepare(doc.lines, hunks).Ok?
    ensures Prepare(doc.lines, hunks).value == Sort(OpsFor(hunks, |doc.lines|).value, OpKey)
    ensures var ops := Prepare(doc.lines, hunks).value;
      && Accepted(ops, |doc.lines|)
      && Apply.Apply(doc, hunks).value.changed == Changed(ops)
      && Apply.Apply(doc, hunks).value.document.lines == EditedLines(doc.lines, ops)
  {
    PrepareAccepts(doc.lines, hunks);
  }

  /** The stages of one file. The bytes to write are those of the chained stages, and the
      reported lines are exactly those with a trace of some stage. */
  method PlanTarget(env: Env, original: Bytes, stages: seq<Stage>) returns (r: Result<Planned, PlanError>)
    requires ValidStages(stages)
    ensures |original| > env.maxBytes ==> r == Err(TooLarge)
    ensures |original| <= env.maxBytes && Decoded(original).Err? ==> r == Err(Unreadable(Decoded(original).error))
    ensures |original| <= env.maxBytes && Decoded(original).Ok? ==>
      var doc := Decoded(original).value;
      match InMemory(env, doc, original, stages)
      case Err(e) => r == Err(e)
      case Ok(b) => if TotalHunks(stages) == 0 then r == Err(NoHunks) else r.Ok? && r.value.finalBytes == b
    ensures r.Ok? ==> |original| <= env.maxBytes && Decoded(original).Ok?
    // Each stage is made for the version it is applied to, the first for the file as it was read.
    ensures r.Ok? ==> EndsIn(env, Version(Decoded(original).value, original), stages, r.value.finalBytes)
    ensures |original| <= env.maxBytes && Decoded(original).Ok? && r.Err? ==>
      r == Err(NoHunks) || StopsWith(env, Version(Decoded(original).value, original), stages, r.error)
    ensures |original| <= env.maxBytes && Decoded(original).Ok? && stages != [] && stages[0].tag != env.fileTag(original) ==>
      r == Err(StaleTag)
    ensures r.Ok? ==> var doc := Decoded(original).value;
      Reported(FinalTraces(env, doc, original, seq(|doc.lines|, _ => false), stages), r.value.changed)
  {
    hide StageResult, Prepare, Accepted, InMemory, FinalTraces, Reported, TracesAfter, LineList, EndsIn, StopsWith;
    if |original| > env.maxBytes { return Err(TooLarge); }
    var decoded := DecodeDocument(original);
    if decoded.Err? { return Err(Unreadable(decoded.error)); }
    var doc, bytes := decoded.value, original;
    var changed: seq<Span> := [];
    var hunkCount: nat := 0;
    ghost var start: Marks := seq(|doc.lines|, _ => false);
    ghost var traces := start;
    InMemoryFollows(env, Version(doc, original), stages);
    StaleIsRefused(env, doc, original, stages);
    NothingReported(traces, |doc.lines|);
    var k := 0;
    assert stages[0..] == stages;
    while k < |stages|
      invariant 0 <= k <= |stages| && ValidStages(stages[k..])
      invariant |traces| == |doc.lines| && Reported(traces, changed) && LineList(changed, |doc.lines|)
      invariant hunkCount + TotalHunks(stages[k..]) == TotalHunks(stages)
      invariant InMemory(env, doc, bytes, stages[k..]) == InMemory(env, decoded.value, original, stages)
      invariant FinalTraces(env, doc, bytes, traces, stages[k..]) == FinalTraces(env, decoded.value, original, start, stages)
    {
      var stage := stages[k];
      assert stages[k..][0] == stage && stages[k..][1..] == stages[k + 1..];
      StagesTail(stages[k..]);
      var turn := RunStage(env, doc, bytes, stage, changed, traces);
      Unroll(env, doc, bytes, traces, stages[k..]);
      if turn.Err? { return Err(turn.error); }
      ghost var ops := Prepare(doc.lines, stage.hunks).value;
      MarksAfterStage(env, doc, bytes, stage, traces);
      traces := TracesAfter(traces, ops);
      doc, bytes, changed := turn.value.0, turn.value.1, turn.value.3;
      hunkCount := hunkCount + |stage.hunks|;
      k := k + 1;
    }
    assert stages[k..] == [];
    UnrollEnd(env, doc, bytes, traces);
    if hunkCount == 0 { return Err(NoHunks); }
    return Ok(Planned(bytes, changed, hunkCount));
  }

  lemma StaleIsRefused(env: Env, doc: Document, bytes: Bytes, stages: seq<Stage>)
    requires ValidStages(stages)
    ensures stages != [] && stages[0].tag != env.fileTag(bytes) ==> InMemory(env, doc, bytes, stages) == Err(StaleTag)
  {
    hide Apply.Apply, Serialize;
    if stages != [] { StagesTail(stages); }
  }

  function TotalHunks(stages: seq<Stage>): nat {
    if stages == [] then 0 else |stages[0].hunks| + TotalHunks(stages[1..])
  }

  lemma NothingReported(traces: Marks, n: nat)
    requires forall r | 0 <= r < |traces| :: !traces[r]
    ensures Reported(traces, []) && LineList([], n)
  {
  }

  lemma StagesTail(stages: seq<Stage>)
    requires stages != [] && ValidStages(stages)
    ensures AllValid(stages[0].hunks) && ValidStages(stages[1..])
  {
    assert stages[0] in stages;
  }

  lemma MarksAfterStage(env: Env, doc: Document, bytes: Bytes, stage: Stage, marks: Marks)
    requires AllValid(stage.hunks) && |marks| == |doc.lines| && StageResult(env, doc, bytes, stage).Ok?
    ensures Prepare(doc.lines, stage.hunks).Ok? && Accepted(Prepare(doc.lines, stage.hunks).value, |doc.lines|)
    ensures |MarksAfter(marks, Prepare(doc.lines, stage.hunks).value)| == |StageResult(env, doc, bytes, stage).value.0.lines|
  {
    PreparedOps(doc, stage.hunks);
    MarksCount(doc.lines, marks, Prepare(doc.lines, stage.hunks).value);
  }

  lemma Unroll(env: Env, doc: Document, bytes: Bytes, marks: Marks, stages: seq<Stage>)
    requires stages != [] && ValidStages(stages) && AllValid(stages[0].hunks) && |marks| == |doc.lines|
    ensures var turn := StageResult(env, doc, bytes, stages[0]);
      && (turn.Err? ==> InMemory(env, doc, bytes, stages) == Err(turn.error))
      && (turn.Ok? ==>
            && ValidStages(stages[1..])
            && InMemory(env, doc, bytes, stages) == InMemory(env, turn.value.0, turn.value.1, stages[1..])
            && Prepare(doc.lines, stages[0].hunks).Ok? && Accepted(Prepare(doc.lines, stages[0].hunks).value, |doc.lines|)
            && |MarksAfter(marks, Prepare(doc.lines, stages[0].hunks).value)| == |turn.value.0.lines|
            && FinalTraces(env, doc, bytes, marks, stages)
               == FinalTraces(env, turn.value.0, turn.value.1, TracesAfter(marks, Prepare(doc.lines, stages[0].hunks).value), stages[1..]))
  {
    hide StageResult, Prepare, Accepted, TracesAfter;
    if StageResult(env, doc, bytes, stages[0]).Ok? { MarksAfterStage(env, doc, bytes, stages[0], marks); }
  }

  lemma UnrollEnd(env: Env, doc: Document, bytes: Bytes, marks: Marks)
    requires |marks| == |doc.lines|
    ensures ValidStages([]) && InMemory(env, doc, bytes, []) == Ok(bytes) && FinalTraces(env, doc, bytes, marks, []) == marks
  {
  }
}
