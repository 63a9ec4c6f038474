/** What the parser's answers are good for: every one can be applied, and nothing that
    can be printed is read differently. */
module PatchFacts {
  import opened Utf
  import opened Lines
  import opened Spaces
  import opened Hunks
  import opened Unified
  import opened UnifiedFacts
  import opened PatchText

  // ---- Parsed hunks can be applied --------------------------------------------------------

  /** The ranges are in order, new lines hold no breaks, and what should add lines does. */
  predicate Usable(h: Hunk) { ValidHunk(h) && BreakFree(h) && (!h.Delete? ==> h.body != []) }

  predicate AllUsable(hunks: seq<Hunk>) { forall h | h in hunks :: Usable(h) }

  predicate SectionHolds(s: Section) { s.hunks != [] && AllUsable(s.hunks) }

  predicate Clean(lines: seq<Text>) { forall t | t in lines :: NoBreaks(t) }

  predicate ReadingHolds(r: Reading) {
    && (forall s | s in r.done :: SectionHolds(s))
    && (r.current.Some? ==> AllUsable(r.current.value.hunks))
    && (r.open.Some? ==> r.current.Some? && ValidHunk(r.open.value) && BreakFree(r.open.value) && !r.open.value.Delete?)
  }

  lemma {:induction false} SplitIsClean(t: Text)
    ensures Clean(SplitRows(t))
  {
    if t != [] {
      if |t| >= 2 && t[0] == 13 && t[1] == 10 { SplitIsClean(t[2..]); } else {
        var rest := SplitRows(t[1..]);
        SplitIsClean(t[1..]);
        assert rest[0] in rest;
        if !IsBreak(t[0]) { OneMore(t[0], rest); }
      }
    }
  }

  lemma OneMore(u: Unit, rest: seq<Text>)
    requires !IsBreak(u) && Clean(rest) && rest != []
    ensures Clean([[u] + rest[0]] + rest[1..])
  {
    assert rest[0] in rest;
    var first := [u] + rest[0];
    forall i | 0 <= i < |first| ensures !IsBreak(first[i]) { assert i > 0 ==> first[i] == rest[0][i - 1]; }
  }

  predicate CleanRow(row: Row) { NoBreaks(row.text) }

  predicate CleanState(s: State) {
    (forall h | h in s.hunks :: BreakFree(h)) && (s.run.Some? ==> Clean(s.run.value.body))
  }

  lemma StepClean(s: State, row: Row)
    requires CleanState(s) && CleanRow(row)
    ensures CleanState(Step(s, row)) && CleanState(Flush(s))
  {
    hide NoBreaks;
  }

  lemma {:induction false} CompileClean(s: State, rows: seq<Row>)
    requires CleanState(s) && forall row | row in rows :: CleanRow(row)
    ensures CleanState(Compile(s, rows))
    decreases |rows|
  {
    hide CleanState, Step, CleanRow;
    if rows != [] {
      StepClean(s, rows[0]);
      CompileClean(Step(s, rows[0]), rows[1..]);
    }
  }

  lemma {:induction false} RowsClean(lines: seq<Text>, i: nat)
    requires i <= |lines| && Clean(lines)
    ensures forall row | row in RowsFrom(lines, i) :: CleanRow(row)
    decreases |lines| - i
  {
    if i < |lines| && RowOf(lines[i]).Some? {
      assert lines[i] in lines;
      RowsClean(lines, i + 1);
    }
  }

  /** The operations of a unified hunk are usable. */
  lemma UnifiedUsable(lines: seq<Text>, n: nat, h: Unified.Header)
    requires n < |lines| && Clean(lines) && Parsed(lines, n, h).Ok?
    ensures AllUsable(Parsed(lines, n, h).value.0)
  {
    hide RowsFrom, Clean, RowOf, Shaped, ValidHunk, BreakFree;
    var rows := RowsFrom(lines, n + 1);
    var hunks := Parsed(lines, n, h).value.0;
    RowsClean(lines, n + 1);
    CompiledHunks(h, rows);
    ShapedCompiled(Raw(h, rows), Place(h), Place(h) + h.oldCount);
    OldStart(h, rows);
    SourcedValid(Raw(h, rows), hunks, h, OldRows(rows));
    StartClean(h);
    CompileClean(Start(h), rows);
    FlushClean(Compile(Start(h), rows));
    SourcedUsable(Raw(h, rows), hunks, h, OldRows(rows));
  }

  lemma StartClean(h: Unified.Header)
    ensures CleanState(Start(h))
  {
  }

  lemma FlushClean(s: State)
    requires CleanState(s)
    ensures CleanState(Flush(s))
  {
  }

  lemma OldStart(h: Unified.Header, rows: seq<Row>)
    requires SafeRange(h) && |OldRows(rows)| == h.oldCount
    ensures OldRows(rows) != [] ==> h.oldStart >= 1
  {
  }

  lemma SourcedUsable(raw: seq<Hunk>, hunks: seq<Hunk>, h: Unified.Header, expected: seq<Text>)
    requires Sourced(raw, hunks, h, expected)
    requires forall hunk | hunk in raw :: Compiled(hunk) && BreakFree(hunk)
    requires forall k | 0 <= k < |hunks| :: ValidHunk(hunks[k])
    ensures AllUsable(hunks)
  {
    hide NoBreaks, ValidHunk;
    forall hunk | hunk in hunks ensures Usable(hunk) {
      var k :| 0 <= k < |hunks| && hunks[k] == hunk;
      SourcedAt(raw, hunks, h, expected, k);
      assert raw[k] in raw;
    }
  }

  lemma ClosedHolds(r: Reading, line: nat)
    requires ReadingHolds(r)
    ensures CloseHunk(r, line).Ok? ==> ReadingHolds(CloseHunk(r, line).value) && CloseHunk(r, line).value.open.None?
    ensures CloseHunk(r, line).Ok? ==> CloseHunk(r, line).value.done == r.done && (CloseHunk(r, line).value.current.Some? <==> r.current.Some?)
  {
    hide ValidHunk, BreakFree, SectionHolds;
  }

  lemma CommandUsable(line: Text)
    ensures var c := CommandOf(line);
      && (c.Some? && c.value.Opens? ==> ValidHunk(c.value.hunk) && !c.value.hunk.Delete? && BodyOf(c.value.hunk) == [])
      && (c.Some? && c.value.Whole? ==> Usable(c.value.hunk))
  {
    hide MatchUnified, MatchRange, MatchNumber;
  }

  lemma {:induction false} TrimmedRowClean(raw: Text)
    requires NoBreaks(raw) && Classify(raw).Row?
    ensures NoBreaks(Classify(raw).text)
  {
    hide TrimEnd, IsSkipped, MatchHeader;
  }

  lemma RowAdded(h: Hunk, row: Text)
    requires ValidHunk(h) && BreakFree(h) && !h.Delete? && NoBreaks(row)
    ensures var r := WithRow(h, row); ValidHunk(r) && BreakFree(r) && !r.Delete?
  {
    hide NoBreaks;
  }

  lemma AppendedUsable(a: seq<Hunk>, b: seq<Hunk>)
    requires AllUsable(a) && AllUsable(b)
    ensures AllUsable(a + b)
  {
    hide Usable;
  }

  lemma CarryHolds(lines: seq<Text>, n: nat, c: Reading, line: Text)
    requires n < |lines| && c.current.Some? && c.open.None? && Clean(lines) && ReadingHolds(c)
    ensures Carry(lines, n, c, line).Ok? ==> ReadingHolds(Carry(lines, n, c, line).value.0)
  {
    hide Usable, SectionHolds, AllUsable, ValidHunk, CommandOf, Parsed, NoBreaks, Clean;
    CommandUsable(line);
    match CommandOf(line)
    case None =>
    case Some(BadNumbers) =>
    case Some(Opens(hunk)) =>
    case Some(Whole(hunk)) =>
      OneUsable(hunk);
      AppendedUsable(c.current.value.hunks, [hunk]);
    case Some(UnifiedHunk(header)) =>
      if Parsed(lines, n, header).Ok? {
        UnifiedUsable(lines, n, header);
        AppendedUsable(c.current.value.hunks, Parsed(lines, n, header).value.0);
      }
  }

  lemma OneUsable(h: Hunk)
    requires Usable(h)
    ensures AllUsable([h])
  {
  }

  lemma LineHolds(lines: seq<Text>, n: nat, r: Reading)
    requires n < |lines| && Clean(lines) && ReadingHolds(r)
    ensures ReadLine(lines, n, r).Ok? ==> ReadingHolds(ReadLine(lines, n, r).value.0)
  {
    hide Usable, AllUsable, ValidHunk, Classify, Carry, NoBreaks, BreakFree, CloseHunk, WithRow;
    ClosedHolds(r, n + 1);
    match Classify(lines[n])
    case Skipped =>
    case Row(text) =>
      assert lines[n] in lines;
      TrimmedRowClean(lines[n]);
      if r.open.Some? { RowAdded(r.open.value, text); }
    case Heads(path, tag) =>
      NoneUsable();
    case Commands(line) =>
      if CloseHunk(r, n + 1).Ok? && CloseHunk(r, n + 1).value.current.Some? {
        CarryHolds(lines, n, CloseHunk(r, n + 1).value, line);
      }
  }

  lemma NoneUsable()
    ensures AllUsable([])
  {
  }

  lemma {:induction false} ReadHolds(lines: seq<Text>, n: nat, r: Reading)
    requires n <= |lines| && Clean(lines) && ReadingHolds(r)
    ensures ReadFrom(lines, n, r).Ok? ==> ReadingHolds(ReadFrom(lines, n, r).value)
    decreases |lines| - n
  {
    hide ReadingHolds, ReadLine, Clean;
    if n < |lines| && ReadLine(lines, n, r).Ok? {
      LineHolds(lines, n, r);
      ReadHolds(lines, ReadLine(lines, n, r).value.1, ReadLine(lines, n, r).value.0);
    }
  }

  /** Whatever parses has at least one section, each with at least one hunk, and every hunk
      meets what applying hunks and staging them ask for. */
  lemma ParsedIsUsable(t: Text)
    requires ParseText(t).Ok?
    ensures ParseText(t).value != []
    ensures forall s | s in ParseText(t).value :: s.hunks != [] && AllValid(s.hunks) && AllBreakFree(s.hunks)
    ensures forall s, h | s in ParseText(t).value && h in s.hunks && !h.Delete? :: h.body != []
  {
    hide SplitRows, ReadFrom, Clean;
    var lines := SplitRows(t);
    SplitIsClean(t);
    NothingHolds();
    ReadHolds(lines, 0, NOTHING);
    FinishedHolds(ReadFrom(lines, 0, NOTHING).value, |lines|);
    forall s | s in ParseText(t).value
      ensures s.hunks != [] && AllValid(s.hunks) && AllBreakFree(s.hunks)
      ensures forall h | h in s.hunks && !h.Delete? :: h.body != []
    {
      SectionUsable(s);
    }
  }

  lemma NothingHolds()
    ensures ReadingHolds(NOTHING)
  {
  }

  lemma FinishedHolds(r: Reading, line: nat)
    requires ReadingHolds(r) && Finished(r, line).Ok?
    ensures Finished(r, line).value != [] && forall s | s in Finished(r, line).value :: SectionHolds(s)
  {
    hide AllUsable, CloseHunk;
    ClosedHolds(r, line);
  }

  lemma SectionUsable(s: Section)
    requires SectionHolds(s)
    ensures s.hunks != [] && AllValid(s.hunks) && AllBreakFree(s.hunks)
    ensures forall h | h in s.hunks && !h.Delete? :: h.body != []
  {
    hide ValidHunk, BreakFree;
    assert forall h | h in s.hunks :: Usable(h);
  }
}
