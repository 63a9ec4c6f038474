/**
 No new line is lost on the way from a patch to its edits: what parses has, in its bodies and
 in order, exactly the texts of the lines that begin with a plus.
 */
module PatchRows {
  import opened Utf
  import opened Lines
  import opened Hunks
  import opened Unified
  import opened PatchText
  import opened PatchFacts
  import opened PatchPrinter

  const NO_NEWLINE: Text := Ascii("\\ No newline at end of file")

  // ---- Which hunks are refused -----------------------------------------------------------------

  lemma {:induction false} NothingCompiled(s: State, rows: seq<Row>)
    ensures Flush(Compile(s, rows)).hunks == [] <==> s.hunks == [] && s.run.None? && forall row | row in rows :: row.Context?
    decreases |rows|
  {
    hide RunHunk;
    if rows != [] {
      NothingCompiled(Step(s, rows[0]), rows[1..]);
      assert rows == [rows[0]] + rows[1..];
    }
  }

  /** A unified hunk is refused for numbers that make no sense, for the mark of a missing newline
      behind its rows, for counts that are not those of its rows, and when it changes nothing; in
      this order, and for nothing else. */
  lemma RefusedExactly(lines: seq<Text>, headerLine: nat, h: Header)
    requires headerLine < |lines|
    ensures var rows := RowsFrom(lines, headerLine + 1);
      var next := headerLine + 1 + |rows|;
      var r := Parsed(lines, headerLine, h);
      if h.oldStart + h.oldCount > 9007199254740991 || h.newStart + h.newCount > 9007199254740991
         || (h.oldCount > 0 && h.oldStart == 0) || (h.newCount > 0 && h.newStart == 0) then r == Err(UnifiedError.BadRange)
      else if next < |lines| && NO_NEWLINE <= lines[next] then r == Err(NoNewlineMarker)
      else if |OldRows(rows)| != h.oldCount || |NewRows(rows)| != h.newCount then r == Err(BadCounts)
      else if forall row | row in rows :: row.Context? then r == Err(NoChange)
      else r.Ok? && r.value.1 == next
  {
    NothingCompiled(Start(h), RowsFrom(lines, headerLine + 1));
    hide Compile, RowsFrom, OldRows, NewRows;
  }

  // ---- The rows that are added ------------------------------------------------------------------

  /** The texts behind a plus. */
  function Added(lines: seq<Text>): seq<Text> {
    if lines == [] then []
    else (if lines[0] != [] && lines[0][0] == 43 then [lines[0][1..]] else []) + Added(lines[1..])
  }

  function Bodies(hunks: seq<Hunk>): seq<Text> {
    if hunks == [] then [] else (if hunks[0].Delete? then [] else hunks[0].body) + Bodies(hunks[1..])
  }

  function AllBodies(sections: seq<Section>): seq<Text> {
    if sections == [] then [] else Bodies(sections[0].hunks) + AllBodies(sections[1..])
  }

  lemma {:induction false} AddedConcat(a: seq<Text>, b: seq<Text>)
    ensures Added(a + b) == Added(a) + Added(b)
  {
    if a == [] {
      assert a + b == b;
    } else {
      assert (a + b)[1..] == a[1..] + b;
      AddedConcat(a[1..], b);
    }
  }

  lemma {:induction false} BodiesConcat(a: seq<Hunk>, b: seq<Hunk>)
    ensures Bodies(a + b) == Bodies(a) + Bodies(b)
  {
    if a == [] {
      assert a + b == b;
    } else {
      assert (a + b)[1..] == a[1..] + b;
      BodiesConcat(a[1..], b);
    }
  }

  lemma {:induction false} SectionsConcat(a: seq<Section>, s: Section)
    ensures AllBodies(a + [s]) == AllBodies(a) + Bodies(s.hunks)
  {
    if a == [] {
      assert a + [s] == [s] && [s][1..] == [];
    } else {
      assert (a + [s])[1..] == a[1..] + [s];
      SectionsConcat(a[1..], s);
    }
  }

  // ---- Unified hunks -----------------------------------------------------------------------

  function AddedRows(rows: seq<Unified.Row>): seq<Text> {
    if rows == [] then [] else (if rows[0].Added? then [rows[0].text] else []) + AddedRows(rows[1..])
  }

  /** The bodies made so far, and the open run's. */
  function Made(s: State): seq<Text> { Bodies(s.hunks) + if s.run.Some? then s.run.value.body else [] }

  lemma FlushKeeps(s: State)
    ensures Made(Flush(s)) == Made(s)
  {
    if s.run.Some? {
      var h := RunHunk(s.run.value);
      BodiesConcat(s.hunks, [h]);
      OneBody(h);
    }
  }

  lemma OneBody(h: Hunk)
    ensures Bodies([h]) == if h.Delete? then [] else h.body
  {
    assert [h][1..] == [];
  }

  lemma StepKeeps(s: State, row: Unified.Row)
    ensures Made(Step(s, row)) == Made(s) + if row.Added? then [row.text] else []
  {
    hide Bodies, RunHunk;
    FlushKeeps(s);
  }

  lemma {:induction false} CompileKeeps(s: State, rows: seq<Unified.Row>)
    ensures Made(Compile(s, rows)) == Made(s) + AddedRows(rows)
    decreases |rows|
  {
    hide Made, Step;
    if rows != [] {
      StepKeeps(s, rows[0]);
      CompileKeeps(Step(s, rows[0]), rows[1..]);
    }
  }

  /** The bodies a unified hunk compiles to are its added rows. */
  lemma CompiledKeeps(h: Unified.Header, rows: seq<Unified.Row>)
    requires CompileHunk(h, rows).Ok?
    ensures Bodies(CompileHunk(h, rows).value) == AddedRows(rows)
  {
    hide Compile, Flush, Start, OldRows, NewRows, Bodies;
    var s := Flush(Compile(Start(h), rows));
    CompileKeeps(Start(h), rows);
    FlushKeeps(Compile(Start(h), rows));
    NothingMade(h);
    Flushed(Compile(Start(h), rows));
    if s.hunks != [] { SourceKeeps(s.hunks, Source(h.oldStart, OldRows(rows))); }
  }

  lemma NothingMade(h: Unified.Header)
    ensures Made(Start(h)) == []
  {
  }

  lemma Flushed(s: State)
    ensures Made(Flush(s)) == Bodies(Flush(s).hunks)
  {
    hide Bodies, RunHunk;
  }

  lemma SourceKeeps(hunks: seq<Hunk>, source: Source)
    requires hunks != []
    ensures Bodies([WithSource(hunks[0], source)] + hunks[1..]) == Bodies(hunks)
  {
    assert ([WithSource(hunks[0], source)] + hunks[1..])[1..] == hunks[1..];
  }

  lemma {:induction false} RowsAdded(lines: seq<Text>, i: nat)
    requires i <= |lines|
    ensures AddedRows(RowsFrom(lines, i)) == Added(lines[i..i + |RowsFrom(lines, i)|])
    decreases |lines| - i
  {
    var rows := RowsFrom(lines, i);
    if rows != [] {
      RowsAdded(lines, i + 1);
      assert rows[1..] == RowsFrom(lines, i + 1);
      assert lines[i..i + |rows|][1..] == lines[i + 1..i + |rows|];
    } else {
      assert lines[i..i] == [];
    }
  }

  // ---- The parser --------------------------------------------------------------------------

  function InReading(r: Reading): seq<Text> {
    AllBodies(r.done) + (if r.current.Some? then Bodies(r.current.value.hunks) else [])
    + (if r.open.Some? && !r.open.value.Delete? then r.open.value.body else [])
  }

  predicate OpenInSection(r: Reading) { r.open.Some? ==> r.current.Some? && !r.open.value.Delete? }

  lemma CloseKeeps(r: Reading, line: nat)
    requires OpenInSection(r) && CloseHunk(r, line).Ok?
    ensures var c := CloseHunk(r, line).value; InReading(c) == InReading(r) && c.open.None? && (c.current.Some? <==> r.current.Some?)
  {
    if r.open.Some? {
      hide Bodies;
      BodiesConcat(r.current.value.hunks, [r.open.value]);
      OneBody(r.open.value);
    }
  }

  lemma SectionKeeps(r: Reading, line: nat, path: Text, tag: Text)
    requires OpenInSection(r) && StartSection(r, line, path, tag).Ok?
    ensures var c := StartSection(r, line, path, tag).value; InReading(c) == InReading(r) && OpenInSection(c)
  {
    hide CloseHunk;
    CloseKeeps(r, line);
    var c := CloseHunk(r, line).value;
    NoBodies();
    if c.current.Some? { SectionsConcat(c.done, c.current.value); }
    hide Bodies, AllBodies;
  }

  lemma NoBodies()
    ensures Bodies([]) == []
  {
  }

  /** Only a row begins with a plus. */
  lemma PlusIsRow(raw: Text)
    ensures raw != [] && raw[0] == 43 ==> Classify(raw) == Row(raw[1..])
    ensures Classify(raw).Row? ==> raw != [] && raw[0] == 43
  {
    if raw != [] && raw[0] == 43 {
      PrintedRow(raw[1..]);
      assert [43] + raw[1..] == raw;
    }
  }

  /** One line, or the rows of one unified hunk. */
  lemma LineKeeps(lines: seq<Text>, n: nat, r: Reading)
    requires n < |lines| && OpenInSection(r) && ReadLine(lines, n, r).Ok?
    ensures var (next, m) := ReadLine(lines, n, r).value;
      InReading(next) == InReading(r) + Added(lines[n..m]) && OpenInSection(next)
  {
    hide Classify, CloseHunk, StartSection, Carry, Bodies, AllBodies;
    PlusIsRow(lines[n]);
    OneLine(lines, n);
    match Classify(lines[n])
    case Skipped =>
    case Row(text) => RowKept(r, text);
    case Heads(path, tag) => SectionKeeps(r, n + 1, path, tag);
    case Commands(line) =>
      CloseKeeps(r, n + 1);
      CarryKeeps(lines, n, CloseHunk(r, n + 1).value, line);
  }

  lemma OneLine(lines: seq<Text>, n: nat)
    requires n < |lines|
    ensures Added(lines[n..n + 1]) == if lines[n] != [] && lines[n][0] == 43 then [lines[n][1..]] else []
  {
    var one := lines[n..n + 1];
    assert one == [lines[n]] && one[1..] == [];
  }

  lemma RowKept(r: Reading, text: Text)
    requires OpenInSection(r) && r.open.Some?
    ensures var next := r.(open := Some(WithRow(r.open.value, text))); InReading(next) == InReading(r) + [text] && OpenInSection(next)
  {
  }

  lemma CarryKeeps(lines: seq<Text>, n: nat, c: Reading, line: Text)
    requires n < |lines| && c.current.Some? && c.open.None? && Carry(lines, n, c, line).Ok?
    requires lines[n] == [] || lines[n][0] != 43
    ensures var (next, m) := Carry(lines, n, c, line).value;
      InReading(next) == InReading(c) + Added(lines[n..m]) && OpenInSection(next)
  {
    hide CommandOf, Parsed, Bodies, AllBodies, WithHunks, InReading;
    CommandUsable(line);
    OneLine(lines, n);
    match CommandOf(line)
    case None =>
    case Some(BadNumbers) =>
    case Some(Opens(hunk)) => OpensKeeps(c, hunk);
    case Some(Whole(hunk)) =>
      WholeBody(line);
      OneBody(hunk);
      MoreHunks(c, [hunk]);
    case Some(UnifiedHunk(header)) =>
      ParsedKeeps(lines, n, header);
      MoreHunks(c, Parsed(lines, n, header).value.0);
  }

  lemma OpensKeeps(c: Reading, hunk: Hunk)
    requires c.current.Some? && c.open.None? && !hunk.Delete? && BodyOf(hunk) == []
    ensures InReading(c.(open := Some(hunk))) == InReading(c)
  {
  }

  lemma MoreHunks(c: Reading, hunks: seq<Hunk>)
    requires c.current.Some? && c.open.None?
    ensures var s := WithHunks(c.current.value, hunks);
      && InReading(c.(current := Some(s))) == InReading(c) + Bodies(hunks)
      && InReading(c.(current := Some(s.(unified := true)))) == InReading(c) + Bodies(hunks)
  {
    hide Bodies, AllBodies;
    BodiesConcat(c.current.value.hunks, hunks);
  }

  lemma WholeBody(line: Text)
    ensures CommandOf(line).Some? && CommandOf(line).value.Whole? ==> CommandOf(line).value.hunk.Delete?
  {
    hide MatchUnified, MatchRange, MatchNumber;
  }

  lemma ParsedKeeps(lines: seq<Text>, n: nat, header: Unified.Header)
    requires n < |lines| && Parsed(lines, n, header).Ok?
    requires (lines[n] == [] || lines[n][0] != 43)
    ensures var (hunks, next) := Parsed(lines, n, header).value; Bodies(hunks) == Added(lines[n..next])
  {
    hide CompileHunk, RowsFrom, Bodies;
    var rows := RowsFrom(lines, n + 1);
    CompiledKeeps(header, rows);
    RowsAdded(lines, n + 1);
    AddedConcat(lines[n..n + 1], lines[n + 1..n + 1 + |rows|]);
    assert lines[n..n + 1] + lines[n + 1..n + 1 + |rows|] == lines[n..n + 1 + |rows|];
    OneLine(lines, n);
  }

  lemma {:induction false} ReadKeeps(lines: seq<Text>, n: nat, r: Reading)
    requires n <= |lines| && OpenInSection(r) && ReadFrom(lines, n, r).Ok?
    ensures var next := ReadFrom(lines, n, r).value; InReading(next) == InReading(r) + Added(lines[n..]) && OpenInSection(next)
    decreases |lines| - n
  {
    hide ReadLine, InReading, OpenInSection;
    if n < |lines| {
      LineKeeps(lines, n, r);
      var (next, m) := ReadLine(lines, n, r).value;
      ReadKeeps(lines, m, next);
      AddedConcat(lines[n..m], lines[m..]);
      assert lines[n..m] + lines[m..] == lines[n..];
    } else {
      assert lines[n..] == [] && Added([]) == [];
    }
  }

  /** The bodies of all edits of a patch, one after the other, are the texts of its lines with a
      plus, in order: none is lost, made up or moved. */
  lemma EveryNewLineIsKept(t: Text)
    requires ParseText(t).Ok?
    ensures AllBodies(ParseText(t).value) == Added(SplitRows(t))
  {
    hide ReadFrom, CloseHunk;
    var lines := SplitRows(t);
    ReadKeeps(lines, 0, NOTHING);
    var r := ReadFrom(lines, 0, NOTHING).value;
    CloseKeeps(r, |lines|);
    var c := CloseHunk(r, |lines|).value;
    SectionsConcat(c.done, c.current.value);
    assert lines[0..] == lines;
    assert InReading(NOTHING) == [];
    assert InReading(c) == AllBodies(c.done) + Bodies(c.current.value.hunks);
    assert ParseText(t).value == c.done + [c.current.value];
    assert [] + Added(lines) == Added(lines);
  }
}
