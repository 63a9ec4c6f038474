/**
 A printer for unified hunks and for sections that mix them with native edits: context rows
 begin with a space, removed rows with a minus, added rows with a plus. The parser inverts it.
 */
module UnifiedPrinter {
  import opened Utf
  import opened Lines
  import opened Spaces
  import opened Hunks
  import opened Unified
  import opened PatchText
  import opened PatchFacts
  import opened PatchPrinter
  import Decimal

  function PrintRow(row: Unified.Row): Text {
    match row
    case Context(text) => [32] + text
    case Removed(text) => [45] + text
    case Added(text) => [43] + text
  }

  function PrintRows(rows: seq<Unified.Row>): (r: seq<Text>)
    ensures |r| == |rows| && forall i | 0 <= i < |rows| :: r[i] == PrintRow(rows[i])
  {
    seq(|rows|, i requires 0 <= i < |rows| => PrintRow(rows[i]))
  }

  function PrintCount(a: nat, b: nat): Text { Decimal.Digits(a) + (Ascii(",") + Decimal.Digits(b)) }

  function PrintUnified(h: Unified.Header): Text {
    Ascii("@@ -") + (PrintCount(h.oldStart, h.oldCount) + (Ascii(" +") + (PrintCount(h.newStart, h.newCount) + Ascii(" @@"))))
  }

  // ---- A hunk reads back -------------------------------------------------------------------

  lemma RowReadsBack(row: Unified.Row)
    ensures RowOf(PrintRow(row)) == Some(row)
  {
    assert PrintRow(row)[1..] == row.text;
  }

  /** What ends a unified hunk: no line, or one that begins with none of the three. */
  predicate EndsRows(lines: seq<Text>, i: nat) {
    i >= |lines| || lines[i] == [] || (lines[i][0] != 32 && lines[i][0] != 43 && lines[i][0] != 45)
  }

  lemma {:induction false} RowsReadBack(lines: seq<Text>, i: nat, rows: seq<Unified.Row>)
    requires StandsAt(lines, i, PrintRows(rows)) && EndsRows(lines, i + |rows|)
    ensures i <= |lines| && RowsFrom(lines, i) == rows
    decreases |rows|
  {
    BlockFits(lines, i, PrintRows(rows));
    hide StandsAt, PrintRow, RowOf, RowsFrom, EndsRows;
    if rows == [] {
      NoMoreRows(lines, i);
    } else {
      assert PrintRows(rows) == [PrintRow(rows[0])] + PrintRows(rows[1..]);
      FirstOfBlock(lines, i, [PrintRow(rows[0])], PrintRows(rows[1..]));
      BlockFits(lines, i, [PrintRow(rows[0])]);
      RowReadsBack(rows[0]);
      RowsReadBack(lines, i + 1, rows[1..]);
      OneMoreRow(lines, i);
    }
  }

  lemma NoMoreRows(lines: seq<Text>, i: nat)
    requires i <= |lines| && EndsRows(lines, i)
    ensures RowsFrom(lines, i) == []
  {
  }

  lemma OneMoreRow(lines: seq<Text>, i: nat)
    requires i < |lines| && RowOf(lines[i]).Some?
    ensures RowsFrom(lines, i) == [RowOf(lines[i]).value] + RowsFrom(lines, i + 1)
  {
  }

  lemma CountReadsBack(a: nat, b: nat, rest: Text)
    requires rest == [] || !Decimal.IsDigit(rest[0])
    ensures MatchCount(PrintCount(a, b) + rest) == Some((a, b, rest))
  {
    hide MatchNumber, Decimal.Digits;
    var tail := COMMA + (Decimal.Digits(b) + rest);
    assert COMMA == Ascii(",");
    assert PrintCount(a, b) + rest == Decimal.Digits(a) + tail;
    PrintedNumber(a, tail);
    PrintedNumber(b, rest);
    assert tail[|COMMA|..] == Decimal.Digits(b) + rest;
  }

  lemma HeaderWords()
    ensures UNIFIED == Ascii("@@ -") && UNIFIED_NEW == Ascii(" +") && UNIFIED_END == Ascii(" @@")
  {
  }

  /** A printed header is the header of its hunk, and a heading behind it changes nothing. */
  lemma HeaderReadsBack(h: Unified.Header, heading: Text)
    requires heading == [] || (heading[0] == 32 && 0x2028 !in heading && 0x2029 !in heading)
    ensures MatchUnified(PrintUnified(h) + heading) == Some(h)
  {
    hide MatchCount, PrintCount;
    HeaderWords();
    var news := Ascii(" @@") + heading;
    var olds := Ascii(" +") + (PrintCount(h.newStart, h.newCount) + news);
    var line := PrintUnified(h) + heading;
    assert line == Ascii("@@ -") + (PrintCount(h.oldStart, h.oldCount) + olds);
    assert line[|UNIFIED|..] == PrintCount(h.oldStart, h.oldCount) + olds;
    CountReadsBack(h.oldStart, h.oldCount, olds);
    assert olds[|UNIFIED_NEW|..] == PrintCount(h.newStart, h.newCount) + news;
    CountReadsBack(h.newStart, h.newCount, news);
    assert news[|UNIFIED_END|..] == heading;
  }

  /** Behind any header line, printed rows are read as they were meant, up to the first line that
      is no row; they are compiled if the header fits them. */
  lemma HunkReadsBack(lines: seq<Text>, n: nat, h: Unified.Header, rows: seq<Unified.Row>)
    requires n < |lines| && StandsAt(lines, n + 1, PrintRows(rows)) && EndsRows(lines, n + 1 + |rows|)
    requires n + 1 + |rows| < |lines| ==> !(Ascii("\\ No newline at end of file") <= lines[n + 1 + |rows|])
    ensures Parsed(lines, n, h) ==
      if !SafeRange(h) then Err(UnifiedError.BadRange)
      else match CompileHunk(h, rows) case Err(e) => Err(e) case Ok(hunks) => Ok((hunks, n + 1 + |rows|))
  {
    RowsReadBack(lines, n + 1, rows);
  }

  // ---- Sections that mix both --------------------------------------------------------------

  datatype Piece = Native(hunk: Hunk) | Diff(header: Unified.Header, rows: seq<Unified.Row>)

  datatype Mixed = Mixed(path: Text, tag: Text, pieces: seq<Piece>)

  function PrintPiece(p: Piece): seq<Text> {
    match p
    case Native(h) => PrintHunk(h)
    case Diff(header, rows) => [PrintUnified(header)] + PrintRows(rows)
  }

  function PrintPieces(ps: seq<Piece>): seq<Text> {
    if ps == [] then [] else PrintPiece(ps[0]) + PrintPieces(ps[1..])
  }

  function PrintMixed(m: Mixed): seq<Text> { [PrintHeader(m.path, m.tag)] + PrintPieces(m.pieces) }

  function PrintAll(ms: seq<Mixed>): seq<Text> {
    if ms == [] then [] else PrintMixed(ms[0]) + PrintAll(ms[1..])
  }

  /** A unified hunk in order: its numbers fit its rows, and its rows hold no break. */
  predicate GoodDiff(header: Unified.Header, rows: seq<Unified.Row>) {
    SafeRange(header) && CompileHunk(header, rows).Ok? && forall r | r in rows :: NoBreaks(r.text)
  }

  predicate GoodPiece(p: Piece) {
    match p
    case Native(h) => PrintableHunk(h)
    case Diff(header, rows) => GoodDiff(header, rows)
  }

  predicate GoodPieces(ps: seq<Piece>) { forall p | p in ps :: GoodPiece(p) }

  predicate GoodMixed(m: Mixed) { IsPath(m.path) && IsTag(m.tag) && m.pieces != [] && GoodPieces(m.pieces) }

  /** The edits of a piece. */
  function Edits(p: Piece): seq<Hunk>
    requires GoodPiece(p)
  {
    match p
    case Native(h) => [h]
    case Diff(header, rows) => CompileHunk(header, rows).value
  }

  function AllEdits(ps: seq<Piece>): seq<Hunk>
    requires GoodPieces(ps)
  {
    if ps == [] then [] else Edits(ps[0]) + AllEdits(ps[1..])
  }

  function SectionOf(m: Mixed): Section
    requires GoodMixed(m)
  {
    Section(m.path, m.tag, AllEdits(m.pieces), exists p | p in m.pieces :: p.Diff?)
  }

  function SectionsOf(ms: seq<Mixed>): seq<Section>
    requires forall m | m in ms :: GoodMixed(m)
  {
    if ms == [] then [] else [SectionOf(ms[0])] + SectionsOf(ms[1..])
  }

  lemma DiffLine(header: Unified.Header)
    ensures Classify(PrintUnified(header)) == Commands(PrintUnified(header))
    ensures CommandOf(PrintUnified(header)) == Some(UnifiedHunk(header))
  {
    hide PrintCount, TrimEnd, IsSkipped, MatchUnified, ReplaceOf, InsertOf, DeleteOf;
    var line := PrintUnified(header);
    DiffEnds(header);
    PlainLine(line);
    NotAHeader(line);
    HeaderReadsBack(header, []);
    assert line + [] == line;
  }

  lemma DiffEnds(header: Unified.Header)
    ensures var line := PrintUnified(header);
      && line != [] && line[0] == 64 && line[|line| - 1] == 64
      && line[0] != BEGIN_PATCH[0] && line[0] != PatchText.OPEN && !IsSpace(64)
  {
    hide PrintCount;
  }

  /** What a section begins with is no row of a unified hunk before it. */
  predicate BeginsPiece(line: Text) { line != [] && (97 <= line[0] <= 122 || line[0] == 64 || line[0] == 91) }

  lemma PieceBegins(p: Piece)
    ensures PrintPiece(p) != [] && BeginsPiece(PrintPiece(p)[0])
  {
    match p
    case Native(h) => CommandLine(h);
    case Diff(header, _) => DiffEnds(header);
  }

  lemma ReadDiff(lines: seq<Text>, n: nat, r: Reading, done: seq<Section>, s: Section, read: seq<Hunk>, header: Unified.Header, rows: seq<Unified.Row>)
    returns (next: Reading)
    requires HasRead(r, done, s, read) && GoodDiff(header, rows) && StandsAt(lines, n, [PrintUnified(header)] + PrintRows(rows))
    requires n + 1 + |rows| >= |lines| || BeginsPiece(lines[n + 1 + |rows|])
    ensures HasRead(next, done, s.(unified := true), read + CompileHunk(header, rows).value)
    ensures ReadFrom(lines, n, r) == ReadFrom(lines, n + 1 + |rows|, next)
  {
    hide PrintUnified, CompileHunk, ReadFrom, Parsed, Classify, CommandOf, SafeRange;
    FirstOfBlock(lines, n, [PrintUnified(header)], PrintRows(rows));
    DiffLine(header);
    Closes(r, n + 1);
    NotAMarker(lines, n + 1 + |rows|);
    HunkReadsBack(lines, n, header, rows);
    var c := CloseHunk(r, n + 1).value;
    next := c.(current := Some(WithHunks(c.current.value, CompileHunk(header, rows).value).(unified := true)));
    ReadTo(lines, n, r, next, n + 1 + |rows|);
  }

  lemma NotAMarker(lines: seq<Text>, i: nat)
    requires i >= |lines| || BeginsPiece(lines[i])
    ensures EndsRows(lines, i) && (i < |lines| ==> !(Ascii("\\ No newline at end of file") <= lines[i]))
  {
    assert Ascii("\\ No newline at end of file")[0] == 92;
  }

  lemma ReadTo(lines: seq<Text>, n: nat, r: Reading, next: Reading, m: nat)
    requires n < |lines| && ReadLine(lines, n, r) == Ok((next, m))
    ensures m <= |lines| && ReadFrom(lines, n, r) == ReadFrom(lines, m, next)
  {
  }

  lemma ReadPiece(lines: seq<Text>, n: nat, r: Reading, done: seq<Section>, s: Section, read: seq<Hunk>, p: Piece)
    returns (next: Reading)
    requires HasRead(r, done, s, read) && GoodPiece(p) && StandsAt(lines, n, PrintPiece(p))
    requires n + |PrintPiece(p)| >= |lines| || BeginsPiece(lines[n + |PrintPiece(p)|])
    ensures HasRead(next, done, s.(unified := s.unified || p.Diff?), read + Edits(p))
    ensures ReadFrom(lines, n, r) == ReadFrom(lines, n + |PrintPiece(p)|, next)
  {
    hide PrintHunk, PrintableHunk, GoodDiff, ReadFrom, PrintUnified, HasRead;
    match p
    case Native(h) => next := ReadHunk(lines, n, r, done, s, read, h);
    case Diff(header, rows) => next := ReadDiff(lines, n, r, done, s, read, header, rows);
  }

  /** The line behind a block is no row. */
  predicate BehindIsPlain(lines: seq<Text>, i: nat) { i >= |lines| || BeginsPiece(lines[i]) }

  lemma {:induction false} ReadPieces(lines: seq<Text>, n: nat, r: Reading, done: seq<Section>, s: Section, read: seq<Hunk>, ps: seq<Piece>)
    returns (next: Reading)
    requires HasRead(r, done, s, read) && GoodPieces(ps) && StandsAt(lines, n, PrintPieces(ps))
    requires BehindIsPlain(lines, n + |PrintPieces(ps)|)
    ensures HasRead(next, done, s.(unified := s.unified || exists p | p in ps :: p.Diff?), read + AllEdits(ps))
    ensures ReadFrom(lines, n, r) == ReadFrom(lines, n + |PrintPieces(ps)|, next)
    decreases |ps|
  {
    hide HasRead, PrintPiece, GoodPiece, ReadFrom, Edits, BeginsPiece;
    if ps == [] {
      next := r;
      assert read + AllEdits(ps) == read;
    } else {
      FirstOfBlock(lines, n, PrintPiece(ps[0]), PrintPieces(ps[1..]));
      NextBegins(lines, n + |PrintPiece(ps[0])|, ps[1..]);
      var one := ReadPiece(lines, n, r, done, s, read, ps[0]);
      assert forall p :: p in ps <==> p == ps[0] || p in ps[1..];
      next := ReadPieces(lines, n + |PrintPiece(ps[0])|, one, done, s.(unified := s.unified || ps[0].Diff?), read + Edits(ps[0]), ps[1..]);
      assert read + AllEdits(ps) == read + Edits(ps[0]) + AllEdits(ps[1..]);
    }
  }

  lemma NextBegins(lines: seq<Text>, n: nat, ps: seq<Piece>)
    requires StandsAt(lines, n, PrintPieces(ps)) && BehindIsPlain(lines, n + |PrintPieces(ps)|)
    ensures BehindIsPlain(lines, n)
  {
    hide PrintPiece, BeginsPiece;
    if ps != [] {
      PieceBegins(ps[0]);
      FirstOfBlock(lines, n, PrintPiece(ps[0]), PrintPieces(ps[1..]));
      assert lines[n..n + |PrintPiece(ps[0])|][0] == lines[n];
    }
  }

  lemma EditsNonempty(ps: seq<Piece>)
    requires GoodPieces(ps) && ps != []
    ensures AllEdits(ps) != []
  {
    assert GoodPiece(ps[0]) by { assert ps[0] in ps; }
    hide Compile;
  }

  lemma {:induction false} ReadMixed(lines: seq<Text>, n: nat, r: Reading, before: seq<Section>, ms: seq<Mixed>) returns (next: Reading)
    requires Between(r, before) && (forall m | m in ms :: GoodMixed(m)) && StandsAt(lines, n, PrintAll(ms)) && n + |PrintAll(ms)| == |lines|
    ensures Between(next, before + SectionsOf(ms)) && ReadFrom(lines, n, r) == ReadFrom(lines, |lines|, next)
    decreases |ms|
  {
    hide ReadFrom, PrintMixed, GoodMixed, SectionOf, Between, BeginsPiece;
    if ms == [] {
      next := r;
      assert before + SectionsOf(ms) == before;
    } else {
      var m := ms[0];
      assert m in ms && forall x | x in ms[1..] :: x in ms;
      FirstOfBlock(lines, n, PrintMixed(m), PrintAll(ms[1..]));
      BehindPieces(lines, n + |PrintMixed(m)|, ms[1..]);
      var read := ReadOne(lines, n, r, before, m);
      next := ReadMixed(lines, n + |PrintMixed(m)|, read, before + [SectionOf(m)], ms[1..]);
      assert before + SectionsOf(ms) == before + [SectionOf(m)] + SectionsOf(ms[1..]);
    }
  }

  lemma ReadOne(lines: seq<Text>, n: nat, r: Reading, before: seq<Section>, m: Mixed) returns (next: Reading)
    requires Between(r, before) && GoodMixed(m) && StandsAt(lines, n, PrintMixed(m)) && BehindIsPlain(lines, n + |PrintMixed(m)|)
    ensures Between(next, before + [SectionOf(m)]) && ReadFrom(lines, n, r) == ReadFrom(lines, n + |PrintMixed(m)|, next)
  {
    hide HasRead, PrintHeader, ReadFrom, PrintPieces, IsPath, IsTag, GoodPieces, AllEdits, BeginsPiece, Between, SectionOf;
    FirstOfBlock(lines, n, [PrintHeader(m.path, m.tag)], PrintPieces(m.pieces));
    var s := Section(m.path, m.tag, [], false);
    ReadHeader(lines, n, r, before, s);
    next := ReadPieces(lines, n + 1, Reading(before, Some(s), Option.None), before, s, [], m.pieces);
    EditsNonempty(m.pieces);
    ReadAs(next, before, s, m);
  }

  lemma ReadAs(r: Reading, before: seq<Section>, s: Section, m: Mixed)
    requires GoodMixed(m) && s == Section(m.path, m.tag, [], false) && AllEdits(m.pieces) != []
    requires HasRead(r, before, s.(unified := s.unified || exists p | p in m.pieces :: p.Diff?), [] + AllEdits(m.pieces))
    ensures Between(r, before + [SectionOf(m)])
  {
    assert [] + AllEdits(m.pieces) == AllEdits(m.pieces);
    assert (before + [SectionOf(m)])[..|before|] == before;
  }

  lemma BehindPieces(lines: seq<Text>, n: nat, ms: seq<Mixed>)
    requires StandsAt(lines, n, PrintAll(ms)) && n + |PrintAll(ms)| == |lines|
    ensures BehindIsPlain(lines, n)
  {
    if ms != [] {
      var line := PrintHeader(ms[0].path, ms[0].tag);
      assert PrintAll(ms)[0] == line && line[0] == 91;
      assert lines[n..n + |PrintAll(ms)|][0] == lines[n];
    }
  }

  // ---- The round trip ------------------------------------------------------------------------

  lemma DiffClean(header: Unified.Header, rows: seq<Unified.Row>)
    requires GoodDiff(header, rows)
    ensures Clean([PrintUnified(header)] + PrintRows(rows))
  {
    hide NoBreaks, PrintUnified, SafeRange, CompileHunk;
    HeaderLineClean(header);
    forall t | t in PrintRows(rows) ensures NoBreaks(t) {
      var i :| 0 <= i < |rows| && PrintRows(rows)[i] == t;
      assert rows[i] in rows;
      SignsClean();
      match rows[i]
      case Context(text) => ConcatClean([32], text);
      case Removed(text) => ConcatClean([45], text);
      case Added(text) => ConcatClean([43], text);
    }
  }

  lemma SignsClean()
    ensures NoBreaks([32]) && NoBreaks([45]) && NoBreaks([43])
    ensures NoBreaks(Ascii("@@ -")) && NoBreaks(Ascii(" +")) && NoBreaks(Ascii(" @@")) && NoBreaks(Ascii(","))
  {
  }

  lemma CountClean(a: nat, b: nat)
    ensures NoBreaks(PrintCount(a, b))
  {
    hide NoBreaks, Decimal.Digits;
    SignsClean();
    DigitsClean(a);
    DigitsClean(b);
    ConcatClean(Ascii(","), Decimal.Digits(b));
    ConcatClean(Decimal.Digits(a), Ascii(",") + Decimal.Digits(b));
  }

  lemma HeaderLineClean(h: Unified.Header)
    ensures NoBreaks(PrintUnified(h))
  {
    hide NoBreaks, PrintCount;
    SignsClean();
    CountClean(h.oldStart, h.oldCount);
    CountClean(h.newStart, h.newCount);
    var news := PrintCount(h.newStart, h.newCount) + Ascii(" @@");
    ConcatClean(PrintCount(h.newStart, h.newCount), Ascii(" @@"));
    ConcatClean(Ascii(" +"), news);
    ConcatClean(PrintCount(h.oldStart, h.oldCount), Ascii(" +") + news);
    ConcatClean(Ascii("@@ -"), PrintCount(h.oldStart, h.oldCount) + (Ascii(" +") + news));
  }

  lemma {:induction false} PiecesClean(ps: seq<Piece>)
    requires GoodPieces(ps)
    ensures Clean(PrintPieces(ps))
  {
    hide PrintPiece, NoBreaks, GoodPiece;
    if ps != [] {
      assert ps[0] in ps && forall p | p in ps[1..] :: p in ps;
      PieceClean(ps[0]);
      PiecesClean(ps[1..]);
    }
  }

  lemma PieceClean(p: Piece)
    requires GoodPiece(p)
    ensures Clean(PrintPiece(p))
  {
    hide Clean, GoodDiff, PrintableHunk;
    match p
    case Native(h) => HunkClean(h);
    case Diff(header, rows) => DiffClean(header, rows);
  }

  lemma {:induction false} AllClean(ms: seq<Mixed>)
    requires forall m | m in ms :: GoodMixed(m)
    ensures Clean(PrintAll(ms))
  {
    if ms != [] {
      assert ms[0] in ms && forall m | m in ms[1..] :: m in ms;
      HeaderClean(ms[0].path, ms[0].tag);
      PiecesClean(ms[0].pieces);
      hide NoBreaks, PrintHeader, PrintPieces, IsPath, IsTag, GoodPieces;
      AllClean(ms[1..]);
    }
  }

  /** Parsing printed sections, native edits and unified hunks in any mixture, gives for each
      section its edits in order: those of its native hunks and those its unified hunks compile to. */
  lemma ParseInvertsPrintAll(ms: seq<Mixed>)
    requires ms != [] && forall m | m in ms :: GoodMixed(m)
    ensures ParseText(JoinRows(PrintAll(ms))) == Ok(SectionsOf(ms))
  {
    hide ReadFrom, HasRead, PrintMixed, Clean, GoodMixed, SectionOf, Between;
    var lines := PrintAll(ms);
    SomeLine(ms);
    AllClean(ms);
    SplitJoined(lines);
    assert lines[0..0 + |lines|] == lines;
    NothingBetween();
    var last := ReadMixed(lines, 0, NOTHING, [], ms);
    assert [] + SectionsOf(ms) == SectionsOf(ms);
    Ends(lines, last);
    FinishesWith(last, SectionsOf(ms), |lines|);
  }

  lemma SomeLine(ms: seq<Mixed>)
    requires ms != []
    ensures PrintAll(ms) != []
  {
  }

  lemma NothingBetween()
    ensures Between(NOTHING, [])
  {
  }
}
