/** A printer for native sections, which the parser inverts. */
module PatchPrinter {
  import opened Utf
  import opened Lines
  import opened Spaces
  import opened Hunks
  import opened PatchText
  import opened PatchFacts
  import Decimal

  const NEWLINE: Text := [10]
  const PLUS: Unit := 43

  function Rows(body: seq<Text>): (r: seq<Text>)
    ensures |r| == |body|
    ensures forall i | 0 <= i < |body| :: r[i] == [PLUS] + body[i]
  {
    seq(|body|, i requires 0 <= i < |body| => [PLUS] + body[i])
  }

  function PrintRange(a: nat, b: nat): Text { Decimal.Digits(a) + (Ascii("..") + Decimal.Digits(b)) }

  function PrintCommand(h: Hunk): Text {
    match h
    case Replace(start, end, _, _) => Ascii("replace ") + (PrintRange(start, end) + Ascii(":"))
    case Delete(start, end, _) => Ascii("delete ") + PrintRange(start, end)
    case Insert(pos, line, _, _) =>
      match pos
      case Head => Ascii("insert head:")
      case Tail => Ascii("insert tail:")
      case Before => Ascii("insert before ") + (Decimal.Digits(line) + Ascii(":"))
      case After => Ascii("insert after ") + (Decimal.Digits(line) + Ascii(":"))
  }

  function PrintHunk(h: Hunk): seq<Text> { [PrintCommand(h)] + Rows(BodyOf(h)) }

  function PrintHunks(hunks: seq<Hunk>): seq<Text> {
    if hunks == [] then [] else PrintHunk(hunks[0]) + PrintHunks(hunks[1..])
  }

  function PrintHeader(path: Text, tag: Text): Text { Ascii("[") + path + Ascii("#") + (tag + Ascii("]")) }

  function PrintSection(s: Section): seq<Text> { [PrintHeader(s.path, s.tag)] + PrintHunks(s.hunks) }

  function PrintLines(sections: seq<Section>): seq<Text> {
    if sections == [] then [] else PrintSection(sections[0]) + PrintLines(sections[1..])
  }

  function JoinRows(lines: seq<Text>): Text {
    if lines == [] then [] else if |lines| == 1 then lines[0] else lines[0] + (NEWLINE + JoinRows(lines[1..]))
  }

  function Print(sections: seq<Section>): Text { JoinRows(PrintLines(sections)) }

  // ---- What can be printed ----------------------------------------------------------------

  predicate IsTag(t: Text) { |t| == 64 && forall u | u in t :: 48 <= u <= 57 || 65 <= u <= 70 }

  predicate IsPath(t: Text) { t != [] && NoBreaks(t) && forall u | u in t :: u != HASH && u != CLOSE }

  predicate PrintableHunk(h: Hunk) {
    && h.source.None? && Usable(h)
    && (h.Insert? ==> if h.pos == Before || h.pos == After then h.line >= 1 else h.line == 0)
  }

  predicate PrintableHunks(hunks: seq<Hunk>) { forall h | h in hunks :: PrintableHunk(h) }

  predicate Printable(s: Section) {
    IsPath(s.path) && IsTag(s.tag) && s.hunks != [] && PrintableHunks(s.hunks) && !s.unified
  }

  /** The printer's words are those the parser looks for. */
  lemma Words()
    ensures REPLACE == Ascii("replace ") && DELETE == Ascii("delete ") && COLON == Ascii(":") && DOTS == Ascii("..")
    ensures INSERT_BEFORE == Ascii("insert before ") && INSERT_AFTER == Ascii("insert after ")
    ensures INSERT_HEAD == Ascii("insert head:") && INSERT_TAIL == Ascii("insert tail:")
    ensures [OPEN] == Ascii("[") && [HASH] == Ascii("#") && [CLOSE] == Ascii("]")
  {
  }

  // ---- Single lines -------------------------------------------------------------------------

  lemma {:induction false} RunOfDigits(d: Text, rest: Text)
    requires Decimal.AllDigits(d) && (rest == [] || !Decimal.IsDigit(rest[0]))
    ensures DigitRun(d + rest) == |d|
  {
    if d == [] {
      assert d + rest == rest;
    } else {
      assert d[0] in d;
      assert (d + rest)[1..] == d[1..] + rest;
      assert forall u | u in d[1..] :: u in d;
      RunOfDigits(d[1..], rest);
    }
  }

  lemma PrintedNumber(n: nat, rest: Text)
    requires rest == [] || !Decimal.IsDigit(rest[0])
    ensures MatchNumber(Decimal.Digits(n) + rest) == Some((n, rest))
  {
    hide DigitRun;
    var d := Decimal.Digits(n);
    RunOfDigits(d, rest);
    Decimal.ValueOfDigits(n);
    assert (d + rest)[..|d|] == d;
    assert (d + rest)[|d|..] == rest;
  }

  lemma PrintedRange(a: nat, b: nat, rest: Text)
    requires rest == [] || !Decimal.IsDigit(rest[0])
    ensures MatchRange(PrintRange(a, b) + rest) == Some((a, b, rest))
  {
    hide MatchNumber, Decimal.Digits;
    var tail := DOTS + (Decimal.Digits(b) + rest);
    assert PrintRange(a, b) + rest == Decimal.Digits(a) + tail;
    PrintedNumber(a, tail);
    PrintedNumber(b, rest);
    assert tail[|DOTS|..] == Decimal.Digits(b) + rest;
  }

  /** A line that starts with a letter or a bracket and does not end in space is itself. */
  lemma PlainLine(line: Text)
    requires line != [] && !IsSpace(line[0]) && !IsSpace(line[|line| - 1]) && line[0] != BEGIN_PATCH[0]
    ensures TrimEnd(line) == line && !IsSkipped(line)
  {
    assert TrimStart(line) == line;
  }

  lemma PrintedRow(text: Text)
    ensures Classify([PLUS] + text) == Row(text)
  {
    var raw := [PLUS] + text;
    var line := TrimEnd(raw);
    assert raw[0] in raw && !IsSpace(raw[0]);
    assert !AllSpace(raw);
    assert line[0] == raw[0];
    assert !IsSpace(line[0]);
    TrimmedStarts(line);
    assert raw[1..] == text;
  }

  lemma TrimmedStarts(line: Text)
    requires line != [] && !IsSpace(line[0]) && line[0] != BEGIN_PATCH[0]
    ensures !IsSkipped(line)
  {
    assert TrimStart(line) == line;
    assert line[0] in line;
    assert !AllSpace(line);
    assert Trim(line)[0] == line[0];
  }

  lemma UpperTag(tag: Text)
    requires IsTag(tag)
    ensures Upper(tag) == tag && forall u | u in tag :: IsHex(u)
  {
    forall i | 0 <= i < |tag| ensures Upper(tag)[i] == tag[i] { assert tag[i] in tag; }
  }

  lemma {:induction false} IndexBehind(a: Text, u: Unit, rest: Text)
    requires forall x | x in a :: x != u
    ensures IndexOf(a + [u] + rest, u) == |a|
  {
    if a != [] {
      assert a[0] in a;
      assert (a + [u] + rest)[1..] == a[1..] + [u] + rest;
      assert forall x | x in a[1..] :: x in a;
      IndexBehind(a[1..], u, rest);
    } else {
      assert (a + [u] + rest)[0] == u;
    }
  }

  lemma PrintedHeader(path: Text, tag: Text)
    requires IsPath(path) && IsTag(tag)
    ensures Classify(PrintHeader(path, tag)) == Heads(path, tag)
  {
    var line := PrintHeader(path, tag);
    PlainLine(line);
    HeaderMatches(path, tag);
  }

  lemma HeaderMatches(path: Text, tag: Text)
    requires IsPath(path) && IsTag(tag)
    ensures MatchHeader(PrintHeader(path, tag)) == Some((path, tag))
  {
    hide IndexOf, Upper;
    Words();
    var line := PrintHeader(path, tag);
    IndexBehind([OPEN] + path, HASH, tag + [CLOSE]);
    UpperTag(tag);
    var i := 1 + |path|;
    assert line[1..i] == path;
    assert line[i + 1..i + 65] == tag;
  }

  lemma NotAHeader(line: Text)
    requires line != [] && line[0] != OPEN
    ensures MatchHeader(line).None?
  {
  }

  // ---- Commands ----------------------------------------------------------------------------------

  function WithoutRows(h: Hunk): Hunk { if h.Delete? then h else h.(body := []) }

  function CommandFor(h: Hunk): Command { if h.Delete? then Whole(h) else Opens(WithoutRows(h)) }

  lemma PrintedReplace(h: Hunk)
    requires PrintableHunk(h) && h.Replace?
    ensures CommandOf(PrintCommand(h)) == Some(CommandFor(h))
  {
    hide MatchRange, MatchUnified, PrintRange, BreakFree;
    var line := PrintCommand(h);
    PrintedRange(h.start, h.end, COLON);
    assert line[|REPLACE|..] == PrintRange(h.start, h.end) + COLON;
    NotUnified(line);
    assert REPLACE <= line;
  }

  lemma NotUnified(line: Text)
    requires line != [] && line[0] != UNIFIED[0]
    ensures MatchUnified(line).None?
  {
  }

  lemma PrintedDelete(h: Hunk)
    requires PrintableHunk(h) && h.Delete?
    ensures CommandOf(PrintCommand(h)) == Some(CommandFor(h))
  {
    hide MatchRange, MatchUnified, PrintRange, BreakFree, MatchNumber;
    var line := PrintCommand(h);
    PrintedRange(h.start, h.end, []);
    assert PrintRange(h.start, h.end) + [] == PrintRange(h.start, h.end);
    assert line[|DELETE|..] == PrintRange(h.start, h.end);
    NotUnified(line);
    assert DELETE <= line && line[0] == DELETE[0];
    assert !(REPLACE <= line) && !(INSERT_BEFORE <= line) && !(INSERT_AFTER <= line);
    assert line != INSERT_HEAD && line != INSERT_TAIL;
  }

  lemma PrintedInsert(h: Hunk)
    requires PrintableHunk(h) && h.Insert?
    ensures CommandOf(PrintCommand(h)) == Some(CommandFor(h))
  {
    hide MatchRange, MatchUnified, BreakFree, MatchNumber, Decimal.Digits;
    var line := PrintCommand(h);
    assert line[0] == INSERT_HEAD[0];
    NotUnified(line);
    assert !(REPLACE <= line);
    if h.pos == Before {
      PrintedNumber(h.line, COLON);
      assert line[|INSERT_BEFORE|..] == Decimal.Digits(h.line) + COLON;
      assert line[7] == INSERT_BEFORE[7] && INSERT_BEFORE <= line;
    } else if h.pos == After {
      PrintedNumber(h.line, COLON);
      assert line[|INSERT_AFTER|..] == Decimal.Digits(h.line) + COLON;
      assert line[7] == INSERT_AFTER[7] && INSERT_AFTER <= line;
      assert INSERT_BEFORE[7] != INSERT_AFTER[7] && InsertAt(line, INSERT_BEFORE, Before).None?;
      assert INSERT_HEAD[7] != INSERT_AFTER[7] && INSERT_TAIL[7] != INSERT_AFTER[7];
      assert line != INSERT_HEAD && line != INSERT_TAIL;
    } else {
      assert INSERT_HEAD[7] != INSERT_TAIL[7];
    }
  }

  lemma PrintedCommand(h: Hunk)
    requires PrintableHunk(h)
    ensures Classify(PrintCommand(h)) == Commands(PrintCommand(h)) && CommandOf(PrintCommand(h)) == Some(CommandFor(h))
  {
    hide PrintCommand, CommandOf, MatchHeader, TrimEnd, IsSkipped, PrintableHunk, Classify;
    CommandLine(h);
    CommandsAre(PrintCommand(h));
    match h
    case Replace(_, _, _, _) => PrintedReplace(h);
    case Delete(_, _, _) => PrintedDelete(h);
    case Insert(_, _, _, _) => PrintedInsert(h);
  }

  lemma CommandsAre(line: Text)
    requires line != [] && 97 <= line[0] <= 122
    requires Decimal.IsDigit(line[|line| - 1]) || line[|line| - 1] == COLON[0]
    ensures Classify(line) == Commands(line)
  {
    hide TrimEnd, IsSkipped, MatchHeader;
    PlainLine(line);
    NotAHeader(line);
  }

  lemma CommandLine(h: Hunk)
    ensures var line := PrintCommand(h);
      && line != [] && 97 <= line[0] <= 122 && (Decimal.IsDigit(line[|line| - 1]) || line[|line| - 1] == COLON[0])
  {
    hide Decimal.Digits;
    match h
    case Delete(start, end, _) =>
      var d := Decimal.Digits(end);
      assert d[|d| - 1] in d;
    case Replace(_, _, _, _) =>
    case Insert(_, _, _, _) =>
  }

  // ---- The parser over printed lines ---------------------------------------------------------

  /** `block` stands in `lines` from `n` on. */
  predicate StandsAt(lines: seq<Text>, n: nat, block: seq<Text>) {
    n + |block| <= |lines| && lines[n..n + |block|] == block
  }

  lemma FirstOfBlock(lines: seq<Text>, n: nat, a: seq<Text>, b: seq<Text>)
    requires StandsAt(lines, n, a + b)
    ensures StandsAt(lines, n, a) && StandsAt(lines, n + |a|, b)
    ensures |a| == 1 ==> lines[n] == a[0]
  {
    var s := lines[n..n + |a + b|];
    assert s == a + b;
    assert lines[n..n + |a|] == s[..|a|];
    assert lines[n + |a|..n + |a| + |b|] == s[|a|..];
    if |a| == 1 { assert lines[n] == s[0]; }
  }

  lemma ReadStep(lines: seq<Text>, n: nat, r: Reading, next: Reading)
    requires n < |lines| && ReadLine(lines, n, r) == Ok((next, n + 1))
    ensures ReadFrom(lines, n, r) == ReadFrom(lines, n + 1, next)
  {
  }

  function WithRows(h: Hunk, rows: seq<Text>): Hunk { if h.Delete? then h else h.(body := h.body + rows) }

  /** Rows go to the open hunk one after the other. */
  lemma {:induction false} ReadRows(lines: seq<Text>, n: nat, r: Reading, body: seq<Text>)
    requires r.open.Some? && !r.open.value.Delete? && StandsAt(lines, n, Rows(body))
    ensures n + |body| <= |lines| && ReadFrom(lines, n, r) == ReadFrom(lines, n + |body|, r.(open := Some(WithRows(r.open.value, body))))
    decreases |body|
  {
    hide ReadFrom, StandsAt, ReadLine, WithRow, WithRows;
    BlockFits(lines, n, Rows(body));
    if body == [] {
      NoRows(r.open.value);
      assert n + |body| == n;
    } else {
      RowsUnfold(body);
      FirstOfBlock(lines, n, [[PLUS] + body[0]], Rows(body[1..]));
      BlockFits(lines, n, [[PLUS] + body[0]]);
      ReadRow(lines, n, r, body[0]);
      RowThenRows(r.open.value, body);
      ReadRows(lines, n + 1, r.(open := Some(WithRow(r.open.value, body[0]))), body[1..]);
    }
  }

  lemma NoRows(h: Hunk)
    ensures WithRows(h, []) == h
  {
    if !h.Delete? { assert h.body + [] == h.body; }
  }

  lemma RowThenRows(h: Hunk, body: seq<Text>)
    requires !h.Delete? && body != []
    ensures !WithRow(h, body[0]).Delete? && WithRows(WithRow(h, body[0]), body[1..]) == WithRows(h, body)
  {
    assert h.body + body == (h.body + [body[0]]) + body[1..];
  }

  lemma RowsUnfold(body: seq<Text>)
    requires body != []
    ensures Rows(body) == [[PLUS] + body[0]] + Rows(body[1..])
  {
  }

  lemma BlockFits(lines: seq<Text>, n: nat, block: seq<Text>)
    requires StandsAt(lines, n, block)
    ensures n + |block| <= |lines|
  {
  }

  lemma ReadRow(lines: seq<Text>, n: nat, r: Reading, text: Text)
    requires n < |lines| && lines[n] == [PLUS] + text && r.open.Some?
    ensures ReadFrom(lines, n, r) == ReadFrom(lines, n + 1, r.(open := Some(WithRow(r.open.value, text))))
  {
    hide Classify, ReadFrom, CloseHunk, Carry;
    PrintedRow(text);
    ReadStep(lines, n, r, r.(open := Some(WithRow(r.open.value, text))));
  }

  /** The current section with its open hunk. */
  function Current(r: Reading): seq<Hunk>
    requires r.current.Some?
  {
    r.current.value.hunks + if r.open.Some? then [r.open.value] else []
  }

  predicate Closable(r: Reading) { r.current.Some? && (r.open.Some? ==> !r.open.value.Delete? && r.open.value.body != []) }

  /** Closing the open hunk puts it behind the others. */
  lemma Closes(r: Reading, line: nat)
    requires Closable(r)
    ensures CloseHunk(r, line) == Ok(Reading(r.done, Some(r.current.value.(hunks := Current(r))), Option.None))
  {
    assert r.current.value.hunks + [] == r.current.value.hunks;
  }

  /** What has been read of a section, whichever hunk is still open. */
  predicate HasRead(r: Reading, done: seq<Section>, s: Section, hunks: seq<Hunk>) {
    Closable(r) && r.done == done && r.current.value.(hunks := []) == s.(hunks := []) && Current(r) == hunks
  }

  lemma ReadCommand(lines: seq<Text>, n: nat, r: Reading, h: Hunk)
    requires n < |lines| && lines[n] == PrintCommand(h) && PrintableHunk(h) && Closable(r)
    ensures var c := CloseHunk(r, n + 1).value;
      ReadFrom(lines, n, r) == ReadFrom(lines, n + 1,
        if h.Delete? then c.(current := Some(WithHunks(c.current.value, [h]))) else c.(open := Some(WithoutRows(h))))
  {
    hide Classify, CommandOf, PrintCommand, PrintableHunk, ReadFrom;
    PrintedCommand(h);
    Closes(r, n + 1);
    var c := CloseHunk(r, n + 1).value;
    ReadStep(lines, n, r, if h.Delete? then c.(current := Some(WithHunks(c.current.value, [h]))) else c.(open := Some(WithoutRows(h))));
  }

  lemma ReadHunk(lines: seq<Text>, n: nat, r: Reading, done: seq<Section>, s: Section, hunks: seq<Hunk>, h: Hunk) returns (next: Reading)
    requires HasRead(r, done, s, hunks) && PrintableHunk(h) && StandsAt(lines, n, PrintHunk(h))
    ensures HasRead(next, done, s, hunks + [h])
    ensures ReadFrom(lines, n, r) == ReadFrom(lines, n + |PrintHunk(h)|, next)
  {
    hide PrintCommand, ReadFrom, BreakFree, ValidHunk;
    FirstOfBlock(lines, n, [PrintCommand(h)], Rows(BodyOf(h)));
    ReadCommand(lines, n, r, h);
    Closes(r, n + 1);
    var c := CloseHunk(r, n + 1).value;
    if h.Delete? {
      next := c.(current := Some(WithHunks(c.current.value, [h])));
    } else {
      ReadRows(lines, n + 1, c.(open := Some(WithoutRows(h))), h.body);
      next := c.(open := Some(WithRows(WithoutRows(h), h.body)));
      assert [] + h.body == h.body;
    }
  }

  lemma {:induction false} ReadHunks(lines: seq<Text>, n: nat, r: Reading, done: seq<Section>, s: Section, read: seq<Hunk>, hunks: seq<Hunk>)
    returns (next: Reading)
    requires HasRead(r, done, s, read) && PrintableHunks(hunks) && StandsAt(lines, n, PrintHunks(hunks))
    ensures HasRead(next, done, s, read + hunks)
    ensures ReadFrom(lines, n, r) == ReadFrom(lines, n + |PrintHunks(hunks)|, next)
    decreases |hunks|
  {
    hide HasRead, PrintHunk, PrintableHunk, ReadFrom;
    if hunks == [] {
      next := r;
      assert read + hunks == read;
    } else {
      FirstOfBlock(lines, n, PrintHunk(hunks[0]), PrintHunks(hunks[1..]));
      var one := ReadHunk(lines, n, r, done, s, read, hunks[0]);
      next := ReadHunks(lines, n + |PrintHunk(hunks[0])|, one, done, s, read + [hunks[0]], hunks[1..]);
      assert read + hunks == read + [hunks[0]] + hunks[1..];
    }
  }

  /** Nothing has been read, or a whole section. */
  predicate Between(r: Reading, sections: seq<Section>) {
    if sections == [] then r == NOTHING
    else
      var last := sections[|sections| - 1];
      last.hunks != [] && HasRead(r, sections[..|sections| - 1], last, last.hunks)
  }

  lemma ReadHeader(lines: seq<Text>, n: nat, r: Reading, before: seq<Section>, s: Section)
    requires n < |lines| && lines[n] == PrintHeader(s.path, s.tag) && IsPath(s.path) && IsTag(s.tag) && !s.unified && Between(r, before)
    ensures var next := Reading(before, Some(Section(s.path, s.tag, [], false)), Option.None);
      ReadFrom(lines, n, r) == ReadFrom(lines, n + 1, next) && HasRead(next, before, s, [])
  {
    hide PrintHeader, Classify, ReadFrom, IsPath, IsTag;
    PrintedHeader(s.path, s.tag);
    if before != [] {
      var last := before[|before| - 1];
      Closes(r, n + 1);
      assert before == before[..|before| - 1] + [last];
      assert r.current.value.(hunks := Current(r)) == last;
    }
    ReadStep(lines, n, r, Reading(before, Some(Section(s.path, s.tag, [], false)), Option.None));
  }

  lemma {:induction false} ReadSections(lines: seq<Text>, n: nat, r: Reading, before: seq<Section>, sections: seq<Section>)
    returns (next: Reading)
    requires Between(r, before) && (forall s | s in sections :: Printable(s)) && StandsAt(lines, n, PrintLines(sections))
    ensures Between(next, before + sections)
    ensures ReadFrom(lines, n, r) == ReadFrom(lines, n + |PrintLines(sections)|, next)
    decreases |sections|
  {
    hide HasRead, PrintHeader, ReadFrom, PrintHunks, IsPath, IsTag, PrintableHunk;
    if sections == [] {
      next := r;
      assert before + sections == before;
    } else {
      var s := sections[0];
      assert s in sections && forall x | x in sections[1..] :: x in sections;
      FirstOfBlock(lines, n, PrintSection(s), PrintLines(sections[1..]));
      FirstOfBlock(lines, n, [PrintHeader(s.path, s.tag)], PrintHunks(s.hunks));
      ReadHeader(lines, n, r, before, s);
      var started := Reading(before, Some(Section(s.path, s.tag, [], false)), Option.None);
      var read := ReadHunks(lines, n + 1, started, before, s, [], s.hunks);
      assert [] + s.hunks == s.hunks;
      assert (before + [s])[..|before|] == before;
      next := ReadSections(lines, n + |PrintSection(s)|, read, before + [s], sections[1..]);
      assert before + sections == before + [s] + sections[1..];
    }
  }

  // ---- The round trip -------------------------------------------------------------------------------

  lemma {:induction false} SplitFirst(line: Text, rest: Text)
    requires NoBreaks(line)
    ensures SplitRows(line + (NEWLINE + rest)) == [line] + SplitRows(rest)
  {
    var t := line + (NEWLINE + rest);
    if line == [] {
      assert t[0] == 10 && t[1..] == rest;
    } else {
      assert t[0] == line[0] && !IsBreak(t[0]);
      assert t[1..] == line[1..] + (NEWLINE + rest);
      SplitFirst(line[1..], rest);
      assert [line[0]] + line[1..] == line;
    }
  }

  lemma {:induction false} SplitLast(line: Text)
    requires NoBreaks(line)
    ensures SplitRows(line) == [line]
  {
    if line != [] {
      SplitLast(line[1..]);
      assert [line[0]] + line[1..] == line;
    }
  }

  lemma {:induction false} SplitJoined(lines: seq<Text>)
    requires lines != [] && Clean(lines)
    ensures SplitRows(JoinRows(lines)) == lines
  {
    assert lines[0] in lines;
    if |lines| == 1 {
      SplitLast(lines[0]);
    } else {
      SplitJoined(lines[1..]);
      SplitFirst(lines[0], JoinRows(lines[1..]));
    }
  }

  lemma {:induction false} DigitsClean(n: nat)
    ensures NoBreaks(Decimal.Digits(n))
  {
    var d := Decimal.Digits(n);
    forall i | 0 <= i < |d| ensures !IsBreak(d[i]) { assert d[i] in d; }
  }

  lemma ConcatClean(a: Text, b: Text)
    requires NoBreaks(a) && NoBreaks(b)
    ensures NoBreaks(a + b)
  {
  }

  lemma WordsClean()
    ensures NoBreaks(REPLACE) && NoBreaks(DELETE) && NoBreaks(INSERT_BEFORE) && NoBreaks(INSERT_AFTER)
    ensures NoBreaks(INSERT_HEAD) && NoBreaks(INSERT_TAIL) && NoBreaks(COLON) && NoBreaks(DOTS)
  {
  }

  lemma RangeClean(a: nat, b: nat)
    ensures NoBreaks(PrintRange(a, b))
  {
    hide Decimal.Digits, NoBreaks;
    Words();
    WordsClean();
    DigitsClean(a);
    DigitsClean(b);
    ConcatClean(DOTS, Decimal.Digits(b));
    ConcatClean(Decimal.Digits(a), DOTS + Decimal.Digits(b));
  }

  lemma CommandClean(h: Hunk)
    ensures NoBreaks(PrintCommand(h))
  {
    hide Decimal.Digits, NoBreaks, PrintRange;
    Words();
    WordsClean();
    match h
    case Replace(start, end, _, _) =>
      RangeClean(start, end);
      ConcatClean(PrintRange(start, end), COLON);
      ConcatClean(REPLACE, PrintRange(start, end) + COLON);
    case Delete(start, end, _) =>
      RangeClean(start, end);
      ConcatClean(DELETE, PrintRange(start, end));
    case Insert(pos, line, _, _) =>
      DigitsClean(line);
      ConcatClean(Decimal.Digits(line), COLON);
      ConcatClean(INSERT_BEFORE, Decimal.Digits(line) + COLON);
      ConcatClean(INSERT_AFTER, Decimal.Digits(line) + COLON);
  }

  lemma HeaderClean(path: Text, tag: Text)
    requires IsPath(path) && IsTag(tag)
    ensures NoBreaks(PrintHeader(path, tag))
  {
    assert NoBreaks(tag) by {
      forall i | 0 <= i < |tag| ensures !IsBreak(tag[i]) { assert tag[i] in tag; }
    }
    ConcatClean([OPEN], path);
    ConcatClean([OPEN] + path, [HASH]);
    ConcatClean(tag, [CLOSE]);
    ConcatClean([OPEN] + path + [HASH], tag + [CLOSE]);
  }

  lemma {:induction false} HunksClean(hunks: seq<Hunk>)
    requires PrintableHunks(hunks)
    ensures Clean(PrintHunks(hunks))
  {
    if hunks != [] {
      HunkClean(hunks[0]);
      hide PrintHunk, NoBreaks, PrintableHunk;
      HunksClean(hunks[1..]);
    }
  }

  lemma HunkClean(h: Hunk)
    requires PrintableHunk(h)
    ensures Clean(PrintHunk(h))
  {
    CommandClean(h);
    hide NoBreaks, PrintCommand;
    forall t | t in Rows(BodyOf(h)) ensures NoBreaks(t) {
      var i :| 0 <= i < |BodyOf(h)| && Rows(BodyOf(h))[i] == t;
      assert BodyOf(h)[i] in BodyOf(h);
      PlusClean();
      ConcatClean([PLUS], BodyOf(h)[i]);
    }
  }

  lemma PlusClean()
    ensures NoBreaks([PLUS])
  {
  }

  lemma {:induction false} PrintedClean(sections: seq<Section>)
    requires forall s | s in sections :: Printable(s)
    ensures Clean(PrintLines(sections))
  {
    if sections != [] {
      var s := sections[0];
      assert s in sections;
      HeaderClean(s.path, s.tag);
      HunksClean(s.hunks);
      hide NoBreaks, PrintHeader, PrintHunks, IsPath, IsTag, PrintableHunks;
      PrintedClean(sections[1..]);
    }
  }

  /** Parsing a printed list of native sections gives the list back: bodies keep trailing
      space, and rows that look like commands stay rows. */
  lemma ParseInvertsPrint(sections: seq<Section>)
    requires sections != [] && forall s | s in sections :: Printable(s)
    ensures ParseText(Print(sections)) == Ok(sections)
  {
    hide Printable, ReadFrom, HasRead, PrintSection, PrintLines, Clean, SplitRows, Finished;
    var lines := PrintLines(sections);
    assert sections[0] in sections;
    Nonempty(sections);
    PrintedClean(sections);
    SplitJoined(lines);
    assert lines[0..0 + |lines|] == lines;
    var last := ReadSections(lines, 0, NOTHING, [], sections);
    assert [] + sections == sections;
    Ends(lines, last);
    FinishesWith(last, sections, |lines|);
  }

  lemma Nonempty(sections: seq<Section>)
    requires sections != []
    ensures PrintLines(sections) != []
  {
  }

  lemma Ends(lines: seq<Text>, r: Reading)
    ensures ReadFrom(lines, |lines|, r) == Ok(r)
  {
  }

  lemma FinishesWith(r: Reading, sections: seq<Section>, line: nat)
    requires sections != [] && Between(r, sections)
    ensures Finished(r, line) == Ok(sections)
  {
    var last := sections[|sections| - 1];
    Closes(r, line);
    assert r.current.value.(hunks := Current(r)) == last;
    assert sections == sections[..|sections| - 1] + [last];
  }
}
