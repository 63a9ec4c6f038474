/**
 The patch language: sections that name a file and its tag, and in each the edits to
 make, as native commands with `+` rows or as unified hunks
 (`parsePatch` in harness/lib/hashline-core.ts).
 */
module PatchText {
  import opened Utf
  import opened Lines
  import opened Spaces
  import opened Hunks
  import opened Unified
  import Decimal

  datatype Section = Section(path: Text, tag: Text, hunks: seq<Hunk>, unified: bool)

  datatype PatchError =
    | RowOutsideHunk(line: nat) | EmptyHunk(line: nat) | EmptySection | NoHeader(line: nat)
    | BadRange(line: nat) | BadUnified(line: nat, error: UnifiedError) | Unreadable(line: nat) | NoSection

  const HASH: Unit := 35
  const OPEN: Unit := 91
  const CLOSE: Unit := 93
  const COLON: Text := [58]
  const DOTS: Text := [46, 46]
  const COMMA: Text := [44]

  const REPLACE: Text := Ascii("replace ")
  const DELETE: Text := Ascii("delete ")
  const INSERT_BEFORE: Text := Ascii("insert before ")
  const INSERT_AFTER: Text := Ascii("insert after ")
  const INSERT_HEAD: Text := Ascii("insert head:")
  const INSERT_TAIL: Text := Ascii("insert tail:")
  const BEGIN_PATCH: Text := Ascii("*** Begin Patch")
  const END_PATCH: Text := Ascii("*** End Patch")
  const UNIFIED: Text := Ascii("@@ -")
  const UNIFIED_NEW: Text := Ascii(" +")
  const UNIFIED_END: Text := Ascii(" @@")

  // ---- The parts of a line -------------------------------------------------------------

  predicate IsHex(u: Unit) { 48 <= u <= 57 || 65 <= u <= 70 || 97 <= u <= 102 }

  function UpperUnit(u: Unit): Unit { if 97 <= u <= 122 then u - 32 else u }

  function Upper(t: Text): (r: Text)
    ensures |r| == |t|
    ensures forall i | 0 <= i < |t| :: r[i] == UpperUnit(t[i])
  {
    seq(|t|, i requires 0 <= i < |t| => UpperUnit(t[i]))
  }

  function IndexOf(t: Text, u: Unit): (n: nat)
    ensures n <= |t| && (n < |t| ==> t[n] == u)
    ensures forall i | 0 <= i < n :: t[i] != u
  {
    if t == [] || t[0] == u then 0 else 1 + IndexOf(t[1..], u)
  }

  /** `[path#64 hexadecimal digits]`, the tag in upper case. */
  function MatchHeader(line: Text): Option<(Text, Text)> {
    var i := IndexOf(line, HASH);
    if |line| != i + 66 || i < 2 || line[0] != OPEN || line[|line| - 1] != CLOSE then None
    else if CLOSE in line[1..i] || exists u | u in line[i + 1..i + 65] :: !IsHex(u) then None
    else Some((line[1..i], Upper(line[i + 1..i + 65])))
  }

  function DigitRun(t: Text): (n: nat)
    ensures n <= |t|
    ensures Decimal.AllDigits(t[..n])
  {
    if t == [] || !Decimal.IsDigit(t[0]) then 0
    else
      assert t[..1 + DigitRun(t[1..])] == [t[0]] + t[1..][..DigitRun(t[1..])];
      1 + DigitRun(t[1..])
  }

  /** A decimal number and what follows it. */
  function MatchNumber(t: Text): Option<(nat, Text)> {
    var n := DigitRun(t);
    if n == 0 then None else Some((Decimal.Value(t[..n]), t[n..]))
  }

  /** One number, or two with a separator between them; `single` stands for a missing second. */
  function MatchPair(t: Text, separator: Text, single: nat -> nat): Option<(nat, nat, Text)> {
    match MatchNumber(t)
    case None => None
    case Some((a, rest)) =>
      if separator <= rest && MatchNumber(rest[|separator|..]).Some? then
        var (b, rest') := MatchNumber(rest[|separator|..]).value;
        Some((a, b, rest'))
      else Some((a, single(a), rest))
  }

  function Itself(n: nat): nat { n }

  function One(n: nat): nat { 1 }

  function MatchRange(t: Text): Option<(nat, nat, Text)> { MatchPair(t, DOTS, Itself) }

  function MatchCount(t: Text): Option<(nat, nat, Text)> { MatchPair(t, COMMA, One) }

  /** A unified hunk's header; a heading behind it is ignored. */
  function MatchUnified(line: Text): Option<Unified.Header> {
    if !(UNIFIED <= line) then None
    else
      match MatchCount(line[|UNIFIED|..])
      case None => None
      case Some((oldStart, oldCount, rest)) =>
        if !(UNIFIED_NEW <= rest) then None
        else
          match MatchCount(rest[|UNIFIED_NEW|..])
          case None => None
          case Some((newStart, newCount, rest')) =>
            if !(UNIFIED_END <= rest') then None
            else
              var heading := rest'[|UNIFIED_END|..];
              if heading == [] || (heading[0] == SPACE && 0x2028 !in heading && 0x2029 !in heading)
              then Some(Unified.Header(oldStart, oldCount, newStart, newCount)) else None
  }

  // ---- What a line is ---------------------------------------------------------------------

  /** `Opens` waits for rows; `Whole` is complete as it is. */
  datatype Command = UnifiedHunk(header: Unified.Header) | Opens(hunk: Hunk) | Whole(hunk: Hunk) | BadNumbers

  function ReplaceOf(line: Text): Option<Command> {
    if !(REPLACE <= line) then None
    else
      match MatchRange(line[|REPLACE|..])
      case Some((a, b, rest)) =>
        if rest != COLON then None
        else if a < 1 || b < a then Some(BadNumbers) else Some(Opens(Replace(a, b, [], Option.None)))
      case None => None
  }

  function DeleteOf(line: Text): Option<Command> {
    if !(DELETE <= line) then None
    else
      match MatchRange(line[|DELETE|..])
      case Some((a, b, rest)) =>
        if rest != [] && rest != COLON then None
        else if a < 1 || b < a then Some(BadNumbers) else Some(Whole(Delete(a, b, Option.None)))
      case None => None
  }

  function InsertAt(line: Text, prefix: Text, pos: Pos): Option<Command> {
    if !(prefix <= line) then None
    else
      match MatchNumber(line[|prefix|..])
      case Some((a, rest)) =>
        if rest != COLON then None
        else if a < 1 then Some(BadNumbers) else Some(Opens(Insert(pos, a, [], Option.None)))
      case None => None
  }

  function InsertOf(line: Text): Option<Command> {
    if line == INSERT_HEAD then Some(Opens(Insert(Head, 0, [], Option.None)))
    else if line == INSERT_TAIL then Some(Opens(Insert(Tail, 0, [], Option.None)))
    else if InsertAt(line, INSERT_BEFORE, Before).Some? then InsertAt(line, INSERT_BEFORE, Before)
    else InsertAt(line, INSERT_AFTER, After)
  }

  function CommandOf(line: Text): Option<Command> {
    if MatchUnified(line).Some? then Some(UnifiedHunk(MatchUnified(line).value))
    else if ReplaceOf(line).Some? then ReplaceOf(line)
    else if InsertOf(line).Some? then InsertOf(line)
    else DeleteOf(line)
  }

  datatype Kind = Skipped | Row(text: Text) | Heads(path: Text, tag: Text) | Commands(line: Text)

  predicate IsSkipped(line: Text) { Trim(line) == [] || Trim(line) == BEGIN_PATCH || Trim(line) == END_PATCH }

  /** Rows are taken as they are; everything else is read without trailing space. */
  function Classify(raw: Text): Kind {
    var line := TrimEnd(raw);
    if IsSkipped(line) then Skipped
    else if raw != [] && raw[0] == PLUS then Row(raw[1..])
    else
      match MatchHeader(line)
      case Some((path, tag)) => Heads(path, tag)
      case None => Commands(line)
  }

  // ---- The parser ----------------------------------------------------------------------------

  /** Sections before the current one, the current one, and the hunk that takes rows. */
  datatype Reading = Reading(done: seq<Section>, current: Option<Section>, open: Option<Hunk>)

  const NOTHING: Reading := Reading([], Option.None, Option.None)

  function WithRow(h: Hunk, row: Text): Hunk { if h.Delete? then h else h.(body := h.body + [row]) }

  function WithHunks(s: Section, hunks: seq<Hunk>): Section { s.(hunks := s.hunks + hunks) }

  /** The open hunk goes to the current section; it needs rows. */
  function CloseHunk(r: Reading, line: nat): Result<Reading, PatchError> {
    if r.open.None? || r.current.None? then Ok(r)
    else if BodyOf(r.open.value) == [] then Err(EmptyHunk(line))
    else Ok(Reading(r.done, Some(WithHunks(r.current.value, [r.open.value])), Option.None))
  }

  function StartSection(r: Reading, line: nat, path: Text, tag: Text): Result<Reading, PatchError> {
    match CloseHunk(r, line)
    case Err(e) => Err(e)
    case Ok(c) =>
      if c.current.None? then Ok(Reading(c.done, Some(Section(path, tag, [], false)), Option.None))
      else if c.current.value.hunks == [] then Err(EmptySection)
      else Ok(Reading(c.done + [c.current.value], Some(Section(path, tag, [], false)), Option.None))
  }

  /** The state behind line `n`, and the line to read next. */
  function ReadLine(lines: seq<Text>, n: nat, r: Reading): (result: Result<(Reading, nat), PatchError>)
    requires n < |lines|
    ensures result.Ok? ==> n < result.value.1 <= |lines|
  {
    match Classify(lines[n])
    case Skipped => Ok((r, n + 1))
    case Row(text) =>
      if r.open.None? then Err(RowOutsideHunk(n + 1)) else Ok((r.(open := Some(WithRow(r.open.value, text))), n + 1))
    case Heads(path, tag) =>
      (match StartSection(r, n + 1, path, tag)
       case Err(e) => Err(e)
       case Ok(next) => Ok((next, n + 1)))
    case Commands(line) =>
      if r.current.None? then Err(NoHeader(n + 1))
      else
        match CloseHunk(r, n + 1)
        case Err(e) => Err(e)
        case Ok(c) => if c.current.None? then Err(NoHeader(n + 1)) else Carry(lines, n, c, line)
  }

  function Carry(lines: seq<Text>, n: nat, c: Reading, line: Text): (result: Result<(Reading, nat), PatchError>)
    requires n < |lines| && c.current.Some?
    ensures result.Ok? ==> n < result.value.1 <= |lines|
  {
    match CommandOf(line)
    case None => Err(Unreadable(n + 1))
    case Some(BadNumbers) => Err(PatchError.BadRange(n + 1))
    case Some(Opens(hunk)) => Ok((c.(open := Some(hunk)), n + 1))
    case Some(Whole(hunk)) => Ok((c.(current := Some(WithHunks(c.current.value, [hunk]))), n + 1))
    case Some(UnifiedHunk(header)) =>
      match Parsed(lines, n, header)
      case Err(e) => Err(BadUnified(n + 1, e))
      case Ok((hunks, next)) => Ok((c.(current := Some(WithHunks(c.current.value, hunks).(unified := true))), next))
  }

  function ReadFrom(lines: seq<Text>, n: nat, r: Reading): Result<Reading, PatchError>
    requires n <= |lines|
    decreases |lines| - n
  {
    if n == |lines| then Ok(r)
    else
      match ReadLine(lines, n, r)
      case Err(e) => Err(e)
      case Ok((next, m)) => ReadFrom(lines, m, next)
  }

  function Finished(r: Reading, line: nat): Result<seq<Section>, PatchError> {
    match CloseHunk(r, line)
    case Err(e) => Err(e)
    case Ok(c) =>
      if c.current.None? then Err(NoSection)
      else if c.current.value.hunks == [] then Err(EmptySection)
      else Ok(c.done + [c.current.value])
  }

  function ParseRows(lines: seq<Text>): Result<seq<Section>, PatchError> {
    match ReadFrom(lines, 0, NOTHING)
    case Err(e) => Err(e)
    case Ok(r) => Finished(r, |lines|)
  }

  /** The text split at every CRLF, CR and LF. */
  function SplitRows(t: Text): (r: seq<Text>)
    ensures r != []
  {
    if t == [] then [[]]
    else if |t| >= 2 && t[0] == 13 && t[1] == 10 then [[]] + SplitRows(t[2..])
    else if IsBreak(t[0]) then [[]] + SplitRows(t[1..])
    else
      var rest := SplitRows(t[1..]);
      [[t[0]] + rest[0]] + rest[1..]
  }

  function ParseText(t: Text): Result<seq<Section>, PatchError> { ParseRows(SplitRows(t)) }

  method ParsePatch(t: Text) returns (r: Result<seq<Section>, PatchError>)
    ensures r == ParseText(t)
  {
    hide Classify, MatchHeader, CommandOf, Parsed, SplitRows, TrimEnd;
    var lines := SplitRows(t);
    var reading, n := NOTHING, 0;
    while n < |lines|
      invariant n <= |lines|
      invariant ReadFrom(lines, n, reading) == ReadFrom(lines, 0, NOTHING)
      decreases |lines| - n
    {
      var step := ReadLine(lines, n, reading);
      if step.Err? { return Err(step.error); }
      reading, n := step.value.0, step.value.1;
    }
    r := Finished(reading, |lines|);
  }
}
