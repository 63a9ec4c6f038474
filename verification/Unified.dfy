/**
 Unified-diff hunks and their compilation to native operations
 (`parseUnifiedHunk` in harness/lib/hashline-core.ts).
 */
module Unified {
  import opened Utf
  import opened Lines
  import opened StableSort
  import opened Stitching
  import opened Hunks
  import opened Apply

  datatype Row = Context(text: Text) | Removed(text: Text) | Added(text: Text)

  /** The header of a hunk: `@@ -oldStart,oldCount +newStart,newCount @@`. */
  datatype Header = Header(oldStart: nat, oldCount: nat, newStart: nat, newCount: nat)

  datatype UnifiedError = BadRange | NoNewlineMarker | BadCounts | NoChange

  const SPACE: Unit := 32
  const PLUS: Unit := 43
  const MINUS: Unit := 45
  const MAX_SAFE: nat := 0x1F_FFFF_FFFF_FFFF

  /** Only a line with one of the three prefixes is a row. */
  function RowOf(line: Text): Option<Row> {
    if line == [] then None
    else if line[0] == SPACE then Some(Context(line[1..]))
    else if line[0] == MINUS then Some(Removed(line[1..]))
    else if line[0] == PLUS then Some(Added(line[1..]))
    else None
  }

  predicate IsMarker(line: Text) {
    Ascii("\\ No newline at end of file") <= line
  }

  function RowsFrom(lines: seq<Text>, i: nat): (rows: seq<Row>)
    requires i <= |lines|
    ensures i + |rows| <= |lines|
    decreases |lines| - i
  {
    if i == |lines| || RowOf(lines[i]).None? then []
    else [RowOf(lines[i]).value] + RowsFrom(lines, i + 1)
  }

  /** The rows the file must hold. */
  function OldRows(rows: seq<Row>): seq<Text> {
    if rows == [] then []
    else (if rows[0].Added? then [] else [rows[0].text]) + OldRows(rows[1..])
  }

  /** The rows that stand in their place afterwards. */
  function NewRows(rows: seq<Row>): seq<Text> {
    if rows == [] then []
    else (if rows[0].Removed? then [] else [rows[0].text]) + NewRows(rows[1..])
  }

  /** A run of changed rows: its first source line, how many it removes, what it adds. */
  datatype Run = Run(start: nat, removed: nat, body: seq<Text>)

  /** The loop's variables: operations made, the open run, the next source line. */
  datatype State = State(hunks: seq<Hunk>, run: Option<Run>, sourceLine: nat)

  function RunHunk(run: Run): Hunk {
    if run.removed > 0 then
      if run.body != [] then Replace(run.start, run.start + run.removed - 1, run.body, None)
      else Delete(run.start, run.start + run.removed - 1, None)
    else if run.start <= 1 then Insert(Head, 0, run.body, None)
    else Insert(After, run.start - 1, run.body, None)
  }

  function Flush(s: State): State {
    if s.run.None? then s else State(s.hunks + [RunHunk(s.run.value)], None, s.sourceLine)
  }

  function Step(s: State, row: Row): State {
    var run := if s.run.Some? then s.run.value else Run(s.sourceLine, 0, []);
    match row
    case Context(_) => Flush(s).(sourceLine := s.sourceLine + 1)
    case Removed(_) => State(s.hunks, Some(run.(removed := run.removed + 1)), s.sourceLine + 1)
    case Added(text) => s.(run := Some(run.(body := run.body + [text])))
  }

  function Compile(s: State, rows: seq<Row>): State
    decreases |rows|
  {
    if rows == [] then s else Compile(Step(s, rows[0]), rows[1..])
  }

  function Start(h: Header): State {
    State([], None, if h.oldCount == 0 then h.oldStart + 1 else h.oldStart)
  }

  function WithSource(hunk: Hunk, source: Source): Hunk { hunk.(source := Some(source)) }

  predicate SafeRange(h: Header) {
    && h.oldStart + h.oldCount <= MAX_SAFE && h.newStart + h.newCount <= MAX_SAFE
    && (h.oldCount > 0 ==> h.oldStart >= 1) && (h.newCount > 0 ==> h.newStart >= 1)
  }

  /** The operations of a hunk whose rows are known. */
  function CompileHunk(h: Header, rows: seq<Row>): Result<seq<Hunk>, UnifiedError> {
    var hunks, expected := Flush(Compile(Start(h), rows)).hunks, OldRows(rows);
    if |expected| != h.oldCount || |NewRows(rows)| != h.newCount then Err(BadCounts)
    else if hunks == [] then Err(NoChange)
    else if expected == [] then Ok(hunks)
    else Ok([WithSource(hunks[0], Source(h.oldStart, expected))] + hunks[1..])
  }

  function Parsed(lines: seq<Text>, headerLine: nat, h: Header): Result<(seq<Hunk>, nat), UnifiedError>
    requires headerLine < |lines|
  {
    var rows := RowsFrom(lines, headerLine + 1);
    var next := headerLine + 1 + |rows|;
    if !SafeRange(h) then Err(BadRange)
    else if next < |lines| && IsMarker(lines[next]) then Err(NoNewlineMarker)
    else
      match CompileHunk(h, rows)
      case Err(e) => Err(e)
      case Ok(hunks) => Ok((hunks, next))
  }

  method ParseUnifiedHunk(lines: seq<Text>, headerLine: nat, h: Header)
    returns (r: Result<(seq<Hunk>, nat), UnifiedError>)
    requires headerLine < |lines|
    ensures r == Parsed(lines, headerLine, h)
  {
    if !SafeRange(h) { return Err(BadRange); }
    var hunks, oldRows, addedRows, index := ReadRows(lines, headerLine, h);
    if index < |lines| && IsMarker(lines[index]) { return Err(NoNewlineMarker); }
    if |oldRows| != h.oldCount || addedRows != h.newCount { return Err(BadCounts); }
    if hunks == [] { return Err(NoChange); }
    if oldRows != [] { hunks := [WithSource(hunks[0], Source(h.oldStart, oldRows))] + hunks[1..]; }
    return Ok((hunks, index));
  }

  /** The loop over the rows, to the first line that is none, and the closing flush. */
  method ReadRows(lines: seq<Text>, headerLine: nat, h: Header)
    returns (hunks: seq<Hunk>, oldRows: seq<Text>, addedRows: nat, index: nat)
    requires headerLine < |lines|
    ensures var rows := RowsFrom(lines, headerLine + 1);
      && hunks == Flush(Compile(Start(h), rows)).hunks
      && oldRows == OldRows(rows) && addedRows == |NewRows(rows)| && index == headerLine + 1 + |rows|
  {
    hide Step, RowOf, Compile, OldRows, NewRows;
    hunks, oldRows, addedRows, index := [], [], 0, headerLine + 1;
    var sourceLine: nat := if h.oldCount == 0 then h.oldStart + 1 else h.oldStart;
    var run: Option<Run> := None;
    ghost var rows := RowsFrom(lines, index);
    while index < |lines| && RowOf(lines[index]).Some?
      invariant headerLine < index <= |lines|
      invariant index + |RowsFrom(lines, index)| == headerLine + 1 + |rows|
      invariant Compile(State(hunks, run, sourceLine), RowsFrom(lines, index)) == Compile(Start(h), rows)
      invariant oldRows + OldRows(RowsFrom(lines, index)) == OldRows(rows)
      invariant addedRows + |NewRows(RowsFrom(lines, index))| == |NewRows(rows)|
    {
      var row := RowOf(lines[index]).value;
      ghost var rest := RowsFrom(lines, index + 1);
      FirstRow(State(hunks, run, sourceLine), row, rest, oldRows);
      assert RowsFrom(lines, index) == [row] + rest;
      hunks, run, sourceLine := ReadRow(hunks, run, sourceLine, row);
      if !row.Added? { oldRows := oldRows + [row.text]; }
      if !row.Removed? { addedRows := addedRows + 1; }
      index := index + 1;
    }
    assert RowsFrom(lines, index) == [];
    NoRows(State(hunks, run, sourceLine));
    if run.Some? { hunks := hunks + [RunHunk(run.value)]; }
  }

  lemma NoRows(s: State)
    ensures Compile(s, []) == s && OldRows([]) == [] && NewRows([]) == []
  {
  }

  method ReadRow(hunks: seq<Hunk>, run: Option<Run>, sourceLine: nat, row: Row)
    returns (hunks': seq<Hunk>, run': Option<Run>, sourceLine': nat)
    ensures State(hunks', run', sourceLine') == Step(State(hunks, run, sourceLine), row)
  {
    hunks', run', sourceLine' := hunks, run, sourceLine;
    if row.Context? {
      if run.Some? { hunks', run' := hunks + [RunHunk(run.value)], None; }
      sourceLine' := sourceLine + 1;
    } else {
      var current := if run.Some? then run.value else Run(sourceLine, 0, []);
      if row.Removed? {
        run' := Some(current.(removed := current.removed + 1));
        sourceLine' := sourceLine + 1;
      } else {
        run' := Some(current.(body := current.body + [row.text]));
      }
    }
  }

  lemma FirstRow(s: State, row: Row, rest: seq<Row>, oldRows: seq<Text>)
    ensures Compile(s, [row] + rest) == Compile(Step(s, row), rest)
    ensures oldRows + OldRows([row] + rest)
         == (oldRows + if row.Added? then [] else [row.text]) + OldRows(rest)
    ensures |NewRows([row] + rest)| == (if row.Removed? then 0 else 1) + |NewRows(rest)|
  {
    assert ([row] + rest)[1..] == rest;
  }

  // Meaning

  /** The range a compiled operation stands for. */
  function HunkOp(hunk: Hunk): Op {
    if hunk.Insert? then var at := if hunk.pos == Head then 0 else hunk.line; Op(at, at, hunk)
    else Op(if hunk.start > 0 then hunk.start - 1 else 0, hunk.end, hunk)
  }

  function HunkOps(hunks: seq<Hunk>): (ops: seq<Op>)
    ensures |ops| == |hunks| && forall k | 0 <= k < |hunks| :: ops[k] == HunkOp(hunks[k])
  {
    seq(|hunks|, k requires 0 <= k < |hunks| => HunkOp(hunks[k]))
  }

  /** What the loop has made of the rows read so far, which replace `base[p..q]` by
      `made`: operations in order with a kept row between neighbours, then the run. */
  ghost predicate Meaning(s: State, base: seq<Text>, p: nat, q: nat, made: seq<Text>) {
    var ops := HunkOps(s.hunks);
    && p <= q <= |base| && s.sourceLine == q + 1
    && (forall hunk | hunk in s.hunks :: Compiled(hunk))
    && (forall k | 1 <= k < |ops| :: ops[k - 1].end < ops[k].start)
    && match s.run
       case None =>
         && (ops != [] ==> ops[|ops| - 1].end < q)
         && Chain(ContentEdits(ops), p, q)
         && Stitch(base[..q], ContentEdits(ops), p) == made
       case Some(run) =>
         && run.start >= 1 && p <= run.start - 1 && run.start - 1 + run.removed == q
         && (run.removed > 0 || run.body != [])
         && (ops != [] ==> ops[|ops| - 1].end < run.start - 1)
         && Chain(ContentEdits(ops), p, run.start - 1)
         && Stitch(base[..run.start - 1], ContentEdits(ops), p) + run.body == made
  }

  /** The shape of an operation compiled from a run. */
  predicate Compiled(hunk: Hunk) {
    match hunk
    case Replace(start, end, body, source) => 1 <= start <= end && body != [] && source.None?
    case Delete(start, end, source) => 1 <= start <= end && source.None?
    case Insert(pos, line, body, source) =>
      body != [] && source.None? && (pos == Head || (pos == After && line >= 1))
  }

  /** Operations apart from each other, in a chain from `p` to `q`. */
  ghost predicate Shaped(hunks: seq<Hunk>, p: nat, q: nat) {
    var ops := HunkOps(hunks);
    && (forall hunk | hunk in hunks :: Compiled(hunk))
    && (forall k | 1 <= k < |ops| :: ops[k - 1].end < ops[k].start)
    && Chain(ContentEdits(ops), p, q)
  }

  lemma RunMeaning(s: State, base: seq<Text>, p: nat, q: nat, made: seq<Text>)
    requires Meaning(s, base, p, q, made) && s.run.Some?
    ensures var op, run := HunkOp(RunHunk(s.run.value)), s.run.value;
      && Compiled(RunHunk(run)) && HunkOps(Flush(s).hunks) == HunkOps(s.hunks) + [op]
      && op.start == run.start - 1 && op.end == q && HunkBody(op) == run.body
      && ContentEdits(HunkOps(s.hunks) + [op]) == ContentEdits(HunkOps(s.hunks)) + [Edit(run.start - 1, q, run.body)]
  {
  }

  lemma FlushMeaning(s: State, base: seq<Text>, p: nat, q: nat, made: seq<Text>)
    requires Meaning(s, base, p, q, made)
    ensures var ops := HunkOps(Flush(s).hunks);
      && Shaped(Flush(s).hunks, p, q) && p <= q <= |base|
      && Stitch(base[..q], ContentEdits(ops), p) == made
      && (ops != [] ==> ops[|ops| - 1].end <= q)
  {
    if s.run.Some? {
      hide Meaning, Shaped, Flush;
      RunStitched(s, base, p, q, made);
      RunShaped(s, base, p, q, made);
    }
  }

  lemma RunStitched(s: State, base: seq<Text>, p: nat, q: nat, made: seq<Text>)
    requires Meaning(s, base, p, q, made) && s.run.Some?
    ensures var ops := HunkOps(Flush(s).hunks);
      && p <= q <= |base| && Chain(ContentEdits(ops), p, q)
      && Stitch(base[..q], ContentEdits(ops), p) == made && ops[|ops| - 1].end == q
  {
    hide Chain, Stitch, ContentEdits, Flush, Compiled;
    var run, ops := s.run.value, HunkOps(s.hunks);
    RunMeaning(s, base, p, q, made);
    StitchSnoc(base, ContentEdits(ops), p, Edit(run.start - 1, q, run.body));
  }

  lemma RunShaped(s: State, base: seq<Text>, p: nat, q: nat, made: seq<Text>)
    requires Meaning(s, base, p, q, made) && s.run.Some?
    requires Chain(ContentEdits(HunkOps(Flush(s).hunks)), p, q)
    ensures Shaped(Flush(s).hunks, p, q)
  {
    hide Chain, Stitch, ContentEdits, Compiled;
    RunMeaning(s, base, p, q, made);
  }

  lemma ContextMeaning(s: State, base: seq<Text>, p: nat, q: nat, made: seq<Text>, text: Text)
    requires Meaning(s, base, p, q, made) && q < |base| && base[q] == text
    ensures Meaning(Step(s, Context(text)), base, p, q + 1, made + [text])
  {
    FlushMeaning(s, base, p, q, made);
    hide Chain, Stitch, Edits, Compiled, HunkOps;
    StitchExtend(base, ContentEdits(HunkOps(Flush(s).hunks)), p, q, q + 1);
    assert base[q..q + 1] == [text];
  }

  lemma RemovedMeaning(s: State, base: seq<Text>, p: nat, q: nat, made: seq<Text>, text: Text)
    requires Meaning(s, base, p, q, made) && q < |base|
    ensures Meaning(Step(s, Removed(text)), base, p, q + 1, made)
  {
    assert made + [] == made;
  }

  lemma AddedMeaning(s: State, base: seq<Text>, p: nat, q: nat, made: seq<Text>, text: Text)
    requires Meaning(s, base, p, q, made)
    ensures Meaning(Step(s, Added(text)), base, p, q, made + [text])
  {
    if s.run.Some? {
      hide Chain, Stitch, Edits, Compiled;
      var before := Stitch(base[..s.run.value.start - 1], ContentEdits(HunkOps(s.hunks)), p);
      assert (before + s.run.value.body) + [text] == before + (s.run.value.body + [text]);
    }
  }

  lemma StepMeaning(s: State, base: seq<Text>, p: nat, q: nat, made: seq<Text>, row: Row)
    requires Meaning(s, base, p, q, made)
    requires !row.Added? ==> q < |base| && base[q] == row.text
    ensures Meaning(Step(s, row), base, p, if row.Added? then q else q + 1,
                    made + if row.Removed? then [] else [row.text])
  {
    hide Meaning, Step;
    match row
    case Context(text) => ContextMeaning(s, base, p, q, made, text);
    case Removed(text) => RemovedMeaning(s, base, p, q, made, text); assert made + [] == made;
    case Added(text) => AddedMeaning(s, base, p, q, made, text);
  }

  lemma {:induction false} CompileMeaning(s: State, base: seq<Text>, p: nat, q: nat, made: seq<Text>, rows: seq<Row>)
    requires Meaning(s, base, p, q, made)
    requires q <= |base| && OldRows(rows) <= base[q..]
    ensures q + |OldRows(rows)| <= |base|
    ensures Meaning(Compile(s, rows), base, p, q + |OldRows(rows)|, made + NewRows(rows))
    decreases |rows|
  {
    hide Meaning, Step;
    if rows == [] {
      assert made + [] == made;
    } else {
      var row := rows[0];
      var q' := if row.Added? then q else q + 1;
      var made' := made + if row.Removed? then [] else [row.text];
      if !row.Added? { assert base[q] == OldRows(rows)[0]; }
      PrefixTail(base, q, OldRows(rows), q' - q);
      assert OldRows(rows)[q' - q..] == OldRows(rows[1..]);
      StepMeaning(s, base, p, q, made, row);
      CompileMeaning(Step(s, row), base, p, q', made', rows[1..]);
      assert made' + NewRows(rows[1..]) == made + NewRows(rows);
    }
  }

  lemma PrefixTail(base: seq<Text>, q: nat, prefix: seq<Text>, k: nat)
    requires q <= |base| && prefix <= base[q..] && k <= |prefix|
    ensures q + k <= |base| && prefix[k..] <= base[q + k..]
  {
    assert base[q..][k..] == base[q + k..];
  }
}
