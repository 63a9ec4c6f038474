/**
 The planning loop of the edit tool (harness/extensions/hashline.ts): the stages of one
 file are chained in memory and written once at the end.
 */
module Staged {
  import opened Utf
  import opened Lines
  import opened StableSort
  import opened Stitching
  import opened Hunks
  import opened Apply
  import opened EditFacts

  /** Hunks to apply to the version of the file that `tag` names. */
  datatype Stage = Stage(tag: Text, hunks: seq<Hunk>)

  datatype PlanError =
    | Unreadable(codec: CodecError)
    | StaleTag
    | Refused(edit: EditError)
    | Unwritable(codec: CodecError)
    | TooLarge
    | NoHunks

  /** What a stage sees of the outside: the digest of bytes and the size limit. */
  datatype Env = Env(fileTag: Bytes -> Text, maxBytes: nat)

  predicate ValidStages(stages: seq<Stage>) {
    forall s | s in stages :: AllValid(s.hunks)
  }

  /** One stage applied to a document and to the bytes it stands for. */
  ghost function StageResult(env: Env, doc: Document, bytes: Bytes, stage: Stage): Result<(Document, Bytes), PlanError>
    requires AllValid(stage.hunks)
  {
    if stage.tag != env.fileTag(bytes) then Err(StaleTag)
    else
      match Apply.Apply(doc, stage.hunks)
      case Err(e) => Err(Refused(e))
      case Ok(a) =>
        match Serialize(a.document)
        case Err(e) => Err(Unwritable(e))
        case Ok(b) => if |b| > env.maxBytes then Err(TooLarge) else Ok((a.document, b))
  }

  /** The stages chained in memory: each works on the document the last one left. */
  ghost function InMemory(env: Env, doc: Document, bytes: Bytes, stages: seq<Stage>): Result<Bytes, PlanError>
    requires ValidStages(stages)
    decreases |stages|
  {
    hide StageResult, Decoded;
    if stages == [] then Ok(bytes)
    else
      match StageResult(env, doc, bytes, stages[0])
      case Err(e) => Err(e)
      case Ok((doc', bytes')) => InMemory(env, doc', bytes', stages[1..])
  }

  /** The same stages one by one, each written out and read again before the next. */
  ghost function Reread(env: Env, bytes: Bytes, stages: seq<Stage>): Result<Bytes, PlanError>
    requires ValidStages(stages)
    decreases |stages|
  {
    hide StageResult, Decoded;
    if stages == [] then Ok(bytes)
    else
      match Decoded(bytes)
      case Err(e) => Err(Unreadable(e))
      case Ok(doc) =>
        match StageResult(env, doc, bytes, stages[0])
        case Err(e) => Err(e)
        case Ok((_, bytes')) => Reread(env, bytes', stages[1..])
  }

  /** The two things that make a written document read back differently. */
  predicate EndsReadably(doc: Document) {
    doc.lines == [] || doc.lines[|doc.lines| - 1].content != [] || doc.lines[|doc.lines| - 1].eol != NoEol
  }

  predicate GainsBom(doc: Document) {
    !doc.bom && Join(doc.lines) != [] && Join(doc.lines)[0] == BOM
  }

  /** Every line is free of breaks and all terminators are of one kind. */
  predicate OneStyle(lines: seq<TextLine>, style: Eol) {
    style != NoEol && UsesOnly(lines, style) && forall line | line in lines :: NoBreaks(line.content)
  }

  lemma {:induction false} StitchBreakFree(base: seq<Text>, edits: seq<Edit<Text>>, from: nat)
    requires Chain(edits, from, |base|) && (forall t | t in base :: NoBreaks(t))
    requires forall k | 0 <= k < |edits| :: forall t | t in edits[k].body :: NoBreaks(t)
    ensures forall t | t in Stitch(base, edits, from) :: NoBreaks(t)
    decreases |edits|
  {
    if edits != [] {
      assert forall k | 0 <= k < |edits[1..]| :: edits[1..][k] == edits[k + 1];
      StitchBreakFree(base, edits[1..], edits[0].end);
      forall t | t in edits[0].body ensures NoBreaks(t) {}
    }
  }

  /** New lines without breaks leave no breaks. */
  lemma BreakFreeKept(original: seq<TextLine>, ops: seq<Op>)
    requires Accepted(ops, |original|) && (forall line | line in original :: NoBreaks(line.content))
    requires forall op | op in ops :: BreakFree(op.hunk)
    ensures forall line | line in EditedLines(original, ops) :: NoBreaks(line.content)
  {
    hide NoBreaks, EditedLines;
    SplicingIsStitching(original, ops);
    forall t | t in Contents(original) ensures NoBreaks(t) {
      var i :| 0 <= i < |original| && t == Contents(original)[i];
      assert original[i] in original;
    }
    forall k | 0 <= k < |ops| ensures forall t | t in ContentEdits(ops)[k].body :: NoBreaks(t) {
      assert BreakFree(ops[k].hunk);
    }
    StitchBreakFree(Contents(original), ContentEdits(ops), 0);
    var lines := EditedLines(original, ops);
    forall line | line in lines ensures NoBreaks(line.content) {
      var i :| 0 <= i < |lines| && lines[i] == line;
      assert Contents(lines)[i] in Contents(lines);
    }
  }

  /** An edit of a file of one style leaves one style. */
  lemma OneStyleKept(original: seq<TextLine>, ops: seq<Op>, style: Eol)
    requires Accepted(ops, |original|) && OneStyle(original, style)
    requires forall op | op in ops :: BreakFree(op.hunk)
    ensures OneStyle(EditedLines(original, ops), style) || OneStyle(EditedLines(original, ops), LF)
    ensures Terminated(EditedLines(original, ops))
  {
    StyleOf(original, style);
    var kept := if Style(original, style) then style else LF;
    StyleKept(original, ops, kept);
    ResultTerminated(original, ops);
    BreakFreeKept(original, ops);
  }

  /** For a terminated document of one style, reading back what is written gives the
      document itself exactly when it ends readably and gains no byte-order mark. */
  lemma StableExactly(doc: Document, style: Eol)
    requires OneStyle(doc.lines, style) && Terminated(doc.lines)
    ensures Stable(doc) <==> EndsReadably(doc) && !GainsBom(doc)
  {
    var lines := doc.lines;
    forall i | 0 <= i < |lines|
      ensures LineFits(lines, i) <==> (i + 1 == |lines| ==> EndsReadably(doc))
    {
      assert lines[i] in lines;
      assert lines[i].eol == NoEol || lines[i].eol == style;
      if i + 1 < |lines| { assert lines[i + 1].eol == NoEol || lines[i + 1].eol == style; }
    }
    if Canonical(lines) && lines != [] { assert LineFits(lines, |lines| - 1); }
  }

  /** Along the chain, every document that a further stage reads ends readably and gains
      no byte-order mark. */
  ghost predicate KeepsReadable(env: Env, doc: Document, bytes: Bytes, stages: seq<Stage>)
    requires ValidStages(stages)
    decreases |stages|
  {
    hide StageResult, Decoded;
    |stages| <= 1 ||
    match StageResult(env, doc, bytes, stages[0])
    case Err(_) => true
    case Ok((doc', bytes')) => EndsReadably(doc') && !GainsBom(doc') && KeepsReadable(env, doc', bytes', stages[1..])
  }

  lemma StageKeepsStyle(env: Env, doc: Document, bytes: Bytes, stage: Stage, style: Eol) returns (style': Eol)
    requires OneStyle(doc.lines, style)
    requires AllValid(stage.hunks) && AllBreakFree(stage.hunks)
    requires StageResult(env, doc, bytes, stage).Ok?
    ensures var (doc', bytes') := StageResult(env, doc, bytes, stage).value;
      OneStyle(doc'.lines, style') && Terminated(doc'.lines) && Serialize(doc') == Ok(bytes')
  {
    hide OneStyle, Terminated, Serialize, BreakFree, Prepare, OpsFor, EditedLines;
    var ops := AppliedIsEdit(doc, stage.hunks);
    OpsBreakFree(ops, stage.hunks, |doc.lines|);
    OneStyleKept(doc.lines, ops, style);
    style' := if OneStyle(EditedLines(doc.lines, ops), style) then style else LF;
  }

  lemma OpsBreakFree(ops: seq<Op>, hunks: seq<Hunk>, n: nat)
    requires AllValid(hunks) && AllBreakFree(hunks) && OpsFor(hunks, n).Ok?
    requires multiset(ops) == multiset(OpsFor(hunks, n).value)
    ensures forall op | op in ops :: BreakFree(op.hunk)
  {
    hide BreakFree;
    forall op | op in ops ensures BreakFree(op.hunk) {
      assert op in multiset(ops);
      var unsorted := OpsFor(hunks, n).value;
      assert op in unsorted;
      var j :| 0 <= j < |unsorted| && unsorted[j] == op;
      assert OpFor(hunks[j], n) == Ok(unsorted[j]);
    }
  }

  /** Every document that a further stage reads would be read back as it is. */
  ghost predicate ReadsStable(env: Env, doc: Document, bytes: Bytes, stages: seq<Stage>)
    requires ValidStages(stages)
    decreases |stages|
  {
    hide StageResult, Decoded;
    |stages| <= 1 ||
    match StageResult(env, doc, bytes, stages[0])
    case Err(_) => true
    case Ok((doc', bytes')) => Stable(doc') && ReadsStable(env, doc', bytes', stages[1..])
  }

  lemma WrittenBytes(env: Env, doc: Document, bytes: Bytes, stage: Stage)
    requires AllValid(stage.hunks) && StageResult(env, doc, bytes, stage).Ok?
    ensures var (doc', bytes') := StageResult(env, doc, bytes, stage).value;
      Serialize(doc') == Ok(bytes') && |bytes'| <= env.maxBytes && Apply.Apply(doc, stage.hunks).Ok?
      && doc' == Apply.Apply(doc, stage.hunks).value.document
  {
    hide Serialize;
  }

  /** Chaining stages in memory gives the same bytes, or the same refusal, as writing and
      rereading the file after every stage, whatever terminators the file uses. */
  lemma {:induction false} ChainIsReread(env: Env, doc: Document, bytes: Bytes, stages: seq<Stage>)
    requires ValidStages(stages) && Decoded(bytes) == Ok(doc) && ReadsStable(env, doc, bytes, stages)
    ensures InMemory(env, doc, bytes, stages) == Reread(env, bytes, stages)
    decreases |stages|
  {
    hide StageResult, Decoded, Serialize, Stable, AllValid;
    if |stages| > 1 && StageResult(env, doc, bytes, stages[0]).Ok? {
      var (doc', bytes') := StageResult(env, doc, bytes, stages[0]).value;
      assert stages[0] in stages;
      WrittenBytes(env, doc, bytes, stages[0]);
      DecodedSerialize(doc');
      ChainIsReread(env, doc', bytes', stages[1..]);
    }
  }

  lemma {:induction false} ReadableIsStable(env: Env, doc: Document, bytes: Bytes, stages: seq<Stage>, style: Eol)
    requires ValidStages(stages) && forall s | s in stages :: AllBreakFree(s.hunks)
    requires OneStyle(doc.lines, style) && KeepsReadable(env, doc, bytes, stages)
    ensures ReadsStable(env, doc, bytes, stages)
    decreases |stages|
  {
    hide StageResult, Decoded, Serialize, EndsReadably, GainsBom, Stable, OneStyle, Terminated, AllBreakFree, AllValid;
    if |stages| > 1 && StageResult(env, doc, bytes, stages[0]).Ok? {
      var (doc', bytes') := StageResult(env, doc, bytes, stages[0]).value;
      assert stages[0] in stages;
      var style' := StageKeepsStyle(env, doc, bytes, stages[0], style);
      StableExactly(doc', style');
      ReadableIsStable(env, doc', bytes', stages[1..], style');
    }
  }

  /** For a file with one kind of terminator it is enough that each text a further stage
      reads ends readably and gains no byte-order mark. */
  lemma InMemoryIsReread(env: Env, doc: Document, bytes: Bytes, stages: seq<Stage>, style: Eol)
    requires ValidStages(stages) && forall s | s in stages :: AllBreakFree(s.hunks)
    requires Decoded(bytes) == Ok(doc) && style != NoEol && UsesOnly(doc.lines, style)
    requires KeepsReadable(env, doc, bytes, stages)
    ensures InMemory(env, doc, bytes, stages) == Reread(env, bytes, stages)
  {
    hide Decoded, OneStyle, KeepsReadable, ReadsStable, AllBreakFree, AllValid, InMemory, Reread;
    ReadableHasBreakFreeLines(bytes, style);
    ReadableIsStable(env, doc, bytes, stages, style);
    ChainIsReread(env, doc, bytes, stages);
  }

  /** Any file that can be read and uses one kind of terminator qualifies. */
  lemma ReadableHasBreakFreeLines(bytes: Bytes, style: Eol)
    requires Decoded(bytes).Ok? && style != NoEol && UsesOnly(Decoded(bytes).value.lines, style)
    ensures OneStyle(Decoded(bytes).value.lines, style)
  {
    var doc := Decoded(bytes).value;
    var body := if doc.bom then bytes[3..] else bytes;
    JoinParse(Decode(body).value);
    forall line | line in doc.lines ensures NoBreaks(line.content) {
      var i :| 0 <= i < |doc.lines| && doc.lines[i] == line;
      assert LineFits(doc.lines, i);
    }
  }

  // The two conditions are needed

  /** A one-line file without a newline, emptied and then shortened: the chain still has
      a line to delete, the reread file has none. */
  lemma EmptyLastLineDiffers(env: Env)
    requires env.maxBytes >= 1
    ensures var doc := Document(false, [TextLine([97], NoEol)]);
      && Serialize(doc).Ok? && Decoded(Serialize(doc).value) == Ok(doc)
      && var bytes := Serialize(doc).value;
         var empty := Stage(env.fileTag(bytes), [Replace(1, 1, [[]], None)]);
         var shorten := Stage(env.fileTag([]), [Delete(1, 1, None)]);
         && AllValid(empty.hunks) && AllValid(shorten.hunks)
         && InMemory(env, doc, bytes, [empty, shorten]) == Ok([])
         && Reread(env, bytes, [empty, shorten]) == Err(Refused(OutOfBounds(1)))
  {
    hide StageResult, Serialize, Decoded, InMemory, Reread;
    var doc := Document(false, [TextLine([97], NoEol)]);
    OneLetter(doc);
    var bytes := Serialize(doc).value;
    var empty := Stage(env.fileTag(bytes), [Replace(1, 1, [[]], None)]);
    var shorten := Stage(env.fileTag([]), [Delete(1, 1, None)]);
    FirstEmpties(env, doc, bytes, empty);
    ThenDiffers(env, shorten);
    TwoStages(env, doc, bytes, [empty, shorten], Document(false, [TextLine([], NoEol)]), [],
              Document(false, []), [], Document(false, []), Refused(OutOfBounds(1)));
  }

  lemma InMemoryStep(env: Env, doc: Document, bytes: Bytes, stages: seq<Stage>, doc': Document, bytes': Bytes)
    requires ValidStages(stages) && stages != [] && AllValid(stages[0].hunks)
    requires StageResult(env, doc, bytes, stages[0]) == Ok((doc', bytes'))
    ensures ValidStages(stages[1..])
    ensures InMemory(env, doc, bytes, stages) == InMemory(env, doc', bytes', stages[1..])
    ensures Decoded(bytes) == Ok(doc) ==> Reread(env, bytes, stages) == Reread(env, bytes', stages[1..])
  {
    hide StageResult, Decoded;
  }

  /** Two stages, the second of which sees another document after a reread. */
  lemma TwoStages(env: Env, doc: Document, bytes: Bytes, stages: seq<Stage>, doc1: Document, bytes1: Bytes,
                  doc2: Document, bytes2: Bytes, reread: Document, e: PlanError)
    requires ValidStages(stages) && |stages| == 2 && AllValid(stages[0].hunks) && AllValid(stages[1].hunks)
    requires Decoded(bytes) == Ok(doc) && Decoded(bytes1) == Ok(reread)
    requires StageResult(env, doc, bytes, stages[0]) == Ok((doc1, bytes1))
    requires StageResult(env, doc1, bytes1, stages[1]) == Ok((doc2, bytes2))
    requires StageResult(env, reread, bytes1, stages[1]) == Err(e)
    ensures InMemory(env, doc, bytes, stages) == Ok(bytes2)
    ensures Reread(env, bytes, stages) == Err(e)
  {
    hide StageResult, Decoded;
    assert stages[1..][0] == stages[1];
    InMemoryStep(env, doc, bytes, stages, doc1, bytes1);
    InMemoryStep(env, doc1, bytes1, stages[1..], doc2, bytes2);
    assert stages[1..][1..] == [];
  }

  lemma OneLetter(doc: Document)
    requires doc == Document(false, [TextLine([97], NoEol)])
    ensures Serialize(doc).Ok? && |Serialize(doc).value| == 1 && Decoded(Serialize(doc).value) == Ok(doc)
  {
    assert Join(doc.lines) == [97] by { assert [97] + [] + [] == [97]; }
    assert WellFormed([97]) by { assert [97][1..] == []; }
    assert LineFits(doc.lines, 0);
    assert Encode([97]) == [97] by { assert [97][1..] == []; }
    DecodedSerialize(doc);
  }

  lemma FirstEmpties(env: Env, doc: Document, bytes: Bytes, empty: Stage)
    requires doc == Document(false, [TextLine([97], NoEol)])
    requires empty == Stage(env.fileTag(bytes), [Replace(1, 1, [[]], None)])
    ensures AllValid(empty.hunks)
    ensures StageResult(env, doc, bytes, empty) == Ok((Document(false, [TextLine([], NoEol)]), []))
  {
    SingleEdit(doc, empty.hunks[0]);
    assert Join([TextLine([], NoEol)]) == [];
  }

  lemma ThenDiffers(env: Env, shorten: Stage)
    requires shorten == Stage(env.fileTag([]), [Delete(1, 1, None)])
    ensures AllValid(shorten.hunks)
    ensures StageResult(env, Document(false, [TextLine([], NoEol)]), [], shorten) == Ok((Document(false, []), []))
    ensures Decoded([]) == Ok(Document(false, []))
    ensures StageResult(env, Document(false, []), [], shorten) == Err(Refused(OutOfBounds(1)))
  {
    SingleEdit(Document(false, [TextLine([], NoEol)]), shorten.hunks[0]);
  }

  /** One hunk that covers the only line of a document. */
  lemma SingleEdit(doc: Document, hunk: Hunk)
    requires |doc.lines| == 1 && doc.lines[0].eol == NoEol && ValidHunk(hunk) && hunk.source.None?
    requires !hunk.Insert? && hunk.start == 1 && hunk.end == 1 && (hunk.Replace? ==> |hunk.body| == 1)
    ensures Apply.Apply(doc, [hunk]).Ok?
    ensures Apply.Apply(doc, [hunk]).value.document
         == Document(doc.bom, if hunk.Delete? then [] else [TextLine(hunk.body[0], NoEol)])
  {
    var op := Op(0, 1, hunk);
    SinglePrepared(doc.lines, hunk);
    SingleResult(doc.lines, op);
  }

  lemma OneOp(hunk: Hunk)
    requires ValidHunk(hunk) && !hunk.Insert? && hunk.start == 1 && hunk.end == 1
    ensures OpsFor([hunk], 1) == Ok([Op(0, 1, hunk)]) && FromHunk(Op(0, 1, hunk), 1)
  {
    assert [hunk][1..] == [];
    assert [Op(0, 1, hunk)] + [] == [Op(0, 1, hunk)];
  }

  lemma SinglePrepared(lines: seq<TextLine>, hunk: Hunk)
    requires |lines| == 1 && ValidHunk(hunk) && hunk.source.None? && !hunk.Insert? && hunk.start == 1 && hunk.end == 1
    ensures Prepare(lines, [hunk]) == Ok([Op(0, 1, hunk)])
    ensures Accepted([Op(0, 1, hunk)], 1)
  {
    var op := Op(0, 1, hunk);
    OneOp(hunk);
    SortOfSorted([op], OpKey);
    SourcesChecked([op], Contents(lines));
    hide Sort, Contents, SourceMatches;
    assert CheckSources([op], Contents(lines)).None? by { assert SourceOk(op, Contents(lines)); }
  }

  lemma SingleResult(lines: seq<TextLine>, op: Op)
    requires |lines| == 1 && lines[0].eol == NoEol && Accepted([op], 1) && op.start == 0 && op.end == 1
    requires op.hunk.Delete? || (op.hunk.Replace? && |op.hunk.body| == 1)
    ensures EditedLines(lines, [op]) == if op.hunk.Delete? then [] else [TextLine(op.hunk.body[0], NoEol)]
  {
    assert FromHunk(op, 1);
    var body := BodyLines(op, lines);
    assert LineEdits([op], lines) == [Edit(0, 1, body)];
    StitchOne(Touched(lines, [op]), Edit(0, 1, body));
    assert lines[..0] + body + lines[1..] == body;
  }
}
