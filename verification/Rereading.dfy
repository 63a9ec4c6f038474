/**
 When a stage may work on the document its predecessor left in memory instead of reading
 the file again: exactly when each document left would be read back as it is.
 */
module Rereading {
  import opened Utf
  import opened Lines
  import opened StableSort
  import opened Stitching
  import opened Hunks
  import opened Apply
  import opened EditFacts
  import opened Staged

  /** What every edited document is: lines free of breaks, terminated but for the last. */
  predicate Tidied(lines: seq<TextLine>) { Terminated(lines) && forall line | line in lines :: NoBreaks(line.content) }

  /** A stage as the parser makes it. */
  predicate Fine(stage: Stage) { AllValid(stage.hunks) && AllBreakFree(stage.hunks) }

  predicate AllFine(stages: seq<Stage>) { forall s | s in stages :: Fine(s) }

  // ---- What reading back gives -----------------------------------------------------------

  lemma TidiedTail(lines: seq<TextLine>)
    requires lines != [] && Tidied(lines)
    ensures Tidied(lines[1..]) && NoBreaks(lines[0].content) && (|lines| > 1 ==> lines[0].eol != NoEol)
  {
    assert lines[0] in lines;
    forall i | 0 <= i < |lines[1..]| - 1 ensures lines[1..][i].eol != NoEol { assert lines[1..][i] == lines[i + 1]; }
  }

  lemma StartsWithBreak(lines: seq<TextLine>)
    requires Tidied(lines) && Join(lines) != [] && Join(lines)[0] == LF_UNIT
    ensures lines != [] && lines[0].content == [] && lines[0].eol == LF
  {
    TidiedTail(lines);
    var c, e, rest := lines[0].content, EolText(lines[0].eol), Join(lines[1..]);
    assert Join(lines) == c + e + rest;
    if lines[0].eol == NoEol { UnterminatedFirst(lines); } else if c == [] { assert Join(lines)[0] == e[0]; }
    if c != [] {
      hide NoBreaks;
      assert Join(lines)[0] == c[0];
      FirstUnit(c);
    }
  }

  lemma FirstUnit(c: Text)
    requires NoBreaks(c) && c != []
    ensures !IsBreak(c[0])
  {
  }

  lemma EmptyFirst(lines: seq<TextLine>)
    requires lines != [] && lines[0].content == [] && lines[0].eol != NoEol
    ensures Join(lines) != [] && IsBreak(Join(lines)[0])
  {
    assert Join(lines) == [] + EolText(lines[0].eol) + Join(lines[1..]);
    assert Join(lines)[0] == EolText(lines[0].eol)[0];
  }

  /** Only a last line can be unterminated. */
  lemma UnterminatedFirst(lines: seq<TextLine>)
    requires Tidied(lines) && lines != [] && lines[0].eol == NoEol
    ensures |lines| == 1 && Join(lines) == lines[0].content
  {
    TidiedTail(lines);
    assert lines[1..] == [];
    assert Join(lines) == lines[0].content + [] + [];
  }

  /** A CR before an empty LF line is read as one CRLF. */
  predicate Merges(lines: seq<TextLine>) {
    |lines| > 1 && lines[0].eol == CR && Join(lines[1..]) != [] && Join(lines[1..])[0] == LF_UNIT
  }

  lemma ReadsMerged(lines: seq<TextLine>)
    requires Tidied(lines) && Merges(lines)
    ensures Tidied(lines[1..][1..])
    ensures Parse(Join(lines)) == [TextLine(lines[0].content, CRLF)] + Parse(Join(lines[1..][1..]))
  {
    var c, tail := lines[0].content, lines[1..];
    TidiedTail(lines);
    StartsWithBreak(tail);
    TidiedTail(tail);
    hide Tidied, NoBreaks, Parse;
    var after := Join(tail[1..]);
    assert Join(tail) == [] + EolText(LF) + after;
    assert Join(lines) == c + EolText(CRLF) + after;
    ParseOfTerminated(c, CRLF, after);
  }

  lemma ReadsAlone(lines: seq<TextLine>)
    requires Tidied(lines) && lines != [] && !Merges(lines) && lines[0].eol != NoEol
    ensures Tidied(lines[1..])
    ensures Parse(Join(lines)) == [lines[0]] + Parse(Join(lines[1..]))
  {
    TidiedTail(lines);
    hide Tidied, NoBreaks, Parse;
    if |lines| == 1 { assert lines[1..] == []; }
    ParseOfTerminated(lines[0].content, lines[0].eol, Join(lines[1..]));
  }

  /** Reading back never gives more lines, and as many only if it gives the same lines. */
  lemma {:induction false} ReadingBackShrinks(lines: seq<TextLine>)
    requires Tidied(lines)
    ensures |Parse(Join(lines))| <= |lines|
    ensures |Parse(Join(lines))| == |lines| ==> Parse(Join(lines)) == lines
    decreases |lines|
  {
    if lines == [] {
      assert Parse(Join(lines)) == [];
    } else {
      hide Tidied, Parse, Join, Merges;
      if lines[0].eol == NoEol {
        UnterminatedFirst(lines);
        TidiedTail(lines);
        OneLine(lines[0].content);
      } else if Merges(lines) {
        ReadsMerged(lines);
        ReadingBackShrinks(lines[1..][1..]);
      } else {
        ReadsAlone(lines);
        ReadingBackShrinks(lines[1..]);
      }
    }
  }

  lemma OneLine(c: Text)
    requires NoBreaks(c)
    ensures Parse(c) == if c == [] then [] else [TextLine(c, NoEol)]
  {
  }

  /** The text a written document gains as its byte-order mark. */
  predicate Gains(doc: Document) { !doc.bom && Join(doc.lines) != [] && Join(doc.lines)[0] == BOM }

  /** What is read back from a written document. */
  lemma ReadBack(doc: Document, bytes: Bytes)
    requires Serialize(doc) == Ok(bytes)
    ensures Decoded(bytes) == Ok(Document(doc.bom || Gains(doc), Parse(if Gains(doc) then Join(doc.lines)[1..] else Join(doc.lines))))
  {
    hide Parse, Encode, WellFormed;
    var t := Join(doc.lines);
    ScannedJoin(doc.lines);
    BomBytes(t);
    DecodeEncode(t);
    if doc.bom {
      assert bytes[..3] == [0xEF, 0xBB, 0xBF] && bytes[3..] == Encode(t);
    } else if Gains(doc) {
      WithoutBom(t);
      assert bytes[..3] == [0xEF, 0xBB, 0xBF] && bytes[3..] == Encode(t[1..]);
    } else if t != [] {
      FirstBytes(t);
    } else {
      NothingEncoded();
    }
  }

  lemma NothingEncoded()
    ensures Encode([]) == []
  {
  }

  lemma WithoutBom(t: Text)
    requires WellFormed(t) && t != [] && t[0] == BOM && 0 !in t
    ensures Encode(t) == [0xEF, 0xBB, 0xBF] + Encode(t[1..]) && WellFormed(t[1..]) && 0 !in t[1..]
    ensures Decode(Encode(t[1..])) == Some(t[1..])
  {
    hide Encode, Decode;
    assert t == [BOM] + t[1..];
    BomBytes(t[1..]);
    BomIsPlain(t);
    DecodeEncode(t[1..]);
    assert forall u | u in t[1..] :: u in t;
  }

  lemma BomIsPlain(t: Text)
    requires WellFormed(t) && t != [] && t[0] == BOM
    ensures WellFormed(t[1..])
  {
  }

  /** Without its first unit, which is no break, the text still comes from as many lines. */
  lemma LinesWithoutBom(lines: seq<TextLine>) returns (rest: seq<TextLine>)
    requires Tidied(lines) && Join(lines) != [] && Join(lines)[0] == BOM
    ensures Tidied(rest) && |rest| == |lines| && Join(rest) == Join(lines)[1..]
  {
    TidiedTail(lines);
    var c, e, after := lines[0].content, EolText(lines[0].eol), Join(lines[1..]);
    assert Join(lines) == c + e + after;
    if lines[0].eol == NoEol { UnterminatedFirst(lines); } else if c == [] { EmptyFirst(lines); }
    rest := lines[0 := TextLine(c[1..], lines[0].eol)];
    assert rest[1..] == lines[1..];
    assert Join(rest) == c[1..] + e + after;
    forall line | line in rest ensures NoBreaks(line.content) {
      var i :| 0 <= i < |rest| && rest[i] == line;
      if i > 0 { assert lines[i] in lines; }
    }
  }

  /** A document that is not read back as it is comes back with fewer lines, or as many
      behind a byte-order mark. */
  lemma WhatDiffers(doc: Document, bytes: Bytes)
    requires Serialize(doc) == Ok(bytes) && Tidied(doc.lines) && !Stable(doc)
    ensures Decoded(bytes).Ok? && doc.lines != []
    ensures var back := Decoded(bytes).value;
      |back.lines| < |doc.lines| || (|back.lines| == |doc.lines| && !doc.bom && back.bom && |bytes| >= 3)
  {
    hide Parse, Serialize, Tidied;
    ReadBack(doc, bytes);
    ParseJoin(doc.lines);
    if Gains(doc) {
      var rest := LinesWithoutBom(doc.lines);
      ReadingBackShrinks(rest);
      LongEnough(doc, bytes);
    } else {
      ReadingBackShrinks(doc.lines);
      NoneFits();
    }
  }

  lemma LongEnough(doc: Document, bytes: Bytes)
    requires Serialize(doc) == Ok(bytes) && Gains(doc)
    ensures |bytes| >= 3 && doc.lines != []
  {
    FirstBytes(Join(doc.lines));
    hide Encode;
  }

  lemma NoneFits()
    ensures Canonical([]) && Join([]) == []
  {
  }

  // ---- Edits that tell two documents apart ----------------------------------------------------

  lemma OnePrepared(lines: seq<TextLine>, hunk: Hunk)
    requires ValidHunk(hunk) && hunk.source.None? && OpFor(hunk, |lines|).Ok?
    ensures Prepare(lines, [hunk]) == Ok([OpFor(hunk, |lines|).value]) && Accepted([OpFor(hunk, |lines|).value], |lines|)
  {
    var op := OpFor(hunk, |lines|).value;
    assert [hunk][1..] == [] && [op] + [] == [op];
    assert OpsFor([hunk], |lines|) == Ok([op]);
    SortOfSorted([op], OpKey);
    SourcesChecked([op], Contents(lines));
    hide Sort, Contents, SourceMatches;
    assert CheckSources([op], Contents(lines)).None? by { assert SourceOk(op, Contents(lines)); }
  }

  /** Deleting line `n` of a document: possible exactly when it is there. */
  lemma DeletesLine(doc: Document, n: nat)
    requires n >= 1
    ensures AllValid([Delete(n, n, None)])
    ensures n <= |doc.lines| ==> Apply.Apply(doc, [Delete(n, n, None)]).Ok?
    ensures n > |doc.lines| ==> Apply.Apply(doc, [Delete(n, n, None)]) == Err(OutOfBounds(n))
  {
    hide EditedLines;
    if n <= |doc.lines| { OnePrepared(doc.lines, Delete(n, n, None)); }
  }

  /** Replacing all lines by one. */
  lemma ReplacesAll(doc: Document, body: Text)
    requires doc.lines != []
    ensures var n := |doc.lines|;
      var hunks := [Replace(1, n, [body], None)];
      && AllValid(hunks) && Apply.Apply(doc, hunks).Ok?
      && Apply.Apply(doc, hunks).value.document == Document(doc.bom, [TextLine(body, doc.lines[n - 1].eol)])
  {
    var n := |doc.lines|;
    var hunk := Replace(1, n, [body], None);
    var op := Op(0, n, hunk);
    OnePrepared(doc.lines, hunk);
    var result := EditedLines(doc.lines, [op]);
    SplicingIsStitching(doc.lines, [op]);
    ResultTerminated(doc.lines, [op]);
    hide EditedLines;
    assert ContentEdits([op]) == [Edit(0, n, [body])];
    StitchOne(Contents(doc.lines), Edit(0, n, [body]));
    assert Contents(result) == [body];
    assert result[0].content == Contents(result)[0];
    assert result == [result[0]];
  }

  /** One stage on a document, and on the file it stands for. */
  lemma OneStage(env: Env, doc: Document, bytes: Bytes, stage: Stage)
    requires AllValid(stage.hunks)
    ensures ValidStages([stage])
    ensures InMemory(env, doc, bytes, [stage]) ==
      match StageResult(env, doc, bytes, stage) case Err(e) => Err(e) case Ok((_, b)) => Ok(b)
    ensures Decoded(bytes).Ok? ==> Reread(env, bytes, [stage]) == InMemory(env, Decoded(bytes).value, bytes, [stage])
  {
    hide StageResult, Decoded;
    assert [stage][1..] == [];
  }

  lemma {:induction false} BlankLine(bom: bool, eol: Eol)
    ensures var r := Serialize(Document(bom, [TextLine([], eol)]));
      r.Ok? && (if bom then |r.value| >= 3 else |r.value| <= 2)
  {
    var lines := [TextLine([], eol)];
    assert lines[1..] == [] && 0 !in lines[0].content && WellFormed(lines[0].content);
    assert ScanLines(lines) == ScanLines(lines[1..]) == Option.None;
    assert Join(lines) == [] + EolText(eol) + [] == EolText(eol);
    EolWellFormed(eol);
    BomBytes(EolText(eol));
    EolBytes(eol);
    hide Encode;
  }

  lemma EolBytes(eol: Eol)
    ensures |Encode(EolText(eol))| <= 2
  {
    var t := EolText(eol);
    NothingEncoded();
    if eol != NoEol {
      EncodeUnfold(t);
      if eol == CRLF {
        assert t[1..] == [LF_UNIT];
        EncodeUnfold([LF_UNIT]);
        assert [LF_UNIT][1..] == [];
      } else {
        assert t[1..] == [];
      }
    }
  }

  /** Fewer lines: the last line can be deleted only in memory. */
  lemma DeleteTells(env: Env, doc: Document, bytes: Bytes)
    requires Decoded(bytes).Ok? && |Decoded(bytes).value.lines| < |doc.lines|
    ensures var stage := Stage(env.fileTag(bytes), [Delete(|doc.lines|, |doc.lines|, None)]);
      Fine(stage) && InMemory(env, doc, bytes, [stage]) != Reread(env, bytes, [stage])
  {
    hide Decoded, Prepare, Serialize;
    var n := |doc.lines|;
    var stage := Stage(env.fileTag(bytes), [Delete(n, n, None)]);
    DeletesLine(doc, n);
    DeletesLine(Decoded(bytes).value, n);
    OneStage(env, doc, bytes, stage);
  }

  /** A byte-order mark: it stays in the file when everything else is replaced. */
  lemma ReplaceTells(env: Env, doc: Document, bytes: Bytes)
    requires Decoded(bytes).Ok? && doc.lines != [] && 3 <= |bytes| <= env.maxBytes
    requires var back := Decoded(bytes).value; |back.lines| == |doc.lines| && !doc.bom && back.bom
    ensures var stage := Stage(env.fileTag(bytes), [Replace(1, |doc.lines|, [[]], None)]);
      Fine(stage) && InMemory(env, doc, bytes, [stage]) != Reread(env, bytes, [stage])
  {
    hide Decoded, Prepare, Serialize;
    var back := Decoded(bytes).value;
    var stage := Stage(env.fileTag(bytes), [Replace(1, |doc.lines|, [[]], None)]);
    ReplacesAll(doc, []);
    ReplacesAll(back, []);
    BlankLine(false, doc.lines[|doc.lines| - 1].eol);
    BlankLine(true, back.lines[|back.lines| - 1].eol);
    OneStage(env, doc, bytes, stage);
    OneStage(env, back, bytes, stage);
  }

  /** Reading a written document again is invisible to every next stage exactly when the
      document is read back as it is. */
  lemma RereadInvisibleExactly(env: Env, doc: Document, bytes: Bytes)
    requires Serialize(doc) == Ok(bytes) && |bytes| <= env.maxBytes && Tidied(doc.lines)
    ensures (forall stage | Fine(stage) :: InMemory(env, doc, bytes, [stage]) == Reread(env, bytes, [stage])) <==> Stable(doc)
  {
    hide InMemory, Reread, Decoded, Serialize, Stable, Tidied;
    DecodedSerialize(doc);
    if Stable(doc) {
      forall stage | Fine(stage) ensures InMemory(env, doc, bytes, [stage]) == Reread(env, bytes, [stage]) {
        OneStage(env, doc, bytes, stage);
      }
    } else {
      WhatDiffers(doc, bytes);
      if |Decoded(bytes).value.lines| < |doc.lines| { DeleteTells(env, doc, bytes); } else { ReplaceTells(env, doc, bytes); }
    }
  }

  // ---- Whole chains -----------------------------------------------------------------------------------

  /** What the first stage gives. */
  ghost function FirstResult(env: Env, doc: Document, bytes: Bytes, stages: seq<Stage>): Result<(Document, Bytes), PlanError>
    requires AllFine(stages) && stages != []
  {
    assert stages[0] in stages;
    StageResult(env, doc, bytes, stages[0])
  }

  lemma RestFine(stages: seq<Stage>)
    requires AllFine(stages) && stages != []
    ensures AllFine(stages[1..]) && Fine(stages[0])
  {
    hide Fine;
    assert stages[0] in stages;
    assert forall s | s in stages[1..] :: s in stages;
  }

  /** Every document the stages leave is read back as it is. */
  ghost predicate Settled(env: Env, doc: Document, bytes: Bytes, stages: seq<Stage>)
    requires AllFine(stages)
    decreases |stages|
  {
    hide StageResult;
    stages == [] ||
    assert AllFine(stages[1..]) by { RestFine(stages); }
    match FirstResult(env, doc, bytes, stages)
    case Err(_) => true
    case Ok((doc', bytes')) => Stable(doc') && Settled(env, doc', bytes', stages[1..])
  }

  /** The two ways agree on the chain and `last`. */
  ghost predicate Agree(env: Env, doc: Document, bytes: Bytes, stages: seq<Stage>, last: Stage)
    requires AllFine(stages) && Fine(last)
  {
    InMemory(env, doc, bytes, stages + [last]) == Reread(env, bytes, stages + [last])
  }

  /** The two ways agree wherever the chain is cut and whatever stage comes next. */
  ghost predicate AlwaysAgree(env: Env, doc: Document, bytes: Bytes, stages: seq<Stage>)
    requires AllFine(stages)
  {
    forall k, last | 0 <= k <= |stages| && Fine(last) :: Agree(env, doc, bytes, stages[..k], last)
  }

  lemma StageTidies(env: Env, doc: Document, bytes: Bytes, stage: Stage)
    requires Tidied(doc.lines) && Fine(stage) && StageResult(env, doc, bytes, stage).Ok?
    ensures Tidied(StageResult(env, doc, bytes, stage).value.0.lines)
  {
    hide NoBreaks, Serialize, BreakFree, Prepare, OpsFor, EditedLines;
    WrittenBytes(env, doc, bytes, stage);
    var ops := AppliedIsEdit(doc, stage.hunks);
    OpsBreakFree(ops, stage.hunks, |doc.lines|);
    BreakFreeKept(doc.lines, ops);
    ResultTerminated(doc.lines, ops);
  }

  lemma DecodedIsTidied(bytes: Bytes)
    requires Decoded(bytes).Ok?
    ensures Tidied(Decoded(bytes).value.lines)
  {
    var doc := Decoded(bytes).value;
    JoinParse(Decode(if doc.bom then bytes[3..] else bytes).value);
    hide Parse, Decode, NoBreaks;
    forall i | 0 <= i < |doc.lines| - 1 ensures doc.lines[i].eol != NoEol { assert LineFits(doc.lines, i); }
    forall line | line in doc.lines ensures NoBreaks(line.content) {
      var i :| 0 <= i < |doc.lines| && doc.lines[i] == line;
      assert LineFits(doc.lines, i);
    }
  }

  /** A chain whose first stage succeeds, one stage further. */
  lemma AgreeStep(env: Env, doc: Document, bytes: Bytes, stages: seq<Stage>, last: Stage)
    requires AllFine(stages) && stages != [] && Fine(last) && Decoded(bytes) == Ok(doc)
    ensures AllFine(stages[1..])
    ensures FirstResult(env, doc, bytes, stages).Err? ==> Agree(env, doc, bytes, stages, last)
    ensures FirstResult(env, doc, bytes, stages).Ok? ==>
      var (doc', bytes') := FirstResult(env, doc, bytes, stages).value;
      Agree(env, doc, bytes, stages, last) <==> Agree(env, doc', bytes', stages[1..], last)
  {
    hide StageResult, Decoded, Fine;
    assert forall s | s in stages[1..] :: s in stages;
    var all := stages + [last];
    assert all[0] == stages[0] && all[1..] == stages[1..] + [last];
    FineIsValid(stages, last);
  }

  lemma FineIsValid(stages: seq<Stage>, last: Stage)
    requires AllFine(stages) && Fine(last)
    ensures ValidStages(stages + [last]) && ValidStages(stages)
  {
  }

  lemma AlwaysStep(env: Env, doc: Document, bytes: Bytes, stages: seq<Stage>, doc': Document, bytes': Bytes)
    requires AllFine(stages) && stages != [] && Decoded(bytes) == Ok(doc)
    requires FirstResult(env, doc, bytes, stages) == Ok((doc', bytes'))
    requires AllFine(stages[1..]) && forall last | Fine(last) :: Agree(env, doc, bytes, [], last)
    ensures AlwaysAgree(env, doc, bytes, stages) <==> AlwaysAgree(env, doc', bytes', stages[1..])
  {
    hide StageResult, Decoded, Fine, Agree;
    forall k, last | 0 < k <= |stages| && Fine(last)
      ensures Agree(env, doc, bytes, stages[..k], last) <==> Agree(env, doc', bytes', stages[1..][..k - 1], last)
    {
      PrefixFine(stages, k);
      AgreeStep(env, doc, bytes, stages[..k], last);
      assert stages[..k][1..] == stages[1..][..k - 1];
    }
    assert stages[..0] == [];
    if AlwaysAgree(env, doc, bytes, stages) {
      forall k, last | 0 <= k <= |stages[1..]| && Fine(last) ensures Agree(env, doc', bytes', stages[1..][..k], last) {
        assert Agree(env, doc, bytes, stages[..k + 1], last);
      }
    }
  }

  lemma PrefixFine(stages: seq<Stage>, k: nat)
    requires AllFine(stages) && k <= |stages|
    ensures AllFine(stages[..k])
  {
    hide Fine;
  }

  lemma AgreeAlone(env: Env, doc: Document, bytes: Bytes, last: Stage)
    requires Fine(last)
    ensures Agree(env, doc, bytes, [], last) <==> InMemory(env, doc, bytes, [last]) == Reread(env, bytes, [last])
  {
    hide InMemory, Reread;
    assert [] + [last] == [last];
  }

  /** At the start: the file was just read. */
  lemma FirstStageAgrees(env: Env, doc: Document, bytes: Bytes)
    requires Decoded(bytes) == Ok(doc)
    ensures forall last | Fine(last) :: Agree(env, doc, bytes, [], last)
  {
    hide InMemory, Reread, Decoded;
    forall last | Fine(last) ensures Agree(env, doc, bytes, [], last) {
      AgreeAlone(env, doc, bytes, last);
      OneStage(env, doc, bytes, last);
    }
  }

  /** Chaining in memory and rereading agree wherever the chain is cut and whatever comes
      next, exactly when every document a stage leaves is read back as it is. */
  lemma {:induction false} ChainsAgreeExactly(env: Env, doc: Document, bytes: Bytes, stages: seq<Stage>)
    requires AllFine(stages) && Decoded(bytes) == Ok(doc)
    ensures AlwaysAgree(env, doc, bytes, stages) <==> Settled(env, doc, bytes, stages)
    decreases |stages|
  {
    hide StageResult, Decoded, Fine, Agree, Stable, Serialize, Tidied;
    FirstStageAgrees(env, doc, bytes);
    if stages == [] {
      assert stages[..0] == [];
    } else {
      DecodedIsTidied(bytes);
      PrefixFine(stages, 1);
      assert forall s | s in stages[1..] :: s in stages;
      if FirstResult(env, doc, bytes, stages).Err? {
        AllErr(env, doc, bytes, stages);
      } else {
        var (doc', bytes') := FirstResult(env, doc, bytes, stages).value;
        NextChain(env, doc, bytes, stages, doc', bytes');
        if Stable(doc') { ChainsAgreeExactly(env, doc', bytes', stages[1..]); }
      }
    }
  }

  lemma AllErr(env: Env, doc: Document, bytes: Bytes, stages: seq<Stage>)
    requires AllFine(stages) && stages != [] && Decoded(bytes) == Ok(doc) && FirstResult(env, doc, bytes, stages).Err?
    ensures AlwaysAgree(env, doc, bytes, stages)
  {
    hide StageResult, Decoded, Fine, Agree;
    FirstStageAgrees(env, doc, bytes);
    forall k, last | 0 <= k <= |stages| && Fine(last) ensures Agree(env, doc, bytes, stages[..k], last) {
      if k > 0 {
        PrefixFine(stages, k);
        AgreeStep(env, doc, bytes, stages[..k], last);
      } else {
        assert stages[..0] == [];
      }
    }
  }

  /** One stage on: either its document is read back as it is, or some next stage tells. */
  lemma NextChain(env: Env, doc: Document, bytes: Bytes, stages: seq<Stage>, doc': Document, bytes': Bytes)
    requires AllFine(stages) && stages != [] && AllFine(stages[1..]) && Decoded(bytes) == Ok(doc) && Tidied(doc.lines)
    requires FirstResult(env, doc, bytes, stages) == Ok((doc', bytes'))
    ensures Stable(doc') ==> Decoded(bytes') == Ok(doc')
    ensures !Stable(doc') ==> !AlwaysAgree(env, doc, bytes, stages)
    ensures AlwaysAgree(env, doc, bytes, stages) <==> AlwaysAgree(env, doc', bytes', stages[1..])
  {
    hide StageResult, Decoded, Agree, Stable, Serialize, Tidied, AllValid, AllBreakFree;
    assert Fine(stages[0]);
    WrittenBytes(env, doc, bytes, stages[0]);
    StageTidies(env, doc, bytes, stages[0]);
    DecodedSerialize(doc');
    FirstStageAgrees(env, doc, bytes);
    AlwaysStep(env, doc, bytes, stages, doc', bytes');
    if !Stable(doc') {
      RereadInvisibleExactly(env, doc', bytes');
      var last :| Fine(last) && InMemory(env, doc', bytes', [last]) != Reread(env, bytes', [last]);
      AgreeAlone(env, doc', bytes', last);
      assert stages[1..][..0] == [];
    }
  }

  // ---- The other example --------------------------------------------------------------------------------

  /** A one-line file that one stage makes begin with U+FEFF and the next replaces: the
      reread file keeps the mark that the text became. */
  lemma GainedMarkDiffers(env: Env)
    requires env.maxBytes >= 4
    ensures var doc := Document(false, [TextLine([97], NoEol)]);
      && Serialize(doc).Ok? && Decoded(Serialize(doc).value) == Ok(doc)
      && var bytes := Serialize(doc).value;
         var mark := Stage(env.fileTag(bytes), [Replace(1, 1, [[BOM, 98]], None)]);
         var plain := Stage(env.fileTag([0xEF, 0xBB, 0xBF, 98]), [Replace(1, 1, [[98]], None)]);
         && Fine(mark) && Fine(plain)
         && InMemory(env, doc, bytes, [mark, plain]) == Ok([98])
         && Reread(env, bytes, [mark, plain]) == Ok([0xEF, 0xBB, 0xBF, 98])
  {
    hide StageResult, Serialize, Decoded, InMemory, Reread, Prepare;
    var doc := Document(false, [TextLine([97], NoEol)]);
    OneLetter(doc);
    var bytes := Serialize(doc).value;
    var mark := Stage(env.fileTag(bytes), [Replace(1, 1, [[BOM, 98]], None)]);
    var plain := Stage(env.fileTag([0xEF, 0xBB, 0xBF, 98]), [Replace(1, 1, [[98]], None)]);
    var marked, back := Document(false, [TextLine([BOM, 98], NoEol)]), Document(true, [TextLine([98], NoEol)]);
    Letters();
    Replacing(env, doc, bytes, [BOM, 98], marked, [0xEF, 0xBB, 0xBF, 98]);
    Replacing(env, marked, [0xEF, 0xBB, 0xBF, 98], [98], Document(false, [TextLine([98], NoEol)]), [98]);
    Replacing(env, back, [0xEF, 0xBB, 0xBF, 98], [98], back, [0xEF, 0xBB, 0xBF, 98]);
    InMemoryStep(env, doc, bytes, [mark, plain], marked, [0xEF, 0xBB, 0xBF, 98]);
    assert [mark, plain][1..] == [plain];
    OneStage(env, marked, [0xEF, 0xBB, 0xBF, 98], plain);
    OneStage(env, back, [0xEF, 0xBB, 0xBF, 98], plain);
  }

  lemma Replacing(env: Env, doc: Document, bytes: Bytes, body: Text, doc': Document, bytes': Bytes)
    requires |doc.lines| == 1 && doc.lines[0].eol == NoEol && NoBreaks(body)
    requires doc' == Document(doc.bom, [TextLine(body, NoEol)]) && Serialize(doc') == Ok(bytes') && |bytes'| <= env.maxBytes
    ensures var stage := Stage(env.fileTag(bytes), [Replace(1, 1, [body], None)]);
      Fine(stage) && StageResult(env, doc, bytes, stage) == Ok((doc', bytes'))
  {
    hide Serialize, Prepare;
    ReplacesAll(doc, body);
  }

  lemma Letters()
    ensures NoBreaks([BOM, 98]) && NoBreaks([98])
    ensures Serialize(Document(false, [TextLine([BOM, 98], NoEol)])) == Ok([0xEF, 0xBB, 0xBF, 98])
    ensures Serialize(Document(false, [TextLine([98], NoEol)])) == Ok([98])
    ensures Serialize(Document(true, [TextLine([98], NoEol)])) == Ok([0xEF, 0xBB, 0xBF, 98])
    ensures Decoded([0xEF, 0xBB, 0xBF, 98]) == Ok(Document(true, [TextLine([98], NoEol)]))
  {
    OneLineWritten(false, [98]);
    OneLineWritten(true, [98]);
    OneLineWritten(false, [BOM, 98]);
    LetterBytes();
    assert [BOM] + [98] == [BOM, 98];
    var doc := Document(true, [TextLine([98], NoEol)]);
    assert LineFits(doc.lines, 0);
    DecodedSerialize(doc);
  }

  lemma LetterBytes()
    ensures WellFormed([98]) && WellFormed([BOM, 98]) && Encode([98]) == [98]
    ensures Encode([BOM] + [98]) == [0xEF, 0xBB, 0xBF, 98]
  {
    assert [98][1..] == [] && [BOM, 98][1..] == [98];
    NothingEncoded();
    EncodeUnfold([98]);
    BomBytes([98]);
  }

  lemma OneLineWritten(bom: bool, content: Text)
    requires WellFormed(content) && 0 !in content
    ensures Serialize(Document(bom, [TextLine(content, NoEol)])) == Ok(Encode(if bom then [BOM] + content else content))
  {
    var lines := [TextLine(content, NoEol)];
    assert lines[1..] == [];
    assert ScanLines(lines) == ScanLines(lines[1..]) == Option.None;
    assert Join(lines) == content + [] + [] == content;
    hide Encode, WellFormed;
  }
}
