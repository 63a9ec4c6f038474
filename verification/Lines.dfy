/**
 Documents as lines with their own terminators: the reading and writing half of
 harness/lib/hashline-core.ts.
 */
module Lines {
  import opened Utf

  datatype Result<+T, +E> = Ok(value: T) | Err(error: E)

  datatype Eol = NoEol | LF | CRLF | CR

  datatype TextLine = TextLine(content: Text, eol: Eol)

  datatype Document = Document(bom: bool, lines: seq<TextLine>)

  datatype CodecError = NotUtf8 | NulByte | UnpairedSurrogate

  const LF_UNIT: Unit := 10
  const CR_UNIT: Unit := 13

  function EolText(eol: Eol): Text {
    match eol
    case NoEol => []
    case LF => [LF_UNIT]
    case CRLF => [CR_UNIT, LF_UNIT]
    case CR => [CR_UNIT]
  }

  lemma EolWellFormed(eol: Eol)
    ensures WellFormed(EolText(eol)) && 0 !in EolText(eol)
  {
    if eol == CRLF {
      assert EolText(eol)[1..] == [LF_UNIT];
      assert WellFormed([LF_UNIT]);
    }
  }

  predicate IsBreak(u: Unit) { u == LF_UNIT || u == CR_UNIT }

  predicate NoBreaks(t: Text) { forall i | 0 <= i < |t| :: !IsBreak(t[i]) }

  function Join(lines: seq<TextLine>): Text {
    if lines == [] then [] else lines[0].content + EolText(lines[0].eol) + Join(lines[1..])
  }

  /** The index of the first line break at or after `from`, or the length. */
  function BreakFrom(t: Text, from: nat): (k: nat)
    requires from <= |t|
    ensures from <= k <= |t| && (k < |t| ==> IsBreak(t[k]))
    ensures forall i | from <= i < k :: !IsBreak(t[i])
    decreases |t| - from
  {
    if from == |t| || IsBreak(t[from]) then from else BreakFrom(t, from + 1)
  }

  /** The longest terminator that starts at `k`. */
  function EolAt(t: Text, k: nat): (eol: Eol)
    requires k < |t| && IsBreak(t[k])
    ensures eol != NoEol && k + |EolText(eol)| <= |t| && t[k..k + |EolText(eol)|] == EolText(eol)
  {
    if t[k] == LF_UNIT then LF else if k + 1 < |t| && t[k + 1] == LF_UNIT then CRLF else CR
  }

  function Parse(t: Text): seq<TextLine>
    decreases |t|
  {
    var k := BreakFrom(t, 0);
    if t == [] then []
    else if k == |t| then [TextLine(t, NoEol)]
    else
      var eol := EolAt(t, k);
      [TextLine(t[..k], eol)] + Parse(t[k + |EolText(eol)|..])
  }

  /** The loop of `parseLines`. */
  method ParseLines(text: Text) returns (lines: seq<TextLine>)
    ensures lines == Parse(text)
  {
    hide EolAt, BreakFrom, Parse;
    lines := [];
    var start := 0;
    var k := BreakFrom(text, 0);
    assert text[0..] == text;
    while k < |text|
      invariant start <= k <= |text| && k == BreakFrom(text, start)
      invariant lines + Parse(text[start..]) == Parse(text)
      decreases |text| - start
    {
      var eol := EolAt(text, k);
      ParseAt(text, start);
      lines := lines + [TextLine(text[start..k], eol)];
      start := k + |EolText(eol)|;
      k := BreakFrom(text, start);
    }
    ParseTail(text, start);
    if start < |text| { lines := lines + [TextLine(text[start..], NoEol)]; }
  }

  lemma EolShift(t: Text, start: nat, k: nat)
    requires start <= k < |t| && IsBreak(t[k])
    ensures EolAt(t[start..], k - start) == EolAt(t, k)
  {
    assert t[start..][k - start] == t[k];
    if k + 1 < |t| { assert t[start..][k + 1 - start] == t[k + 1]; }
  }

  lemma ParseTail(text: Text, start: nat)
    requires start <= |text| && BreakFrom(text, start) == |text|
    ensures Parse(text[start..]) == if start < |text| then [TextLine(text[start..], NoEol)] else []
  {
    BreakFromShift(text, start, start);
  }

  lemma ParseAt(text: Text, start: nat)
    requires start <= |text| && BreakFrom(text, start) < |text|
    ensures var k := BreakFrom(text, start);
      var eol := EolAt(text, k);
      Parse(text[start..]) == [TextLine(text[start..k], eol)] + Parse(text[k + |EolText(eol)|..])
  {
    hide Parse, EolAt, BreakFrom;
    var k, suffix := BreakFrom(text, start), text[start..];
    var eol := EolAt(text, k);
    BreakFromShift(text, start, start);
    EolShift(text, start, k);
    ParseUnfold(suffix);
    assert suffix[..k - start] == text[start..k];
    assert suffix[k + |EolText(eol)| - start..] == text[k + |EolText(eol)|..];
  }

  lemma ParseUnfold(t: Text)
    requires BreakFrom(t, 0) < |t|
    ensures var k := BreakFrom(t, 0);
      Parse(t) == [TextLine(t[..k], EolAt(t, k))] + Parse(t[k + |EolText(EolAt(t, k))|..])
  {
  }

  lemma {:induction false} BreakFromShift(t: Text, start: nat, from: nat)
    requires start <= from <= |t|
    ensures BreakFrom(t, from) == start + BreakFrom(t[start..], from - start)
    decreases |t| - from
  {
    if from < |t| && !IsBreak(t[from]) { BreakFromShift(t, start, from + 1); }
  }

  /** What a line must be for reading to give it back at position `i`. */
  predicate LineFits(lines: seq<TextLine>, i: nat)
    requires i < |lines|
  {
    && NoBreaks(lines[i].content)
    && (i + 1 < |lines| ==> lines[i].eol != NoEol)
    && (i + 1 < |lines| && lines[i].eol == CR ==> !(lines[i + 1].content == [] && lines[i + 1].eol == LF))
    && (i + 1 == |lines| && lines[i].eol == NoEol ==> lines[i].content != [])
  }

  predicate Canonical(lines: seq<TextLine>) {
    forall i | 0 <= i < |lines| :: LineFits(lines, i)
  }

  lemma CanonicalTail(lines: seq<TextLine>)
    requires lines != []
    ensures Canonical(lines) <==> LineFits(lines, 0) && Canonical(lines[1..])
  {
    forall i | 0 <= i < |lines| - 1
      ensures LineFits(lines, i + 1) == LineFits(lines[1..], i)
    {
      assert lines[1..][i] == lines[i + 1];
    }
    if LineFits(lines, 0) && Canonical(lines[1..]) {
      forall i | 0 <= i < |lines| ensures LineFits(lines, i) {
        if i > 0 { assert LineFits(lines[1..], i - 1); }
      }
    }
  }

  lemma ParseOfTerminated(c: Text, eol: Eol, rest: Text)
    requires NoBreaks(c) && eol != NoEol
    requires eol == CR && rest != [] ==> rest[0] != LF_UNIT
    ensures Parse(c + EolText(eol) + rest) == [TextLine(c, eol)] + Parse(rest)
  {
    var e := EolText(eol);
    var t := c + e + rest;
    FirstTerminator(c, eol, rest);
    hide BreakFrom, EolAt, EolText, NoBreaks;
    assert t[..|c|] == c && t[|c| + |e|..] == rest;
  }

  lemma FirstTerminator(c: Text, eol: Eol, rest: Text)
    requires NoBreaks(c) && eol != NoEol
    requires eol == CR && rest != [] ==> rest[0] != LF_UNIT
    ensures var t := c + EolText(eol) + rest;
      BreakFrom(t, 0) == |c| < |t| && EolAt(t, |c|) == eol
  {
    var e := EolText(eol);
    var t := c + e + rest;
    assert forall i | 0 <= i < |c| :: t[i] == c[i];
    assert t[|c|] == e[0];
    assert BreakFrom(t, 0) == |c|;
    assert |e| == 2 ==> t[|c| + 1] == e[1];
    assert |e| == 1 && rest != [] ==> t[|c| + 1] == rest[0];
  }

  /** The first line read, and where the next one starts. */
  lemma ParseFirst(t: Text) returns (c: Text, eol: Eol, rest: Text)
    requires t != [] && BreakFrom(t, 0) < |t|
    ensures t == c + EolText(eol) + rest && |rest| < |t| && NoBreaks(c) && eol != NoEol
    ensures eol == CR && rest != [] ==> rest[0] != LF_UNIT
    ensures Parse(t) == [TextLine(c, eol)] + Parse(rest)
  {
    var k := BreakFrom(t, 0);
    eol := EolAt(t, k);
    var next := k + |EolText(eol)|;
    c, rest := t[..k], t[next..];
    assert t == t[..k] + t[k..next] + t[next..];
  }

  /** Reading loses nothing, and yields only canonical lines. */
  lemma {:induction false} JoinParse(t: Text)
    ensures Join(Parse(t)) == t && Canonical(Parse(t))
    decreases |t|
  {
    if t != [] && BreakFrom(t, 0) < |t| {
      var c, eol, rest := ParseFirst(t);
      JoinParse(rest);
      var lines := Parse(t);
      assert lines[1..] == Parse(rest);
      if |lines| > 1 && lines[1].content == [] && lines[1].eol == LF {
        assert rest == [] + [LF_UNIT] + Join(Parse(rest)[1..]);
      }
      assert LineFits(lines, 0) by {
        assert |lines| == 1 ==> eol != NoEol;
      }
      CanonicalTail(lines);
    } else if t != [] {
      assert Parse(t)[1..] == [];
      assert Join(Parse(t)) == t + [] + [];
    }
  }

  lemma FirstUnitOfJoin(lines: seq<TextLine>)
    requires Canonical(lines) && lines != [] && !(lines[0].content == [] && lines[0].eol == LF)
    ensures Join(lines) != [] && Join(lines)[0] != LF_UNIT
  {
    assert LineFits(lines, 0);
    var c, e := lines[0].content, EolText(lines[0].eol);
    assert Join(lines) == c + e + Join(lines[1..]);
    assert c != [] || e != [];
    assert Join(lines)[0] == if c != [] then c[0] else e[0];
  }

  lemma {:induction false} ParseJoinOfCanonical(lines: seq<TextLine>)
    requires Canonical(lines)
    ensures Parse(Join(lines)) == lines
  {
    if lines != [] {
      CanonicalTail(lines);
      ParseJoinOfCanonical(lines[1..]);
      var c, eol, rest := lines[0].content, lines[0].eol, Join(lines[1..]);
      assert LineFits(lines, 0);
      if eol == NoEol {
        assert lines == [lines[0]] && Join(lines) == c + [] + [] == c;
      } else {
        if lines[1..] != [] && eol == CR { FirstUnitOfJoin(lines[1..]); }
        ParseOfTerminated(c, eol, rest);
      }
    }
  }

  /** Reading gives lines back exactly when they are canonical. */
  lemma ParseJoin(lines: seq<TextLine>)
    ensures Parse(Join(lines)) == lines <==> Canonical(lines)
  {
    if Canonical(lines) { ParseJoinOfCanonical(lines); }
    JoinParse(Join(lines));
  }

  // Bytes

  /** The first complaint of the scan over the lines, NUL before surrogates in each. */
  function ScanLines(lines: seq<TextLine>): Option<CodecError> {
    if lines == [] then None
    else if 0 in lines[0].content then Some(NulByte)
    else if !WellFormed(lines[0].content) then Some(UnpairedSurrogate)
    else ScanLines(lines[1..])
  }

  function DocumentText(doc: Document): Text {
    if doc.bom then [BOM] + Join(doc.lines) else Join(doc.lines)
  }

  function Serialize(doc: Document): Result<Bytes, CodecError> {
    match ScanLines(doc.lines)
    case Some(error) => Err(error)
    case None => Ok(Encode(DocumentText(doc)))
  }

  /** The unit-by-unit scan for unpaired surrogates, jumping over each pair. */
  method ScanSurrogates(content: Text) returns (ok: bool)
    ensures ok <==> WellFormed(content)
  {
    var i := 0;
    assert content[0..] == content;
    while i < |content|
      invariant 0 <= i <= |content|
      invariant WellFormed(content) <==> WellFormed(content[i..])
    {
      var unit := content[i];
      var suffix := content[i..];
      if IsHigh(unit) {
        if i + 1 >= |content| { return false; }
        if !IsLow(content[i + 1]) { return false; }
        assert suffix[2..] == content[i + 2..];
        i := i + 1;
      } else if IsLow(unit) {
        return false;
      } else {
        assert suffix[1..] == content[i + 1..];
      }
      i := i + 1;
    }
    return true;
  }

  method SerializeDocument(doc: Document) returns (r: Result<Bytes, CodecError>)
    ensures r == Serialize(doc)
  {
    var k := 0;
    assert doc.lines[0..] == doc.lines;
    while k < |doc.lines|
      invariant 0 <= k <= |doc.lines|
      invariant ScanLines(doc.lines[k..]) == ScanLines(doc.lines)
    {
      assert doc.lines[k..][1..] == doc.lines[k + 1..];
      if 0 in doc.lines[k].content { return Err(NulByte); }
      var ok := ScanSurrogates(doc.lines[k].content);
      if !ok { return Err(UnpairedSurrogate); }
      k := k + 1;
    }
    return Ok(Encode(DocumentText(doc)));
  }

  function Decoded(b: Bytes): Result<Document, CodecError> {
    var bom := |b| >= 3 && b[..3] == [0xEF, 0xBB, 0xBF];
    match Decode(if bom then b[3..] else b)
    case None => Err(NotUtf8)
    case Some(text) => if 0 in text then Err(NulByte) else Ok(Document(bom, Parse(text)))
  }

  method DecodeDocument(source: Bytes) returns (r: Result<Document, CodecError>)
    ensures r == Decoded(source)
  {
    var bom := |source| >= 3 && source[..3] == [0xEF, 0xBB, 0xBF];
    var text := Decode(if bom then source[3..] else source);
    if text.None? { return Err(NotUtf8); }
    if 0 in text.value { return Err(NulByte); }
    var lines := ParseLines(text.value);
    return Ok(Document(bom, lines));
  }

  predicate Terminated(lines: seq<TextLine>) {
    forall i | 0 <= i < |lines| - 1 :: lines[i].eol != NoEol
  }

  lemma {:induction false} WellFormedSplit(a: Text, b: Text)
    requires b != [] ==> !IsLow(b[0])
    ensures WellFormed(a + b) <==> WellFormed(a) && WellFormed(b)
  {
    if a == [] {
      assert a + b == b;
    } else {
      var n := FirstUnits(a);
      assert (a + b)[n..] == a[n..] + b;
      WellFormedSplit(a[n..], b);
    }
  }

  /** The per-line scan accepts exactly the NUL-free, well-formed whole, provided no
      line but the last lacks its terminator. */
  lemma {:induction false} ScanAgreesWithWhole(lines: seq<TextLine>)
    requires Terminated(lines)
    ensures ScanLines(lines).None? <==> 0 !in Join(lines) && WellFormed(Join(lines))
  {
    if lines != [] {
      var c, e, rest := lines[0].content, EolText(lines[0].eol), Join(lines[1..]);
      ScanAgreesWithWhole(lines[1..]);
      Assoc(c, e, rest);
      assert |lines| == 1 ==> rest == [];
      EolWellFormed(lines[0].eol);
      hide WellFormed, Encode, EolText;
      assert 0 in Join(lines) <==> 0 in c || 0 in rest;
      EncodeConcat(e, rest);
      WellFormedSplit(c, e + rest);
    }
  }

  /** Line `i` is unterminated and ends in the first half of a pair whose second half
      comes next in the joined text. */
  predicate SplitsPair(lines: seq<TextLine>, i: nat)
    requires i < |lines|
  {
    var c, rest := lines[i].content, Join(lines[i + 1..]);
    lines[i].eol == NoEol && c != [] && IsHigh(c[|c| - 1]) && rest != [] && IsLow(rest[0])
  }

  predicate SplitsNone(lines: seq<TextLine>) { forall i | 0 <= i < |lines| :: !SplitsPair(lines, i) }

  lemma SplitsTail(lines: seq<TextLine>)
    requires lines != []
    ensures SplitsNone(lines) <==> !SplitsPair(lines, 0) && SplitsNone(lines[1..])
  {
    forall i | 0 <= i < |lines| - 1 ensures SplitsPair(lines, i + 1) == SplitsPair(lines[1..], i) {
      assert lines[1..][i + 1..] == lines[i + 1 + 1..];
    }
    if !SplitsPair(lines, 0) && SplitsNone(lines[1..]) {
      forall i | 0 <= i < |lines| ensures !SplitsPair(lines, i) {
        if i > 0 { assert !SplitsPair(lines[1..], i - 1); }
      }
    }
  }

  /** In a well-formed whole, a first line is malformed exactly when a pair is split behind it. */
  lemma FirstLineScan(c: Text, e: Text, rest: Text)
    requires WellFormed(c + (e + rest)) && (e != [] ==> IsBreak(e[0]) && WellFormed(e))
    ensures !WellFormed(c) <==> e == [] && c != [] && IsHigh(c[|c| - 1]) && rest != [] && IsLow(rest[0])
    ensures WellFormed(c) ==> WellFormed(rest)
  {
    hide WellFormed, Encode;
    var t := c + (e + rest);
    assert t[..|c|] == c;
    if c != [] { assert t[|c| - 1] == c[|c| - 1]; }
    PrefixWellFormed(t, |c|);
    if |c| < |t| {
      LowFollowsHigh(t, |c|);
      assert t[|c|] == (e + rest)[0];
    } else {
      assert e + rest == [] && t == c;
    }
    if WellFormed(c) {
      EncodeConcat(c, e + rest);
      if e != [] { EncodeConcat(e, rest); } else { assert e + rest == rest; }
    }
  }

  /** When the whole is well formed and free of NUL, the per-line scan accepts exactly if
      no pair is split over the end of an unterminated line. */
  lemma {:induction false} ScanAcceptsExactly(lines: seq<TextLine>)
    requires WellFormed(Join(lines)) && 0 !in Join(lines)
    ensures ScanLines(lines).None? <==> SplitsNone(lines)
  {
    if lines != [] {
      var c, e, rest := lines[0].content, EolText(lines[0].eol), Join(lines[1..]);
      EolWellFormed(lines[0].eol);
      Assoc(c, e, rest);
      assert 0 !in c && 0 !in rest by {
        assert forall u | u in c :: u in Join(lines);
        assert forall u | u in rest :: u in Join(lines);
      }
      FirstLineScan(c, e, rest);
      SplitsTail(lines);
      if WellFormed(c) { ScanAcceptsExactly(lines[1..]); }
    }
  }

  /** So the scan never accepts more than the whole, and what it refuses beyond that is
      exactly the split pairs. */
  lemma ScanExactly(lines: seq<TextLine>)
    ensures ScanLines(lines).None? <==> 0 !in Join(lines) && WellFormed(Join(lines)) && SplitsNone(lines)
  {
    hide WellFormed, ScanLines, SplitsNone;
    if ScanLines(lines).None? { ScannedJoin(lines); }
    if 0 !in Join(lines) && WellFormed(Join(lines)) { ScanAcceptsExactly(lines); }
  }

  /** Without that proviso the scan is the stricter of the two: a pair split over an
      unterminated line is refused although the joined text is well formed. */
  lemma ScanStricterWithoutTerminators()
    ensures var lines := [TextLine([0xD83D], NoEol), TextLine([0xDE00], NoEol)];
      ScanLines(lines).Some? && 0 !in Join(lines) && WellFormed(Join(lines))
  {
    var lines := [TextLine([0xD83D], NoEol), TextLine([0xDE00], NoEol)];
    assert Join(lines[1..]) == [0xDE00] by { assert lines[1..][1..] == []; }
    assert Join(lines) == [0xD83D, 0xDE00];
    assert !WellFormed(lines[0].content);
  }

  lemma {:induction false} ScannedJoin(lines: seq<TextLine>)
    requires ScanLines(lines).None?
    ensures 0 !in Join(lines) && WellFormed(Join(lines))
  {
    if lines != [] {
      var c, e, rest := lines[0].content, EolText(lines[0].eol), Join(lines[1..]);
      ScannedJoin(lines[1..]);
      EolWellFormed(lines[0].eol);
      hide WellFormed, Encode, EolText;
      EncodeConcat(e, rest);
      EncodeConcat(c, e + rest);
      Assoc(c, e, rest);
    }
  }

  lemma BomBytes(t: Text)
    ensures Encode([BOM] + t) == [0xEF, 0xBB, 0xBF] + Encode(t)
  {
    EncodeUnitsOf(BOM, t);
    assert UnitsOf(BOM) == [BOM];
    assert BytesOf(BOM) == [0xEF, 0xBB, 0xBF];
  }

  lemma FirstBytes(t: Text)
    requires t != []
    ensures |Encode(t)| >= 3 && Encode(t)[..3] == [0xEF, 0xBB, 0xBF] <==> t[0] == BOM
  {
    var p := Scalar(t);
    var e, b := BytesOf(p), Encode(t);
    assert b == e + Encode(t[FirstUnits(t)..]);
    assert forall i | 0 <= i < |e| :: b[i] == e[i];
    if p == BOM {
      assert e == [0xEF, 0xBB, 0xBF];
      assert b[..3] == e;
    } else if |b| >= 3 {
      assert b[..3][0] == b[0];
      if e[0] == 0xEF { assert b[..3][1] == b[1] && b[..3][2] == b[2]; }
    }
  }

  /** Every file that can be read is written back byte for byte. */
  lemma SerializeDecoded(b: Bytes)
    requires Decoded(b).Ok?
    ensures Serialize(Decoded(b).value) == Ok(b)
  {
    var doc := Decoded(b).value;
    var body := if doc.bom then b[3..] else b;
    var text := Decode(body).value;
    EncodeDecode(body);
    JoinParse(text);
    assert Terminated(doc.lines) by {
      forall i | 0 <= i < |doc.lines| - 1 ensures doc.lines[i].eol != NoEol { assert LineFits(doc.lines, i); }
    }
    ScanAgreesWithWhole(doc.lines);
    BomBytes(text);
    if doc.bom { assert b == b[..3] + b[3..]; }
  }

  /** A document survives being written and read again exactly when its lines are
      canonical and it does not gain a byte-order mark from its own first unit. */
  predicate Stable(doc: Document) {
    Canonical(doc.lines) && (!doc.bom ==> Join(doc.lines) == [] || Join(doc.lines)[0] != BOM)
  }

  lemma DecodedSerialize(doc: Document)
    requires Serialize(doc).Ok?
    ensures Decoded(Serialize(doc).value) == Ok(doc) <==> Stable(doc)
  {
    var t := Join(doc.lines);
    var b := Serialize(doc).value;
    ScannedJoin(doc.lines);
    BomBytes(t);
    if t != [] { FirstBytes(t); }
    ParseJoin(doc.lines);
    DecodeEncode(t);
    if doc.bom {
      assert b == [0xEF, 0xBB, 0xBF] + Encode(t);
      assert b[..3] == [0xEF, 0xBB, 0xBF] && b[3..] == Encode(t);
    }
  }
}
