/**
 The other ways to write a command: one number for one line, a colon behind a deletion, counts
 left out of a unified header, lower-case tags; and which numbers are refused.
 */
module PatchForms {
  import opened Utf
  import opened Spaces
  import opened Hunks
  import opened Unified
  import opened PatchText
  import opened PatchPrinter
  import opened UnifiedPrinter
  import Decimal

  /** A range as it may be written: both ends, or one number for a single line. */
  datatype Range = Both(first: nat, last: nat) | Single(line: nat)
  {
    function First(): nat { if Both? then first else line }

    function Last(): nat { if Both? then last else line }

    function Print(): Text { if Both? then Decimal.Digits(first) + (Ascii("..") + Decimal.Digits(last)) else Decimal.Digits(line) }

    predicate Sound() { 1 <= First() <= Last() }
  }

  lemma RangeReads(r: Range, rest: Text)
    requires rest == [] || rest[0] == 58
    ensures MatchRange(r.Print() + rest) == Some((r.First(), r.Last(), rest))
  {
    hide Decimal.Digits, MatchNumber;
    Words();
    if r.Both? {
      PrintedRange(r.first, r.last, rest);
    } else {
      PrintedNumber(r.line, rest);
      assert !(DOTS <= rest) by { assert DOTS[0] == 46; }
    }
  }

  /** Lines are replaced exactly as the range says, if it is in order and begins at 1 or later. */
  lemma ReplaceReads(r: Range)
    ensures CommandOf(Ascii("replace ") + (r.Print() + Ascii(":"))) ==
      Some(if r.Sound() then Opens(Replace(r.First(), r.Last(), [], Option.None)) else BadNumbers)
  {
    hide MatchRange, MatchUnified, Decimal.Digits;
    Words();
    var line := Ascii("replace ") + (r.Print() + Ascii(":"));
    RangeReads(r, Ascii(":"));
    assert line[|REPLACE|..] == r.Print() + Ascii(":");
    NotUnified(line);
    assert REPLACE <= line;
  }

  /** A deletion may end in a colon. */
  lemma DeleteReads(r: Range, colon: bool)
    ensures CommandOf(Ascii("delete ") + (r.Print() + if colon then Ascii(":") else [])) ==
      Some(if r.Sound() then Whole(Delete(r.First(), r.Last(), Option.None)) else BadNumbers)
  {
    hide MatchRange, MatchUnified, MatchNumber, Decimal.Digits;
    Words();
    var end := if colon then Ascii(":") else [];
    var line := Ascii("delete ") + (r.Print() + end);
    RangeReads(r, end);
    assert line[|DELETE|..] == r.Print() + end;
    NotUnified(line);
    assert DELETE <= line && line[0] == DELETE[0];
    assert !(REPLACE <= line) && !(INSERT_BEFORE <= line) && !(INSERT_AFTER <= line);
    assert line != INSERT_HEAD && line != INSERT_TAIL;
  }

  lemma InsertReads(before: bool, n: nat)
    ensures CommandOf((if before then Ascii("insert before ") else Ascii("insert after ")) + (Decimal.Digits(n) + Ascii(":"))) ==
      Some(if n >= 1 then Opens(Insert(if before then Before else After, n, [], Option.None)) else BadNumbers)
  {
    hide MatchRange, MatchUnified, MatchNumber, Decimal.Digits;
    Words();
    var word := if before then Ascii("insert before ") else Ascii("insert after ");
    var line := word + (Decimal.Digits(n) + Ascii(":"));
    PrintedNumber(n, Ascii(":"));
    assert line[|word|..] == Decimal.Digits(n) + Ascii(":");
    NotUnified(line);
    assert word <= line && line[0] == word[0] && line[7] == word[7];
    assert !(REPLACE <= line);
    assert INSERT_BEFORE[7] != INSERT_AFTER[7] && INSERT_HEAD[7] != INSERT_AFTER[7] && INSERT_TAIL[7] != INSERT_AFTER[7];
    assert INSERT_HEAD[7] != INSERT_BEFORE[7] && INSERT_TAIL[7] != INSERT_BEFORE[7];
  }

  /** A count that is left out stands for one line. */
  lemma CountLeftOut(a: nat, rest: Text)
    requires rest != [] && rest[0] == 32
    ensures MatchCount(Decimal.Digits(a) + rest) == Some((a, 1, rest))
  {
    hide Decimal.Digits, MatchNumber;
    PrintedNumber(a, rest);
    assert !(COMMA <= rest) by { assert COMMA[0] == 44; }
  }

  lemma ShortHeaderReads(a: nat, b: nat)
    ensures MatchUnified(Ascii("@@ -") + (Decimal.Digits(a) + (Ascii(" +") + (Decimal.Digits(b) + Ascii(" @@")))))
      == Some(Unified.Header(a, 1, b, 1))
  {
    hide MatchCount, Decimal.Digits;
    HeaderWords();
    var olds := Ascii(" +") + (Decimal.Digits(b) + Ascii(" @@"));
    var line := Ascii("@@ -") + (Decimal.Digits(a) + olds);
    CountLeftOut(a, olds);
    CountLeftOut(b, Ascii(" @@"));
    assert line[|UNIFIED|..] == Decimal.Digits(a) + olds;
    assert olds[|UNIFIED_NEW|..] == Decimal.Digits(b) + Ascii(" @@");
    assert Ascii(" @@")[|UNIFIED_END|..] == [];
  }

  /** Lines that only frame a patch, and blank ones, are passed over, and no others. */
  lemma SkippedExactly(raw: Text)
    ensures Classify(raw).Skipped? <==>
      exists a, v, b :: Stripped(raw, a, v, b) && (v == [] || v == Ascii("*** Begin Patch") || v == Ascii("*** End Patch"))
  {
    FrameWords();
    hide IsSpace, MatchHeader;
    var line := TrimEnd(raw);
    var b := TrimEndIs(raw);
    var a, v, b' := TrimIs(line);
    assert raw == a + v + (b' + b);
    assert Stripped(raw, a, v, b' + b);
    forall x, y, z | Stripped(raw, x, y, z) ensures y == v {
      TrimOf(raw, x, y, z);
      TrimOf(raw, a, v, b' + b);
    }
  }

  lemma FrameWords()
    ensures BEGIN_PATCH == Ascii("*** Begin Patch") && END_PATCH == Ascii("*** End Patch")
  {
  }

  predicate AnyTag(t: Text) { |t| == 64 && forall u | u in t :: 48 <= u <= 57 || 65 <= u <= 70 || 97 <= u <= 102 }

  /** The tag as the digests are written. */
  function InUpperCase(t: Text): (r: Text)
    ensures |r| == |t|
  {
    seq(|t|, i requires 0 <= i < |t| => if 97 <= t[i] <= 102 then t[i] - 32 else t[i])
  }

  lemma HeaderReads(path: Text, tag: Text)
    requires IsPath(path) && AnyTag(tag)
    ensures Classify(PrintHeader(path, tag)) == Heads(path, InUpperCase(tag))
  {
    var line := PrintHeader(path, tag);
    Words();
    PlainLine(line);
    hide Classify, TrimEnd, IsSkipped;
    HeaderSplits(path, tag);
    UpperIs(tag);
    AsHead(line);
  }

  /** A line is a section's header exactly when it has this shape. */
  lemma HeadersExactly(line: Text)
    ensures MatchHeader(line).Some? <==> exists path, tag :: IsHeader(line, path, tag)
  {
    hide MatchHeader, IsHeader;
    if MatchHeader(line).Some? { var path, tag := HeaderParts(line); }
    if path, tag :| IsHeader(line, path, tag) { HeaderMatched(line, path, tag); }
  }

  predicate IsHeader(line: Text, path: Text, tag: Text) {
    path != [] && 35 !in path && 93 !in path && AnyTag(tag) && line == Ascii("[") + path + Ascii("#") + tag + Ascii("]")
  }

  lemma HeaderParts(line: Text) returns (path: Text, tag: Text)
    requires MatchHeader(line).Some?
    ensures IsHeader(line, path, tag)
  {
    var i := IndexOf(line, HASH);
    path, tag := line[1..i], line[i + 1..i + 65];
    FiveParts(line, i);
    Brackets();
    NotBefore(line, i);
    assert |tag| == 64;
    forall u | u in tag ensures IsHex(u) {}
    assert forall u | u in tag :: IsHex(u) && (48 <= u <= 57 || 65 <= u <= 70 || 97 <= u <= 102);
    assert AnyTag(tag);
    hide IndexOf, Upper, AnyTag, Ascii;
  }

  lemma NotBefore(line: Text, i: nat)
    requires 1 <= i <= |line| && forall k | 0 <= k < i :: line[k] != 35
    ensures 35 !in line[1..i]
  {
    forall k | 0 <= k < i - 1 ensures line[1..i][k] != 35 { assert line[1..i][k] == line[k + 1]; }
  }

  lemma Brackets()
    ensures Ascii("[") == [91] && Ascii("#") == [35] && Ascii("]") == [93]
  {
  }

  lemma FiveParts(line: Text, i: nat)
    requires 1 <= i && |line| == i + 66
    ensures line == [line[0]] + line[1..i] + [line[i]] + line[i + 1..i + 65] + [line[i + 65]]
  {
  }

  lemma HeaderMatched(line: Text, path: Text, tag: Text)
    requires IsHeader(line, path, tag)
    ensures MatchHeader(line).Some?
  {
    hide IndexOf, Upper;
    FirstHash(line, path, tag);
    var i := 1 + |path|;
    assert line[1..i] == path && line[i + 1..i + 65] == tag;
  }

  lemma FirstHash(line: Text, path: Text, tag: Text)
    requires 35 !in path && line == Ascii("[") + path + Ascii("#") + tag + Ascii("]")
    ensures IndexOf(line, HASH) == 1 + |path|
  {
    hide IndexOf;
    assert line[1 + |path|] == 35;
    forall i | 0 <= i < 1 + |path| ensures line[i] != 35 {
      if i > 0 { assert line[i] == path[i - 1] && path[i - 1] in path; }
    }
  }

  lemma AsHead(line: Text)
    requires TrimEnd(line) == line && !IsSkipped(line) && line != [] && line[0] != 43
    ensures MatchHeader(line).Some? ==> Classify(line) == Heads(MatchHeader(line).value.0, MatchHeader(line).value.1)
  {
  }

  lemma HeaderSplits(path: Text, tag: Text)
    requires IsPath(path) && AnyTag(tag)
    ensures MatchHeader(PrintHeader(path, tag)) == Some((path, Upper(tag)))
  {
    hide IndexOf, Upper;
    Words();
    var line := PrintHeader(path, tag);
    IndexBehind([PatchText.OPEN] + path, HASH, tag + [CLOSE]);
    var i := 1 + |path|;
    assert line[1..i] == path;
    assert line[i + 1..i + 65] == tag;
  }

  lemma UpperIs(tag: Text)
    requires AnyTag(tag)
    ensures Upper(tag) == InUpperCase(tag)
  {
    forall i | 0 <= i < |tag| ensures Upper(tag)[i] == InUpperCase(tag)[i] { assert tag[i] in tag; }
  }
}
