/**
 Reading a goal page by page. The inspection text is JSON, in which lone surrogates
 are escaped, so it is well formed; a cursor names the goal's revision, the section
 and an offset into that text.
 */
module Paging {
  import opened Utf
  import opened Truncation

  datatype Cursor = Cursor(revision: Text, section: Text, offset: nat)

  datatype Page = Page(text: Text, next: Option<Cursor>)

  datatype PageError = Stale | OutOfRange | SplitsCharacter

  datatype PageResult = Shown(page: Page) | Refused(error: PageError)

  const PAGE_LIMIT: int := 4096

  function Limit(maxBytes: int): (n: nat)
    ensures n == if maxBytes < 1 then 1 else if maxBytes > 4096 then 4096 else maxBytes
  {
    var m := if maxBytes < PAGE_LIMIT then maxBytes else PAGE_LIMIT;
    if m < 1 then 1 else m
  }

  predicate Splits(full: Text, offset: nat) {
    0 < offset < |full| && IsLow(full[offset]) && IsHigh(full[offset - 1])
  }

  /** The longest run of whole code points from the start that fits. */
  function Fit(t: Text, max: nat): (p: Text)
    ensures p <= t
  {
    if t == [] then []
    else
      var k, size := FirstUnits(t), |BytesOf(Scalar(t))|;
      if size > max then []
      else
        assert t[..k] + t[k..] == t;
        t[..k] + Fit(t[k..], max - size)
  }

  lemma {:induction false} FitIsLongest(t: Text, max: nat)
    requires WellFormed(t)
    ensures LongestFit(t, max, Fit(t, max))
  {
    hide BytesOf, Scalar;
    if t != [] {
      var k, size := FirstUnits(t), |BytesOf(Scalar(t))|;
      if size > max {
        forall n | 0 < n <= |t| && WellFormed(t[..n]) ensures ByteLength(t[..n]) > max { WholePoints(t, n); }
      } else {
        var rest, p := t[k..], Fit(t, max);
        FitIsLongest(rest, max - size);
        assert p == t[..|p|] && p[k..] == Fit(rest, max - size) == rest[..|p| - k];
        HeadSplits(t, k, |p|);
        forall n | |p| < n <= |t| && WellFormed(t[..n]) ensures ByteLength(t[..n]) > max { WholePoints(t, n); }
      }
    }
  }

  lemma WholePoints(t: Text, n: nat)
    requires WellFormed(t) && 0 < n <= |t| && WellFormed(t[..n])
    ensures FirstUnits(t) <= n && WellFormed(t[FirstUnits(t)..][..n - FirstUnits(t)])
    ensures ByteLength(t[..n]) == |BytesOf(Scalar(t))| + ByteLength(t[FirstUnits(t)..][..n - FirstUnits(t)])
  {
    PrefixWellFormed(t, n);
    HeadSplits(t, FirstUnits(t), n);
  }

  function Inspect(full: Text, revision: Text, section: Text, cursor: Option<Cursor>, maxBytes: int): PageResult {
    if cursor.Some? && (cursor.value.revision != revision || cursor.value.section != section) then Refused(Stale)
    else
      var offset := if cursor.Some? then cursor.value.offset else 0;
      if offset > |full| then Refused(OutOfRange)
      else if Splits(full, offset) then Refused(SplitsCharacter)
      else
        var text := Fit(full[offset..], Limit(maxBytes));
        var next := offset + |text|;
        Shown(Page(text, if next < |full| then Some(Cursor(revision, section, next)) else None))
  }

  lemma FromHere(full: Text, offset: nat)
    requires WellFormed(full) && offset <= |full| && !Splits(full, offset)
    ensures WellFormed(full[offset..]) && WellFormed(full[..offset])
  {
    if offset > 0 {
      PrefixWellFormed(full, offset);
      if offset < |full| { LowFollowsHigh(full, offset); } else { assert full[..offset] == full; }
    }
  }

  method InspectGoal(full: Text, revision: Text, section: Text, cursor: Option<Cursor>, maxBytes: int) returns (r: PageResult)
    requires WellFormed(full)
    ensures r == Inspect(full, revision, section, cursor, maxBytes)
  {
    hide WellFormed, Fit, Cut, Limit, Splits, LongestFit;
    var offset := 0;
    if cursor.Some? {
      if cursor.value.revision != revision || cursor.value.section != section { return Refused(Stale); }
      offset := cursor.value.offset;
    }
    if offset > |full| { return Refused(OutOfRange); }
    if Splits(full, offset) { return Refused(SplitsCharacter); }
    FromHere(full, offset);
    var text := TruncateByUnits(full[offset..], Limit(maxBytes));
    FitIsLongest(full[offset..], Limit(maxBytes));
    LongestFitIsUnique(full[offset..], Limit(maxBytes), text, Fit(full[offset..], Limit(maxBytes)));
    var next := offset + |text|;
    r := Shown(Page(text, if next < |full| then Some(Cursor(revision, section, next)) else None));
  }

  // ---- Progress ------------------------------------------------------------------------

  /** A page moves on exactly when the next code point fits on it. */
  lemma PageAdvances(full: Text, offset: nat, limit: nat)
    requires offset < |full|
    ensures |Fit(full[offset..], limit)| > 0 <==> |BytesOf(Scalar(full[offset..]))| <= limit
  {
  }

  /** When it does not fit, every request with the returned cursor returns it again. */
  lemma StuckPage(full: Text, revision: Text, section: Text, offset: nat, maxBytes: int)
    requires offset < |full| && !Splits(full, offset) && |BytesOf(Scalar(full[offset..]))| > Limit(maxBytes)
    ensures var c := Cursor(revision, section, offset);
      Inspect(full, revision, section, Some(c), maxBytes) == Shown(Page([], Some(c)))
  {
  }

  /** Each code point fits on a page of its own. */
  predicate Roomy(full: Text, limit: nat) {
    full == [] || (|BytesOf(Scalar(full))| <= limit && Roomy(full[FirstUnits(full)..], limit))
  }

  /** No code point needs more than four bytes, so four are always enough. */
  lemma {:induction false} FourIsRoomy(full: Text, limit: nat)
    requires limit >= 4
    ensures Roomy(full, limit)
  {
    if full != [] { FourIsRoomy(full[FirstUnits(full)..], limit); }
  }

  lemma {:induction false} RestIsRoomy(full: Text, limit: nat, offset: nat)
    requires WellFormed(full) && Roomy(full, limit) && offset <= |full| && WellFormed(full[..offset])
    ensures Roomy(full[offset..], limit)
  {
    if offset == 0 {
      assert full[0..] == full;
    } else {
      var k := FirstUnits(full);
      WholePoints(full, offset);
      RestIsRoomy(full[k..], limit, offset - k);
      assert full[k..][offset - k..] == full[offset..];
    }
  }

  // ---- Following the cursors ------------------------------------------------------------

  /** The texts of the pages from an offset on, each request using the cursor before it. */
  ghost predicate IsReading(full: Text, revision: Text, section: Text, offset: nat, maxBytes: int, texts: seq<Text>)
    decreases |texts|
  {
    if texts == [] then false
    else
      var r := Inspect(full, revision, section, CursorAt(revision, section, offset), maxBytes);
      && r.Shown? && r.page.text == texts[0]
      && match r.page.next
         case None => |texts| == 1
         case Some(c) =>
           && c.revision == revision && c.section == section && c.offset == offset + |texts[0]|
           && IsReading(full, revision, section, c.offset, maxBytes, texts[1..])
  }

  function Concat(texts: seq<Text>): Text {
    if texts == [] then [] else texts[0] + Concat(texts[1..])
  }

  function CursorAt(revision: Text, section: Text, offset: nat): Option<Cursor> {
    if offset == 0 then None else Some(Cursor(revision, section, offset))
  }

  /** The text of one page from a whole-code-point offset. */
  lemma PageText(full: Text, offset: nat, limit: nat)
    requires WellFormed(full) && Roomy(full, limit) && offset <= |full| && WellFormed(full[..offset])
    ensures var text := Fit(full[offset..], limit);
      && WellFormed(text) && ByteLength(text) <= limit
      && offset + |text| <= |full| && WellFormed(full[..offset + |text|])
      && (offset < |full| ==> |text| > 0)
      && full[offset..] == text + full[offset + |text|..]
  {
    hide WellFormed, Encode, BytesOf, Scalar, Fit, Roomy;
    NotSplit(full, offset);
    FromHere(full, offset);
    FitIsLongest(full[offset..], limit);
    RestIsRoomy(full, limit, offset);
    if offset < |full| {
      RoomyStart(full[offset..], limit);
      PageAdvances(full, offset, limit);
    }
    var text := Fit(full[offset..], limit);
    assert full[..offset + |text|] == full[..offset] + text;
    EncodeConcat(full[..offset], text);
  }

  lemma RoomyStart(t: Text, limit: nat)
    requires t != [] && Roomy(t, limit)
    ensures |BytesOf(Scalar(t))| <= limit
  {
  }

  lemma OnePage(full: Text, revision: Text, section: Text, offset: nat, maxBytes: int)
    requires WellFormed(full) && Roomy(full, Limit(maxBytes)) && offset <= |full| && WellFormed(full[..offset])
    ensures var text := Fit(full[offset..], Limit(maxBytes));
      && WellFormed(text) && ByteLength(text) <= Limit(maxBytes)
      && offset + |text| <= |full| && WellFormed(full[..offset + |text|])
      && (offset < |full| ==> |text| > 0)
      && full[offset..] == text + full[offset + |text|..]
      && Inspect(full, revision, section, CursorAt(revision, section, offset), maxBytes) ==
         Shown(Page(text, if offset + |text| < |full| then Some(Cursor(revision, section, offset + |text|)) else None))
  {
    hide WellFormed, ByteLength, Fit, Roomy, Limit, Splits;
    NotSplit(full, offset);
    PageText(full, offset, Limit(maxBytes));
  }

  /** Whenever every code point fits on a page, following the cursors ends, never meets an
      error, and the pages put together are the whole text. */
  lemma {:induction false} ReadingIsLossless(full: Text, revision: Text, section: Text, offset: nat, maxBytes: int)
    returns (texts: seq<Text>)
    requires WellFormed(full) && Roomy(full, Limit(maxBytes)) && offset <= |full| && WellFormed(full[..offset])
    ensures IsReading(full, revision, section, offset, maxBytes, texts)
    ensures Concat(texts) == full[offset..]
    ensures forall p | p in texts :: WellFormed(p) && ByteLength(p) <= Limit(maxBytes)
    decreases |full| - offset
  {
    hide WellFormed, Encode, ByteLength, Fit, Roomy, Limit, Inspect;
    OnePage(full, revision, section, offset, maxBytes);
    var text := Fit(full[offset..], Limit(maxBytes));
    var next := offset + |text|;
    if next < |full| {
      var rest := ReadingIsLossless(full, revision, section, next, maxBytes);
      texts := [text] + rest;
      assert texts[1..] == rest;
    } else {
      texts := [text];
      assert Concat(texts) == text + Concat([]);
      assert text == full[offset..];
    }
  }

  lemma NotSplit(full: Text, offset: nat)
    requires WellFormed(full) && offset <= |full| && WellFormed(full[..offset])
    ensures !Splits(full, offset)
  {
    PrefixWellFormed(full, offset);
  }

  lemma {:induction false} FitIsRoomy(t: Text, max: nat, limit: nat)
    requires max <= limit && Roomy(t[|Fit(t, max)|..], limit)
    ensures Roomy(t, limit)
  {
    hide BytesOf, Scalar;
    if t != [] {
      var k, size := FirstUnits(t), |BytesOf(Scalar(t))|;
      if size <= max {
        assert t[k..][|Fit(t[k..], max - size)|..] == t[|Fit(t, max)|..];
        FitIsRoomy(t[k..], max - size, limit);
      } else {
        assert t[0..] == t;
      }
    }
  }

  /** Only such texts can be read to their end. */
  lemma {:induction false} OnlyRoomyTextsAreRead(full: Text, revision: Text, section: Text, offset: nat, maxBytes: int, texts: seq<Text>)
    requires offset <= |full| && IsReading(full, revision, section, offset, maxBytes, texts)
    ensures Roomy(full[offset..], Limit(maxBytes))
    decreases |texts|
  {
    hide Fit, BytesOf, Scalar, Limit;
    var text := Fit(full[offset..], Limit(maxBytes));
    var next := offset + |text|;
    if next < |full| {
      OnlyRoomyTextsAreRead(full, revision, section, next, maxBytes, texts[1..]);
    }
    assert full[offset..][|text|..] == full[next..];
    FitIsRoomy(full[offset..], Limit(maxBytes), Limit(maxBytes));
  }

  /** A section can be read to its end exactly when each code point fits on a page. */
  lemma ReadableExactly(full: Text, revision: Text, section: Text, maxBytes: int)
    requires WellFormed(full)
    ensures (exists texts :: IsReading(full, revision, section, 0, maxBytes, texts)) <==> Roomy(full, Limit(maxBytes))
  {
    assert full[..0] == [] && full[0..] == full;
    if Roomy(full, Limit(maxBytes)) {
      var texts := ReadingIsLossless(full, revision, section, 0, maxBytes);
    }
    if exists texts :: IsReading(full, revision, section, 0, maxBytes, texts) {
      var texts :| IsReading(full, revision, section, 0, maxBytes, texts);
      OnlyRoomyTextsAreRead(full, revision, section, 0, maxBytes, texts);
    }
  }

  /** With at least four bytes a page, reading from the start always succeeds. */
  lemma PagingIsLossless(full: Text, revision: Text, section: Text, maxBytes: int) returns (texts: seq<Text>)
    requires WellFormed(full) && maxBytes >= 4
    ensures IsReading(full, revision, section, 0, maxBytes, texts) && Concat(texts) == full
    ensures forall p | p in texts :: WellFormed(p) && ByteLength(p) <= maxBytes && ByteLength(p) <= 4096
  {
    FourIsRoomy(full, Limit(maxBytes));
    assert full[..0] == [] && full[0..] == full;
    texts := ReadingIsLossless(full, revision, section, 0, maxBytes);
  }
}
