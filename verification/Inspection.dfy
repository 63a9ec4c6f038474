/**
 Goal inspection as its callers see it: only an active goal, a section by its name, and
 cursors that are texts. A cursor is read back as what it was written for, so following
 the texts is following the pages.
 */
module Inspection {
  import opened Utf
  import Decimal
  import opened Paging
  import Goals
  import Authority

  datatype Section = All | Criteria | Constraints | Evidence | Risks | Deferred

  datatype InspectError = NotActive | InvalidSection | BadCursor | OffRange | Splitting

  /** A page with the text of the next cursor. */
  datatype InspectResult = Given(text: Text, next: Option<Text>) | Failed(error: InspectError)

  const PREFIX: Text := Ascii("v2:")
  const COLON: Unit := 58

  function NameOf(s: Section): Text {
    match s
    case All => Ascii("all")
    case Criteria => Ascii("criteria")
    case Constraints => Ascii("constraints")
    case Evidence => Ascii("evidence")
    case Risks => Ascii("risks")
    case Deferred => Ascii("deferred")
  }

  function SectionNamed(name: Text): (r: Option<Section>)
    ensures r.Some? ==> NameOf(r.value) == name
  {
    if name == NameOf(All) then Some(All)
    else if name == NameOf(Criteria) then Some(Criteria)
    else if name == NameOf(Constraints) then Some(Constraints)
    else if name == NameOf(Evidence) then Some(Evidence)
    else if name == NameOf(Risks) then Some(Risks)
    else if name == NameOf(Deferred) then Some(Deferred)
    else None
  }

  // ---- Cursors as texts --------------------------------------------------------------------

  function CursorOf(revision: Text, section: Text, digits: Text): Text {
    PREFIX + revision + [COLON] + section + [COLON] + digits
  }

  function CursorText(c: Cursor): Text { CursorOf(c.revision, c.section, Decimal.Digits(c.offset)) }

  /** The place of the first colon, or the length of a text without one. */
  function FirstColon(t: Text): (n: nat)
    ensures n <= |t| && (n < |t| ==> t[n] == COLON) && forall i | 0 <= i < n :: t[i] != COLON
  {
    if t == [] || t[0] == COLON then 0 else 1 + FirstColon(t[1..])
  }

  /** What the pattern for cursors matches: 64 hexadecimal digits, a section and an offset. */
  function ReadCursor(t: Text): Option<Cursor> {
    if |t| < 68 || t[..3] != PREFIX || !Authority.IsHash(t[3..67]) || t[67] != COLON then None
    else
      var rest := t[68..];
      var n := FirstColon(rest);
      if n == |rest| || SectionNamed(rest[..n]).None? || rest[n + 1..] == [] || !Decimal.AllDigits(rest[n + 1..]) then None
      else Some(Cursor(t[3..67], rest[..n], Decimal.Value(rest[n + 1..])))
  }

  lemma NoColonInNames(s: Section)
    ensures COLON !in NameOf(s)
  {
  }

  lemma {:induction false} ColonBehind(name: Text, digits: Text)
    requires COLON !in name
    ensures FirstColon(name + [COLON] + digits) == |name|
  {
    var t := name + [COLON] + digits;
    if name != [] {
      assert t[0] == name[0] && t[1..] == name[1..] + [COLON] + digits;
      ColonBehind(name[1..], digits);
    }
  }

  lemma CursorParts(revision: Text, section: Text, digits: Text)
    requires |revision| == 64
    ensures var t := CursorOf(revision, section, digits);
      |t| >= 68 && t[..3] == PREFIX && t[3..67] == revision && t[67] == COLON && t[68..] == section + [COLON] + digits
  {
  }

  /** The pattern matches exactly the texts made of a prefix, a digest, the name of a section
      and digits, leading zeros included. */
  lemma CursorsExactly(t: Text, c: Cursor)
    ensures ReadCursor(t) == Some(c) <==>
      && Authority.IsHash(c.revision) && SectionNamed(c.section).Some?
      && exists digits | digits != [] && Decimal.AllDigits(digits) && Decimal.Value(digits) == c.offset :: t == CursorOf(c.revision, c.section, digits)
  {
    hide Authority.IsHash, SectionNamed, Decimal.AllDigits, Decimal.Value;
    if ReadCursor(t) == Some(c) {
      var rest := t[68..];
      var n := FirstColon(rest);
      var digits := rest[n + 1..];
      assert t == CursorOf(c.revision, c.section, digits);
    }
    if Authority.IsHash(c.revision) && SectionNamed(c.section).Some? &&
       exists digits | digits != [] && Decimal.AllDigits(digits) && Decimal.Value(digits) == c.offset :: t == CursorOf(c.revision, c.section, digits) {
      var digits :| digits != [] && Decimal.AllDigits(digits) && Decimal.Value(digits) == c.offset && t == CursorOf(c.revision, c.section, digits);
      WrittenIsRead(c, digits);
    }
  }

  lemma WrittenIsRead(c: Cursor, digits: Text)
    requires Authority.IsHash(c.revision) && SectionNamed(c.section).Some?
    requires digits != [] && Decimal.AllDigits(digits) && Decimal.Value(digits) == c.offset
    ensures ReadCursor(CursorOf(c.revision, c.section, digits)) == Some(c)
  {
    HashLength(c.revision);
    hide Authority.IsHash, Decimal.AllDigits, Decimal.Value;
    NoColonInNames(SectionNamed(c.section).value);
    hide SectionNamed, NameOf;
    CursorParts(c.revision, c.section, digits);
    ColonBehind(c.section, digits);
    var rest := c.section + [COLON] + digits;
    assert rest[..|c.section|] == c.section && rest[|c.section| + 1..] == digits;
  }

  lemma HashLength(t: Text)
    requires Authority.IsHash(t)
    ensures |t| == 64
  {
  }

  /** Every cursor a page hands out reads back as itself. */
  lemma CursorRoundTrip(c: Cursor)
    requires Authority.IsHash(c.revision) && SectionNamed(c.section).Some?
    ensures ReadCursor(CursorText(c)) == Some(c)
  {
    Decimal.ValueOfDigits(c.offset);
    WrittenIsRead(c, Decimal.Digits(c.offset));
  }

  // ---- One request -------------------------------------------------------------------------

  function Answered(r: PageResult): InspectResult {
    match r
    case Shown(page) => Given(page.text, if page.next.Some? then Some(CursorText(page.next.value)) else None)
    case Refused(Stale) => Failed(BadCursor)
    case Refused(OutOfRange) => Failed(OffRange)
    case Refused(SplitsCharacter) => Failed(Splitting)
  }

  /** An empty cursor is none; one that does not match is as bad as a stale one. */
  function Inspected(status: Goals.Status, revision: Text, texts: Section -> Text, section: Text, cursor: Text, maxBytes: int): InspectResult {
    if !status.Active? then Failed(NotActive)
    else
      match SectionNamed(section)
      case None => Failed(InvalidSection)
      case Some(s) =>
        if cursor == [] then Answered(Inspect(texts(s), revision, section, None, maxBytes))
        else if ReadCursor(cursor).None? then Failed(BadCursor)
        else Answered(Inspect(texts(s), revision, section, ReadCursor(cursor), maxBytes))
  }

  method InspectGoalText(status: Goals.Status, revision: Text, texts: Section -> Text, section: Text, cursor: Text, maxBytes: int)
    returns (r: InspectResult)
    requires forall s :: WellFormed(texts(s))
    ensures r == Inspected(status, revision, texts, section, cursor, maxBytes)
  {
    hide Inspect, ReadCursor, WellFormed;
    if !status.Active? { return Failed(NotActive); }
    var s := SectionNamed(section);
    if s.None? { return Failed(InvalidSection); }
    var c: Option<Cursor> := None;
    if cursor != [] {
      c := ReadCursor(cursor);
      if c.None? { return Failed(BadCursor); }
    }
    var page := InspectGoal(texts(s.value), revision, section, c, maxBytes);
    r := Answered(page);
  }

  /** A cursor handed out for one revision and section is refused for every other. */
  lemma CursorBelongs(status: Goals.Status, revision: Text, texts: Section -> Text, section: Text, c: Cursor, maxBytes: int)
    requires status.Active? && SectionNamed(section).Some?
    requires Authority.IsHash(c.revision) && SectionNamed(c.section).Some?
    ensures Inspected(status, revision, texts, section, CursorText(c), maxBytes) == Failed(BadCursor) <==>
      c.revision != revision || c.section != section
  {
    hide SectionNamed, Authority.IsHash, Fit, Limit, Splits, ReadCursor;
    CursorRoundTrip(c);
  }

  // ---- Following the texts -----------------------------------------------------------------

  /** The texts of the pages from a cursor on, each request using the cursor before it. */
  ghost predicate IsTextReading(revision: Text, texts: Section -> Text, section: Text, cursor: Text, maxBytes: int, pages: seq<Text>)
    decreases |pages|
  {
    if pages == [] then false
    else
      var r := Inspected(Goals.Active, revision, texts, section, cursor, maxBytes);
      && r.Given? && r.text == pages[0]
      && match r.next
         case None => |pages| == 1
         case Some(next) => IsTextReading(revision, texts, section, next, maxBytes, pages[1..])
  }

  /** A text that stands for an offset; the empty one for the start. */
  predicate StandsFor(cursor: Text, revision: Text, s: Section, offset: nat) {
    cursor == CursorText(Cursor(revision, NameOf(s), offset)) || (cursor == [] && offset == 0)
  }

  lemma NamedItself(s: Section)
    ensures SectionNamed(NameOf(s)) == Some(s)
  {
    assert |NameOf(s)| > 0;
    assert NameOf(s)[0] == match s { case All => 97 case Criteria => 99 case Constraints => 99 case Evidence => 101 case Risks => 114 case Deferred => 100 };
    assert s.Criteria? ==> NameOf(s)[1] == 114;
    assert s.Constraints? ==> NameOf(s)[1] == 111;
  }

  lemma SameRequest(revision: Text, texts: Section -> Text, s: Section, cursor: Text, offset: nat, maxBytes: int)
    requires Authority.IsHash(revision) && StandsFor(cursor, revision, s, offset)
    ensures Inspected(Goals.Active, revision, texts, NameOf(s), cursor, maxBytes)
      == Answered(Inspect(texts(s), revision, NameOf(s), CursorAt(revision, NameOf(s), offset), maxBytes))
  {
    hide Fit, Limit, Splits, ReadCursor, NameOf, SectionNamed, Authority.IsHash;
    NamedItself(s);
    CursorRoundTrip(Cursor(revision, NameOf(s), offset));
    assert CursorText(Cursor(revision, NameOf(s), offset)) != [];
  }

  /** Following the texts is following the cursors they stand for. */
  lemma {:induction false} TextsAreCursors(
    revision: Text, texts: Section -> Text, s: Section, cursor: Text, offset: nat, maxBytes: int, pages: seq<Text>)
    requires Authority.IsHash(revision) && StandsFor(cursor, revision, s, offset)
    ensures IsTextReading(revision, texts, NameOf(s), cursor, maxBytes, pages)
      <==> IsReading(texts(s), revision, NameOf(s), offset, maxBytes, pages)
    decreases |pages|
  {
    hide Fit, Limit, Splits, NameOf, Authority.IsHash, CursorText, Inspected;
    if pages != [] {
      SameRequest(revision, texts, s, cursor, offset, maxBytes);
      var r := Inspect(texts(s), revision, NameOf(s), CursorAt(revision, NameOf(s), offset), maxBytes);
      if r.Shown? && r.page.next.Some? {
        var c := r.page.next.value;
        assert c == Cursor(revision, NameOf(s), offset + |r.page.text|);
        TextsAreCursors(revision, texts, s, CursorText(c), c.offset, maxBytes, pages[1..]);
      }
    }
  }

  /** An active goal's section can be read to its end by handing back the cursors exactly when
      each code point fits on a page; then the pages put together are the whole text. */
  lemma SectionReadableExactly(revision: Text, texts: Section -> Text, s: Section, maxBytes: int)
    requires Authority.IsHash(revision) && WellFormed(texts(s))
    ensures (exists pages :: IsTextReading(revision, texts, NameOf(s), [], maxBytes, pages)) <==> Roomy(texts(s), Limit(maxBytes))
    ensures forall pages | IsTextReading(revision, texts, NameOf(s), [], maxBytes, pages) :: Concat(pages) == texts(s)
  {
    hide Fit, Limit, Splits, NameOf, Authority.IsHash, Inspect, Inspected, Concat;
    var full, name := texts(s), NameOf(s);
    assert full[0..] == full && full[..0] == [];
    if Roomy(full, Limit(maxBytes)) {
      var pages := ReadingIsLossless(full, revision, name, 0, maxBytes);
      TextsAreCursors(revision, texts, s, [], 0, maxBytes, pages);
    }
    forall pages | IsTextReading(revision, texts, name, [], maxBytes, pages)
      ensures Concat(pages) == full && Roomy(full, Limit(maxBytes))
    {
      TextsAreCursors(revision, texts, s, [], 0, maxBytes, pages);
      OneReading(full, revision, name, 0, maxBytes, pages);
      OnlyRoomyTextsAreRead(full, revision, name, 0, maxBytes, pages);
    }
  }

  /** Any reading puts together what is left of the text. */
  lemma {:induction false} OneReading(full: Text, revision: Text, section: Text, offset: nat, maxBytes: int, pages: seq<Text>)
    requires offset <= |full| && IsReading(full, revision, section, offset, maxBytes, pages)
    ensures Concat(pages) == full[offset..]
    decreases |pages|
  {
    hide Fit, Limit, IsReading;
    var next := ReadFirst(full, revision, section, offset, maxBytes, pages);
    if next < |full| { OneReading(full, revision, section, next, maxBytes, pages[1..]); }
  }

  lemma ReadFirst(full: Text, revision: Text, section: Text, offset: nat, maxBytes: int, pages: seq<Text>) returns (next: nat)
    requires offset <= |full| && IsReading(full, revision, section, offset, maxBytes, pages)
    ensures pages != [] && next <= |full| && full[offset..] == pages[0] + full[next..]
    ensures if next < |full| then IsReading(full, revision, section, next, maxBytes, pages[1..]) else pages[1..] == [] && full[next..] == []
  {
    hide Limit, Splits, Fit;
    var text := Fit(full[offset..], Limit(maxBytes));
    next := offset + |text|;
    assert full[offset..][|text|..] == full[next..];
  }
}
