/**
 Squeezing the sections of a context into a number of characters, in a fixed order of
 importance, with a marker that names what was left out.
 */
module Preserve {
  import opened Basics
  import opened Utf
  import opened Reservations

  const KEYS: seq<Text> :=
    [Ascii("objective"), Ascii("constraints"), Ascii("active_state"), Ascii("evidence"), Ascii("next_action"), Ascii("optional")]

  const OPTIONAL: nat := 5
  const COLON: Text := Ascii(": ")
  const NEWLINE: Text := [10]
  const MARKER_HEAD: Text := Ascii("...[truncated; retrieve omitted context: ")
  const MARKER_TAIL: Text := Ascii("]")

  /** A section by its place in the order of preservation, with its line. */
  datatype Entry = Entry(key: nat, line: Text)

  function Join(ts: seq<Text>, separator: Text): Text {
    if ts == [] then []
    else if |ts| == 1 then ts[0]
    else Join(ts[..|ts| - 1], separator) + separator + ts[|ts| - 1]
  }

  function LineOf(key: nat, section: Text): Text
    requires key < |KEYS|
  {
    KEYS[key] + COLON + section
  }

  /** The sections that say something, from the `from`th on. */
  function Entries(sections: seq<Text>, from: nat): (r: seq<Entry>)
    requires |sections| == |KEYS| && from <= |KEYS|
    ensures forall e | e in r :: from <= e.key < |KEYS| && sections[e.key] != [] && e.line == LineOf(e.key, sections[e.key])
    ensures forall i, j | 0 <= i < j < |r| :: r[i].key < r[j].key
    decreases |KEYS| - from
  {
    if from == |KEYS| then []
    else (if sections[from] == [] then [] else [Entry(from, LineOf(from, sections[from]))]) + Entries(sections, from + 1)
  }

  /** All supplied sections in full, one line each, in order. */
  function Lines(es: seq<Entry>): (r: seq<Text>)
    ensures |r| == |es|
    ensures forall i | 0 <= i < |es| :: r[i] == es[i].line
  {
    seq(|es|, i requires 0 <= i < |es| => es[i].line)
  }

  function Cap(maxChars: Num): nat { if maxChars.Finite? && maxChars.value > 0.0 then maxChars.value.Floor else 0 }

  function Marker(omitted: seq<Text>): Text { MARKER_HEAD + Join(omitted, Ascii(",")) + MARKER_TAIL }

  const MARKER_FLOOR: nat := |Ascii("...[truncated; retrieve omitted context: x]")|

  /** The room for content: the shortest marker and its line break are set aside first. */
  function ContentCap(cap: nat): nat { if cap > MARKER_FLOOR + 1 then cap - MARKER_FLOOR - 1 else 0 }

  /** What precedes the first ": "; a line cut before it is taken whole. */
  function KeyOf(line: Text): (k: Text)
    ensures k <= line
  {
    if COLON <= line then []
    else if line == [] then []
    else [line[0]] + KeyOf(line[1..])
  }

  /** The length of the lines with a line break behind each. */
  function Used(ts: seq<Text>): nat {
    if ts == [] then 0 else Used(ts[..|ts| - 1]) + |ts[|ts| - 1]| + 1
  }

  lemma {:induction false} JoinLength(ts: seq<Text>)
    ensures ts != [] ==> |Join(ts, NEWLINE)| + 1 == Used(ts)
  {
    if |ts| > 1 {
      JoinLength(ts[..|ts| - 1]);
    } else if |ts| == 1 {
      assert ts[..0] == [];
    }
  }

  /** Whether everything fits in the room for content. */
  predicate AllFit(es: seq<Entry>, cap: nat) { es == [] || |Join(Lines(es), NEWLINE)| <= ContentCap(cap) }

  /** Entries in order of importance, each on a line that begins with its name. */
  predicate Ordered(es: seq<Entry>) {
    && (forall e | e in es :: e.key < |KEYS| && KEYS[e.key] + COLON <= e.line)
    && (forall i, j | 0 <= i < j < |es| :: es[i].key < es[j].key)
  }

  // ---- The two passes ----------------------------------------------------------------------

  /** Lines that stand in the text so far, and names for the marker. */
  datatype Choice = Choice(lines: seq<Text>, omitted: seq<Text>)

  /** Takes lines while there is room; clips the first that does not fit, unless it is the
      optional one, and names whatever it does not take in full. */
  function Selected(es: seq<Entry>, room: int): Choice
    requires forall e | e in es :: e.key < |KEYS|
  {
    if es == [] then Choice([], [])
    else
      assert es[0] in es && forall e | e in es[1..] :: e in es;
      var line := es[0].line;
      if |line| <= room then
        var rest := Selected(es[1..], room - |line| - 1);
        Choice([line] + rest.lines, rest.omitted)
      else if es[0].key != OPTIONAL && room > 0 then
        var rest := Selected(es[1..], -1);
        Choice([line[..room]] + rest.lines, [KEYS[es[0].key]] + rest.omitted)
      else
        var rest := Selected(es[1..], room);
        Choice(rest.lines, [KEYS[es[0].key]] + rest.omitted)
  }

  function Allowance(omitted: seq<Text>, cap: nat): nat {
    if cap > |Marker(omitted)| + 1 then cap - |Marker(omitted)| - 1 else 0
  }

  /** The room for the last line behind the others, 0 when there is none. */
  function RoomForLast(lines: seq<Text>, omitted: seq<Text>, cap: nat): nat
    requires lines != []
  {
    var previous := Join(lines[..|lines| - 1], NEWLINE);
    var before := if previous != [] then |previous| + 1 else 0;
    if |Join(lines, NEWLINE)| > Allowance(omitted, cap) > before then Allowance(omitted, cap) - before else 0
  }

  predicate MarkerFits(lines: seq<Text>, omitted: seq<Text>, cap: nat) {
    |Join(lines, NEWLINE)| + 1 + |Marker(omitted)| <= cap
  }

  function Popped(lines: seq<Text>, omitted: seq<Text>): seq<Text>
    requires lines != []
  {
    var key := KeyOf(lines[|lines| - 1]);
    if key in omitted then omitted else [key] + omitted
  }

  /** Shortens the last line, or drops it and names it, until the marker fits behind. */
  function Shrunk(lines: seq<Text>, omitted: seq<Text>, cap: nat): Choice
    decreases |lines|
  {
    if lines == [] || MarkerFits(lines, omitted, cap) then Choice(lines, omitted)
    else
      var n, room := |lines|, RoomForLast(lines, omitted, cap);
      if room > 0 then Choice(lines[n - 1 := Take(lines[n - 1], room)], omitted)
      else Shrunk(lines[..n - 1], Popped(lines, omitted), cap)
  }

  /** The text, the lines that stand in it, and the names returned beside it. */
  datatype Outcome = Outcome(text: Text, lines: seq<Text>, omitted: seq<Text>)

  function Preserved(es: seq<Entry>, cap: nat): Outcome
    requires forall e | e in es :: e.key < |KEYS|
  {
    if cap == 0 || es == [] then Outcome([], [], [])
    else
      var first := Selected(es, ContentCap(cap));
      if first.omitted == [] then Outcome(Join(first.lines, NEWLINE), first.lines, [])
      else if |Marker(first.omitted)| > cap then Outcome(Marker(first.omitted)[..cap], [], first.omitted)
      else
        var last := Shrunk(first.lines, first.omitted, cap);
        var body, marker := Join(last.lines, NEWLINE), Marker(last.omitted);
        if body != [] && |body| + 1 + |marker| <= cap then Outcome(body + NEWLINE + marker, last.lines, last.omitted)
        else Outcome(Take(marker, cap), [], last.omitted)
  }

  lemma SelectedStep(es: seq<Entry>, i: nat, room: int)
    requires i < |es| && forall e | e in es :: e.key < |KEYS|
    ensures es[i] in es && (forall e | e in es[i..] :: e.key < |KEYS|) && forall e | e in es[i + 1..] :: e.key < |KEYS|
    ensures var line := es[i].line;
      Selected(es[i..], room) ==
        if |line| <= room then
          var rest := Selected(es[i + 1..], room - |line| - 1); Choice([line] + rest.lines, rest.omitted)
        else if es[i].key != OPTIONAL && room > 0 then
          var rest := Selected(es[i + 1..], -1); Choice([line[..room]] + rest.lines, [KEYS[es[i].key]] + rest.omitted)
        else var rest := Selected(es[i + 1..], room); Choice(rest.lines, [KEYS[es[i].key]] + rest.omitted)
  {
    assert es[i..][0] == es[i] && es[i..][1..] == es[i + 1..];
  }

  /** With no room left, it does not matter by how much. */
  lemma {:induction false} NoRoom(es: seq<Entry>, room: int, room': int)
    requires (forall e | e in es :: e.key < |KEYS| && e.line != []) && room <= 0 && room' <= 0
    ensures Selected(es, room) == Selected(es, room')
  {
    if es != [] {
      assert es[0] in es && forall e | e in es[1..] :: e in es;
      NoRoom(es[1..], room, room');
    }
  }

  lemma SelectedNone(es: seq<Entry>, room: int)
    requires es == []
    ensures Selected(es, room) == Choice([], [])
  {
  }

  lemma OrderedLines(es: seq<Entry>)
    requires Ordered(es)
    ensures forall e | e in es :: e.key < |KEYS| && e.line != []
  {
  }

  /** Shrinking never takes a name away. */
  lemma {:induction false} StaysNamed(lines: seq<Text>, omitted: seq<Text>, cap: nat)
    ensures forall k | k in omitted :: k in Shrunk(lines, omitted, cap).omitted
    ensures omitted != [] ==> Shrunk(lines, omitted, cap).omitted != []
    decreases |lines|
  {
    hide Join, Marker, KeyOf;
    if lines != [] { StaysNamed(lines[..|lines| - 1], Popped(lines, omitted), cap); }
  }

  lemma EntriesOrdered(sections: seq<Text>)
    requires |sections| == |KEYS|
    ensures Ordered(Entries(sections, 0))
  {
    hide Entries;
    forall e | e in Entries(sections, 0) ensures KEYS[e.key] + COLON <= e.line {
      assert e.line == KEYS[e.key] + COLON + sections[e.key];
    }
  }
}
