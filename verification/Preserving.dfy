/**
 The function that squeezes sections into a number of characters, with its two loops.
 */
module Preserving {
  import opened Basics
  import opened Utf
  import opened Reservations
  import opened Preserve
  import opened PreserveFacts

  method Select(es: seq<Entry>, cap: nat) returns (lines: seq<Text>, omitted: seq<Text>)
    requires forall e | e in es :: e.key < |KEYS| && e.line != []
    ensures Choice(lines, omitted) == Selected(es, ContentCap(cap))
  {
    hide Join, ContentCap, Selected;
    lines, omitted := [], [];
    var room := ContentCap(cap);
    var used := 0;
    ghost var whole := Selected(es, room);
    assert es[0..] == es;
    for i := 0 to |es|
      invariant forall e | e in es[i..] :: e.key < |KEYS| && e.line != []
      invariant var rest := Selected(es[i..], room - used);
        whole == Choice(lines + rest.lines, omitted + rest.omitted)
    {
      SelectedStep(es, i, room - used);
      var line := es[i].line;
      var remaining := if room > used then room - used else 0;
      if |line| <= remaining {
        lines := lines + [line];
        used := used + |line| + 1;
      } else {
        if es[i].key != OPTIONAL && remaining > 0 {
          lines := lines + [line[..remaining]];
          used := used + remaining + 1;
        }
        omitted := omitted + [KEYS[es[i].key]];
      }
    }
    SelectedNone(es[|es|..], room - used);
  }

  method Shrink(lines0: seq<Text>, omitted0: seq<Text>, cap: nat) returns (lines: seq<Text>, omitted: seq<Text>)
    ensures Choice(lines, omitted) == Shrunk(lines0, omitted0, cap)
  {
    hide Join, Marker, KeyOf;
    lines, omitted := lines0, omitted0;
    while lines != [] && |Join(lines, NEWLINE)| + 1 + |Marker(omitted)| > cap
      invariant Shrunk(lines, omitted, cap) == Shrunk(lines0, omitted0, cap)
      decreases |lines|
    {
      var n := |lines|;
      var allowance := if cap > |Marker(omitted)| + 1 then cap - |Marker(omitted)| - 1 else 0;
      if |Join(lines, NEWLINE)| > allowance {
        var previous := Join(lines[..n - 1], NEWLINE);
        var before := if previous != [] then |previous| + 1 else 0;
        if allowance > before {
          lines := lines[n - 1 := Take(lines[n - 1], allowance - before)];
          return;
        }
      }
      var key := KeyOf(lines[n - 1]);
      lines := lines[..n - 1];
      if key !in omitted { omitted := [key] + omitted; }
    }
  }

  method PreserveContextSections(sections: seq<Text>, maxChars: Num) returns (text: Text, truncated: bool, omitted: seq<Text>)
    requires |sections| == |KEYS|
    ensures forall e | e in Entries(sections, 0) :: e.key < |KEYS|
    ensures var o := Preserved(Entries(sections, 0), Cap(maxChars)); text == o.text && omitted == o.omitted
    ensures truncated <==> omitted != []
    // The text keeps to the number asked for, fractions of a character aside.
    ensures |text| as real <= if maxChars.Finite? && maxChars.value > 0.0 then maxChars.value else 0.0
    // Nothing is omitted exactly when everything fits beside the shortest marker.
    ensures !truncated <==> Cap(maxChars) == 0 || AllFit(Entries(sections, 0), Cap(maxChars))
  {
    hide Join, Marker, Entries, Lines, KeyOf, Selected, Shrunk, AllFit;
    EntriesOrdered(sections);
    var cap := Cap(maxChars);
    CapMeans(maxChars);
    TextAndMarker(Entries(sections, 0), cap);
    if cap > 0 { WholeExactly(Entries(sections, 0), cap); }
    hide Cap;
    if cap == 0 { return [], false, []; }
    var es := Entries(sections, 0);
    if es == [] { return [], false, []; }
    OrderedLines(es);
    var lines;
    lines, omitted := Select(es, cap);
    if omitted == [] { return Join(lines, NEWLINE), false, omitted; }
    if |Marker(omitted)| > cap { return Marker(omitted)[..cap], true, omitted; }
    StaysNamed(lines, omitted, cap);
    lines, omitted := Shrink(lines, omitted, cap);
    truncated := true;
    var marker, body := Marker(omitted), Join(lines, NEWLINE);
    text := if body != [] && |body| + 1 + |marker| <= cap then body + NEWLINE + marker else Take(marker, cap);
  }

  /** The number of characters asked for, rounded down; none when it makes no sense. */
  lemma CapMeans(maxChars: Num)
    ensures if maxChars.Finite? && maxChars.value > 0.0 then Cap(maxChars) as real <= maxChars.value < Cap(maxChars) as real + 1.0
            else Cap(maxChars) == 0
  {
  }
}
