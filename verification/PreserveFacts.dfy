/**
 What stands in a squeezed context and what its marker names: the text keeps beginnings of
 the supplied lines in their order, and a section that does not stand in full is named
 behind them - exactly unless the marker pushes into a line that was first taken whole.
 */
module PreserveFacts {
  import opened Basics
  import opened Utf
  import opened Preserve

  // ---- Names -------------------------------------------------------------------------------

  lemma Letters(key: nat)
    requires key < |KEYS|
    ensures |KEYS[key]| >= 2
    ensures KEYS[key][0] == [111, 99, 97, 101, 110, 111][key] && KEYS[key][1] == [98, 111, 99, 118, 101, 112][key]
  {
  }

  /** Two section names differ within their first two letters. */
  lemma KeysDiffer(a: nat, b: nat, line: Text)
    requires a < |KEYS| && b < |KEYS| && KEYS[a] <= line && KEYS[b] <= line
    ensures a == b
  {
    Letters(a);
    Letters(b);
    assert KEYS[a][0] == line[0] == KEYS[b][0] && KEYS[a][1] == line[1] == KEYS[b][1];
  }

  lemma NoColon(key: nat)
    requires key < |KEYS|
    ensures 58 !in KEYS[key]
  {
  }

  lemma {:induction false} KeyOfNamed(name: Text, line: Text)
    requires 58 !in name && name + COLON <= line
    ensures KeyOf(line) == name
  {
    if name != [] {
      assert line[0] == name[0];
      assert name[1..] + COLON <= line[1..];
      KeyOfNamed(name[1..], line[1..]);
    }
  }

  // ---- The selection -----------------------------------------------------------------------

  /** How many lines are taken whole. */
  function Fitting(es: seq<Entry>, room: int): (n: nat)
    ensures n <= |es|
  {
    if es == [] || |es[0].line| > room then 0 else 1 + Fitting(es[1..], room - |es[0].line| - 1)
  }

  /** The beginning of the next line, when it is clipped: one line or none. */
  function Clip(es: seq<Entry>, room: int): seq<Text> {
    if es == [] then []
    else if |es[0].line| <= room then Clip(es[1..], room - |es[0].line| - 1)
    else if es[0].key != OPTIONAL && room > 0 then [es[0].line[..room]]
    else []
  }

  function Names(es: seq<Entry>): (r: seq<Text>)
    requires forall e | e in es :: e.key < |KEYS|
    ensures |r| == |es| && forall i | 0 <= i < |es| :: r[i] == KEYS[es[i].key]
  {
    seq(|es|, i requires 0 <= i < |es| => assert es[i] in es; KEYS[es[i].key])
  }

  lemma OrderedTail(es: seq<Entry>, n: nat)
    requires Ordered(es) && n <= |es|
    ensures Ordered(es[n..])
  {
  }

  lemma KeysInRange(es: seq<Entry>)
    requires Ordered(es)
    ensures forall e | e in es :: e.key < |KEYS|
  {
  }

  lemma KeyInRange(es: seq<Entry>, i: nat)
    requires Ordered(es) && i < |es|
    ensures es[i] in es && es[i].key < |KEYS| && forall e | e in es :: e.key < |KEYS|
  {
  }

  lemma {:induction false} NothingTaken(es: seq<Entry>, room: int)
    requires Ordered(es) && room <= 0
    ensures Selected(es, room) == Choice([], Names(es))
  {
    if es != [] {
      OrderedTail(es, 1);
      assert es[0] in es;
      NothingTaken(es[1..], room);
    }
  }

  lemma ShapeWithWhole(es: seq<Entry>, room: int)
    requires es != [] && Ordered(es) && Ordered(es[1..]) && |es[0].line| <= room
    requires var room', n := room - |es[0].line| - 1, Fitting(es[1..], room - |es[0].line| - 1);
      Selected(es[1..], room') == Choice(Lines(es[1..][..n]) + Clip(es[1..], room'), Names(es[1..][n..]))
    ensures var n := Fitting(es, room);
      Selected(es, room) == Choice(Lines(es[..n]) + Clip(es, room), Names(es[n..]))
  {
    hide Ordered;
    var n := Fitting(es, room);
    assert es[1..][..n - 1] == es[1..n] && es[1..][n - 1..] == es[n..];
    assert Lines(es[..n]) == [es[0].line] + Lines(es[1..n]);
  }

  lemma ShapeOfClipped(es: seq<Entry>, room: int)
    requires Ordered(es) && room > 0 && es != [] && |es[0].line| > room && es[0].key != OPTIONAL
    ensures Selected(es, room) == Choice([es[0].line[..room]], Names(es))
  {
    hide Ordered, Names;
    KeyInRange(es, 0);
    OrderedTail(es, 1);
    NothingTaken(es[1..], -1);
    NamesFront(es);
  }

  lemma ShapeOfOptional(es: seq<Entry>, room: int)
    requires Ordered(es) && room > 0 && es != [] && |es[0].line| > room && es[0].key == OPTIONAL
    ensures Selected(es, room) == Choice([], Names(es))
  {
    if |es| > 1 { OthersFirst(es); }
    KeyInRange(es, 0);
    SelectedNone(es[1..], room);
  }

  lemma NamesFront(es: seq<Entry>)
    requires es != [] && (forall e | e in es :: e.key < |KEYS|)
    ensures es[0] in es && (forall e | e in es[1..] :: e.key < |KEYS|)
    ensures Names(es) == [KEYS[es[0].key]] + Names(es[1..])
  {
    assert forall e | e in es[1..] :: e in es;
  }

  lemma OthersFirst(es: seq<Entry>)
    requires Ordered(es) && |es| > 1
    ensures es[0].key != OPTIONAL
  {
    assert es[1] in es;
  }

  /** Whole lines, then at most one clipped one; all others are named. */
  lemma {:induction false} SelectedShape(es: seq<Entry>, room: int)
    requires Ordered(es)
    ensures var n := Fitting(es, room);
      Selected(es, room) == Choice(Lines(es[..n]) + Clip(es, room), Names(es[n..]))
  {
    if es != [] && |es[0].line| <= room {
      hide Ordered, Clip, Selected;
      OrderedTail(es, 1);
      SelectedShape(es[1..], room - |es[0].line| - 1);
      ShapeWithWhole(es, room);
    } else {
      assert es[..0] == [] && es[0..] == es && Lines(es[..0]) == [];
      if room <= 0 {
        NothingTaken(es, room);
      } else if es != [] {
        if es[0].key == OPTIONAL { ShapeOfOptional(es, room); } else { ShapeOfClipped(es, room); }
      }
    }
  }

  lemma {:induction false} ClipIsBeginning(es: seq<Entry>, room: int)
    requires Ordered(es)
    ensures var n, clip := Fitting(es, room), Clip(es, room);
      |clip| <= 1 && (clip != [] ==> n < |es| && clip[0] != [] && clip[0] < es[n].line)
  {
    if es != [] && |es[0].line| <= room {
      OrderedTail(es, 1);
      ClipIsBeginning(es[1..], room - |es[0].line| - 1);
    }
  }

  lemma {:induction false} UsedFront(ts: seq<Text>)
    requires ts != []
    ensures Used(ts) == |ts[0]| + 1 + Used(ts[1..])
  {
    var front := ts[..|ts| - 1];
    if |ts| > 1 {
      UsedFront(front);
      assert ts[1..][..|ts| - 2] == front[1..];
    } else {
      assert front == [] && ts[1..] == [];
    }
  }

  /** All lines are taken whole exactly when they fit together. */
  lemma {:induction false} AllTaken(es: seq<Entry>, room: int)
    requires Ordered(es) && es != []
    ensures Fitting(es, room) == |es| <==> Used(Lines(es)) <= room + 1
  {
    UsedFront(Lines(es));
    assert Lines(es)[1..] == Lines(es[1..]);
    if |es| == 1 {
      assert Used(Lines(es[1..])) == 0;
    } else {
      OrderedTail(es, 1);
      AllTaken(es[1..], room - |es[0].line| - 1);
    }
  }

  // ---- The shortening ----------------------------------------------------------------------

  /** Line by line, the first lines are nonempty beginnings of the second. */
  predicate Beginnings(lines: seq<Text>, of: seq<Text>) {
    |lines| <= |of| && forall j | 0 <= j < |lines| :: lines[j] != [] && lines[j] <= of[j]
  }

  lemma {:induction false} ShrunkBegins(lines: seq<Text>, omitted: seq<Text>, cap: nat, of: seq<Text>)
    requires Beginnings(lines, of)
    ensures Beginnings(Shrunk(lines, omitted, cap).lines, of)
    decreases |lines|
  {
    hide Join, Marker, KeyOf, MarkerFits, RoomForLast;
    if lines != [] && !MarkerFits(lines, omitted, cap) && RoomForLast(lines, omitted, cap) == 0 {
      ShrunkBegins(lines[..|lines| - 1], Popped(lines, omitted), cap, of);
    }
  }

  /** What is left after shortening stands behind the marker, or there is nothing left. */
  lemma {:induction false} ShrunkFits(lines: seq<Text>, omitted: seq<Text>, cap: nat)
    requires forall t | t in lines :: t != []
    ensures var o := Shrunk(lines, omitted, cap);
      o.lines != [] ==> MarkerFits(o.lines, o.omitted, cap) && Join(o.lines, NEWLINE) != []
    decreases |lines|
  {
    hide Marker, KeyOf, Popped;
    if lines != [] {
      var n := |lines|;
      assert lines[n - 1] in lines;
      if MarkerFits(lines, omitted, cap) {
        NonemptyJoin(lines);
      } else if RoomForLast(lines, omitted, cap) > 0 {
        CutFits(lines, omitted, cap);
      } else {
        var front := lines[..n - 1];
        assert forall t | t in front :: t in lines;
        ShrunkFits(front, Popped(lines, omitted), cap);
      }
    }
  }

  lemma NoLines()
    ensures Join([], NEWLINE) == []
  {
  }

  lemma NonemptyJoin(lines: seq<Text>)
    requires lines != [] && lines[|lines| - 1] != []
    ensures Join(lines, NEWLINE) != []
  {
  }

  /** A shortened last line leaves exactly the room for the marker, and is shorter than it was. */
  lemma CutFits(lines: seq<Text>, omitted: seq<Text>, cap: nat)
    requires lines != [] && RoomForLast(lines, omitted, cap) > 0
    requires forall t | t in lines :: t != []
    ensures var n, room := |lines|, RoomForLast(lines, omitted, cap);
      && room < |lines[n - 1]|
      && var cut := lines[n - 1 := Take(lines[n - 1], room)];
        MarkerFits(cut, omitted, cap) && Join(cut, NEWLINE) != [] && |Join(cut, NEWLINE)| + 1 + |Marker(omitted)| == cap
  {
    hide Marker;
    var n, room := |lines|, RoomForLast(lines, omitted, cap);
    var cut := lines[n - 1 := Take(lines[n - 1], room)];
    assert cut[..n - 1] == lines[..n - 1];
    if n > 1 {
      assert lines[..n - 1][n - 2] in lines;
      NonemptyJoin(lines[..n - 1]);
    }
  }

  // ---- Who is named ------------------------------------------------------------------------

  /** Whether shortening, begun with the first `n` lines whole, ends within a whole line. */
  predicate CutsWithin(es: seq<Entry>, n: nat, omitted: seq<Text>, cap: nat)
    requires Ordered(es) && n <= |es|
  {
    && n > 0
    && !MarkerFits(Lines(es)[..n], omitted, cap)
    && (|| RoomForLast(Lines(es)[..n], omitted, cap) > 0
        || (assert es[n - 1] in es; CutsWithin(es, n - 1, [KEYS[es[n - 1].key]] + omitted, cap)))
  }

  /** Whether shortening, begun with the first `n` lines whole and a clipped one or none behind
      them, drops the clip and ends within a whole line. */
  predicate CutsBeyond(es: seq<Entry>, n: nat, clip: seq<Text>, names: seq<Text>, cap: nat)
    requires Ordered(es) && n <= |es|
  {
    var lines := Lines(es)[..n] + clip;
    if clip == [] then CutsWithin(es, n, names, cap)
    else
      && !MarkerFits(lines, names, cap)
      && RoomForLast(lines, names, cap) == 0
      && CutsWithin(es, n, Popped(lines, names), cap)
  }

  /** A line was taken whole, and then the marker left no room for all of it: either the marker
      alone takes the text, or the shortening ends within that line. */
  predicate CutsUnnamed(es: seq<Entry>, cap: nat)
    requires Ordered(es)
  {
    OrderedTail(es, Fitting(es, ContentCap(cap)));
    var n, clip := Fitting(es, ContentCap(cap)), Clip(es, ContentCap(cap));
    var names := Names(es[n..]);
    if n == |es| then false
    else if |Marker(names)| > cap then n > 0
    else CutsBeyond(es, n, clip, names, cap)
  }

  /** Each section stands in full or is named. */
  predicate AllAccounted(es: seq<Entry>, lines: seq<Text>, omitted: seq<Text>)
    requires Ordered(es)
  {
    forall i | 0 <= i < |es| :: es[i].line in lines || (assert es[i] in es; KEYS[es[i].key] in omitted)
  }

  /** The first `n` sections are not named and all others are. */
  predicate NamedFrom(es: seq<Entry>, n: nat, omitted: seq<Text>)
    requires Ordered(es)
  {
    forall i | 0 <= i < |es| :: assert es[i] in es; KEYS[es[i].key] in omitted <==> n <= i
  }

  lemma WholeLinePopped(es: seq<Entry>, n: nat, omitted: seq<Text>)
    requires Ordered(es) && 0 < n <= |es| && NamedFrom(es, n, omitted)
    ensures es[n - 1] in es && es[n - 1].key < |KEYS| && Popped(Lines(es)[..n], omitted) == [KEYS[es[n - 1].key]] + omitted
    ensures NamedFrom(es, n - 1, [KEYS[es[n - 1].key]] + omitted)
  {
    hide Join, KeyOf;
    var e := es[n - 1];
    assert e in es;
    NoColon(e.key);
    KeyOfNamed(KEYS[e.key], e.line);
    forall i | 0 <= i < |es| ensures es[i] in es && (KEYS[es[i].key] == KEYS[e.key] ==> i == n - 1) {
      assert es[i] in es;
      if KEYS[es[i].key] == KEYS[e.key] { KeysDiffer(es[i].key, e.key, KEYS[e.key]); }
    }
  }

  /** A line cut short neither stands whole any more nor is named. */
  lemma CutUnnamed(es: seq<Entry>, n: nat, room: nat, omitted: seq<Text>)
    requires Ordered(es) && 0 < n <= |es| && NamedFrom(es, n, omitted) && room < |es[n - 1].line|
    ensures !AllAccounted(es, Lines(es)[..n][n - 1 := Take(es[n - 1].line, room)], omitted)
  {
    var e, cut := es[n - 1], Lines(es)[..n][n - 1 := Take(es[n - 1].line, room)];
    assert e in es;
    forall j | 0 <= j < n ensures cut[j] != e.line {
      assert es[j] in es;
      if j < n - 1 && es[j].line == e.line { KeysDiffer(es[j].key, e.key, e.line); }
    }
  }

  lemma WholeAccounted(es: seq<Entry>, n: nat, omitted: seq<Text>)
    requires Ordered(es) && n <= |es| && NamedFrom(es, n, omitted)
    ensures AllAccounted(es, Lines(es)[..n], omitted)
  {
    forall i | 0 <= i < |es| ensures es[i] in es && (es[i].line in Lines(es)[..n] || KEYS[es[i].key] in omitted) {
      assert es[i] in es;
      if i < n { assert Lines(es)[..n][i] == es[i].line; }
    }
  }

  lemma {:induction false} WholeLinesShrunk(es: seq<Entry>, n: nat, omitted: seq<Text>, cap: nat)
    requires Ordered(es) && n <= |es| && NamedFrom(es, n, omitted)
    ensures var o := Shrunk(Lines(es)[..n], omitted, cap);
      AllAccounted(es, o.lines, o.omitted) <==> !CutsWithin(es, n, omitted, cap)
  {
    hide Ordered, NamedFrom, AllAccounted, MarkerFits, RoomForLast, Popped;
    var lines := Lines(es)[..n];
    WholeAccounted(es, n, omitted);
    if n > 0 && !MarkerFits(lines, omitted, cap) {
      WholeLinePopped(es, n, omitted);
      if RoomForLast(lines, omitted, cap) > 0 {
        LinesSpeak(es, n);
        CutFits(lines, omitted, cap);
        CutUnnamed(es, n, RoomForLast(lines, omitted, cap), omitted);
      } else {
        assert lines[..n - 1] == Lines(es)[..n - 1];
        WholeLinesShrunk(es, n - 1, [KEYS[es[n - 1].key]] + omitted, cap);
      }
    }
  }

  lemma LinesSpeak(es: seq<Entry>, n: nat)
    requires Ordered(es) && n <= |es|
    ensures forall t | t in Lines(es)[..n] :: t != []
  {
    forall t | t in Lines(es)[..n] ensures t != [] {
      var i :| 0 <= i < n && Lines(es)[i] == t;
      assert es[i] in es;
    }
  }

  // ---- The whole ---------------------------------------------------------------------------

  lemma NamesFrom(es: seq<Entry>, n: nat)
    requires Ordered(es) && n <= |es|
    ensures Ordered(es[n..]) && NamedFrom(es, n, Names(es[n..]))
  {
    OrderedTail(es, n);
    var names := Names(es[n..]);
    forall i | 0 <= i < |es| ensures es[i] in es && (KEYS[es[i].key] in names <==> n <= i) {
      assert es[i] in es;
      if n <= i { assert names[i - n] == KEYS[es[i].key]; }
      forall j | 0 <= j < |names| ensures names[j] == KEYS[es[i].key] ==> i == n + j {
        assert es[n..][j] == es[n + j] && es[n + j] in es;
        if names[j] == KEYS[es[i].key] { KeysDiffer(es[n + j].key, es[i].key, names[j]); }
      }
    }
  }

  /** Dropping the clipped line leaves the same sections named, with or without a cut name. */
  lemma ClipPopped(es: seq<Entry>, n: nat, clip: Text, lines: seq<Text>, omitted: seq<Text>)
    requires Ordered(es) && n < |es| && NamedFrom(es, n, omitted) && clip <= es[n].line
    requires lines != [] && lines[|lines| - 1] == clip
    ensures NamedFrom(es, n, Popped(lines, omitted))
  {
    hide KeyOf;
    forall i | 0 <= i < |es| ensures es[i] in es && (KEYS[es[i].key] == KeyOf(clip) ==> i == n) {
      assert es[i] in es && es[n] in es;
      if KEYS[es[i].key] == KeyOf(clip) { KeysDiffer(es[i].key, es[n].key, es[n].line); }
    }
  }

  /** With a clipped line behind the whole ones, shortening may stop within the clip. */
  lemma ClippedLinesShrunk(es: seq<Entry>, n: nat, clip: Text, omitted: seq<Text>, cap: nat)
    requires Ordered(es) && n < |es| && NamedFrom(es, n, omitted) && clip <= es[n].line
    ensures var o := Shrunk(Lines(es)[..n] + [clip], omitted, cap);
      AllAccounted(es, o.lines, o.omitted) <==> !CutsBeyond(es, n, [clip], omitted, cap)
  {
    hide Ordered, NamedFrom, AllAccounted, MarkerFits, RoomForLast, Popped, CutsWithin;
    var whole, lines := Lines(es)[..n], Lines(es)[..n] + [clip];
    ClipPopped(es, n, clip, lines, omitted);
    assert lines[..n] == whole;
    if MarkerFits(lines, omitted, cap) || RoomForLast(lines, omitted, cap) > 0 {
      var o := Shrunk(lines, omitted, cap);
      assert o.omitted == omitted && o.lines[..n] == whole;
      WholeAccounted(es, n, omitted);
      MoreLines(es, whole, o.lines, omitted);
    } else {
      WholeLinesShrunk(es, n, Popped(lines, omitted), cap);
    }
  }

  lemma LinesShrunk(es: seq<Entry>, n: nat, clip: seq<Text>, omitted: seq<Text>, cap: nat)
    requires Ordered(es) && n <= |es| && NamedFrom(es, n, omitted)
    requires |clip| <= 1 && (clip != [] ==> n < |es| && clip[0] <= es[n].line)
    ensures var o := Shrunk(Lines(es)[..n] + clip, omitted, cap);
      AllAccounted(es, o.lines, o.omitted) <==> !CutsBeyond(es, n, clip, omitted, cap)
  {
    hide Ordered, NamedFrom, AllAccounted, CutsWithin, Shrunk;
    if clip == [] {
      assert Lines(es)[..n] + clip == Lines(es)[..n];
      WholeLinesShrunk(es, n, omitted, cap);
    } else {
      hide CutsBeyond;
      assert [clip[0]] == clip;
      ClippedLinesShrunk(es, n, clip[0], omitted, cap);
    }
  }

  lemma MoreLines(es: seq<Entry>, few: seq<Text>, lines: seq<Text>, omitted: seq<Text>)
    requires Ordered(es) && few <= lines && AllAccounted(es, few, omitted)
    ensures AllAccounted(es, lines, omitted)
  {
  }

  lemma NoneToAccount(es: seq<Entry>, lines: seq<Text>, omitted: seq<Text>)
    requires es == []
    ensures Ordered(es) && AllAccounted(es, lines, omitted)
  {
  }

  lemma NothingKept(es: seq<Entry>, n: nat, omitted: seq<Text>)
    requires Ordered(es) && n <= |es| && NamedFrom(es, n, omitted)
    ensures AllAccounted(es, [], omitted) <==> n == 0
  {
    if n > 0 { assert es[0] in es; }
  }

  /** What is kept, named and written, case by case. */
  lemma PreservedParts(es: seq<Entry>, cap: nat)
    requires Ordered(es) && es != [] && cap > 0
    ensures forall e | e in es[Fitting(es, ContentCap(cap))..] :: e.key < |KEYS|
    ensures var n, clip, o := Fitting(es, ContentCap(cap)), Clip(es, ContentCap(cap)), Preserved(es, cap);
      var names := Names(es[n..]);
      if n == |es| then o == Outcome(Join(Lines(es), NEWLINE), Lines(es), [])
      else if |Marker(names)| > cap then o == Outcome(Marker(names)[..cap], [], names)
      else
        var last := Shrunk(Lines(es)[..n] + clip, names, cap);
        o.lines == last.lines && o.omitted == last.omitted && o.text == TextOf(last.lines, last.omitted, cap)
  {
    hide Ordered, Shrunk, Selected, Clip, Fitting, Join, Marker;
    var room := ContentCap(cap);
    var n, clip := Fitting(es, room), Clip(es, room);
    SelectedShape(es, room);
    OrderedTail(es, n);
    ClipIsBeginning(es, room);
    KeysInRange(es[n..]);
    assert Lines(es[..n]) == Lines(es)[..n];
    if n < |es| {
      assert Names(es[n..]) != [];
      NoLines();
      LinesSpeak(es, n);
      ShrunkFits(Lines(es)[..n] + clip, Names(es[n..]), cap);
    } else {
      assert es[..n] == es && clip == [] && Lines(es) + clip == Lines(es) && Names(es[n..]) == [];
    }
  }

  /** The text of kept lines and names: the marker alone, cut to the room, when no line is kept. */
  function TextOf(lines: seq<Text>, omitted: seq<Text>, cap: nat): Text {
    if lines == [] then Take(Marker(omitted), cap) else Join(lines, NEWLINE) + NEWLINE + Marker(omitted)
  }

  /** Each section that does not stand in full is named beside the text exactly when the
      marker does not push into a line that was taken whole. */
  lemma NamedUnlessCut(es: seq<Entry>, cap: nat)
    requires Ordered(es) && cap > 0
    ensures var o := Preserved(es, cap);
      AllAccounted(es, o.lines, o.omitted) <==> !CutsUnnamed(es, cap)
  {
    hide Ordered, NamedFrom, AllAccounted, CutsBeyond, Shrunk, Clip, Fitting, Preserved, Join, Marker;
    if es == [] {
      var o := Preserved(es, cap);
      NoneToAccount(es, o.lines, o.omitted);
    } else {
      var n, clip := Fitting(es, ContentCap(cap)), Clip(es, ContentCap(cap));
      PreservedParts(es, cap);
      ClipIsBeginning(es, ContentCap(cap));
      NamesFrom(es, n);
      var names := Names(es[n..]);
      if n == |es| {
        assert names == [] && Lines(es)[..n] == Lines(es);
        WholeAccounted(es, n, names);
      } else if |Marker(names)| > cap {
        NothingKept(es, n, names);
      } else {
        LinesShrunk(es, n, clip, names, cap);
      }
    }
  }

  // ---- The text ----------------------------------------------------------------------------

  /** The text keeps to its room; when something is omitted it ends with the whole marker
      behind the kept lines, or it is the marker alone, cut to the room. */
  lemma TextAndMarker(es: seq<Entry>, cap: nat)
    requires Ordered(es)
    ensures var o := Preserved(es, cap);
      && |o.text| <= cap
      && (o.omitted != [] ==> o.text == TextOf(o.lines, o.omitted, cap))
  {
    hide Shrunk, Clip, Fitting, Join, Marker, Ordered, Selected;
    if cap > 0 && es != [] {
      PreservedParts(es, cap);
      var n, clip := Fitting(es, ContentCap(cap)), Clip(es, ContentCap(cap));
      if n == |es| {
        hide Preserved;
        WholeFits(es, cap);
      } else if |Marker(Names(es[n..]))| <= cap {
        hide Preserved;
        LinesSpeak(es, n);
        ClipIsBeginning(es, ContentCap(cap));
        ShrunkFits(Lines(es)[..n] + clip, Names(es[n..]), cap);
      }
    }
  }

  lemma WholeFits(es: seq<Entry>, cap: nat)
    requires Ordered(es) && es != []
    ensures Fitting(es, ContentCap(cap)) == |es| <==> |Join(Lines(es), NEWLINE)| <= ContentCap(cap)
    ensures ContentCap(cap) <= cap
  {
    AllTaken(es, ContentCap(cap));
    JoinLength(Lines(es));
  }

  /** Nothing is omitted exactly when everything fits beside the shortest marker, and then all
      lines stand in full and in order. */
  lemma WholeExactly(es: seq<Entry>, cap: nat)
    requires Ordered(es) && cap > 0
    ensures var o := Preserved(es, cap);
      && (o.omitted == [] <==> AllFit(es, cap))
      && (o.omitted == [] ==> o.lines == Lines(es) && o.text == Join(Lines(es), NEWLINE))
  {
    hide Shrunk, Clip, Fitting, Marker, Ordered, Selected;
    if es != [] {
      hide Join;
      PreservedParts(es, cap);
      WholeFits(es, cap);
      var n := Fitting(es, ContentCap(cap));
      hide Preserved;
      if n < |es| {
        StaysNamed(Lines(es)[..n] + Clip(es, ContentCap(cap)), Names(es[n..]), cap);
      }
    }
  }

  lemma SelectedBegins(ts: seq<Text>, n: nat, clip: seq<Text>)
    requires n <= |ts| && forall t | t in ts[..|ts|] :: t != []
    requires |clip| <= 1 && (clip != [] ==> n < |ts| && clip[0] != [] && clip[0] <= ts[n])
    ensures Beginnings(ts[..n] + clip, ts) && (n == |ts| ==> Beginnings(ts, ts))
  {
    forall j | 0 <= j < |ts| ensures ts[j] != [] { assert ts[j] in ts[..|ts|]; }
  }

  /** What stands in the text are beginnings of the supplied lines, in the order of importance. */
  lemma KeepsBeginnings(es: seq<Entry>, cap: nat)
    requires Ordered(es)
    ensures Beginnings(Preserved(es, cap).lines, Lines(es))
  {
    hide Shrunk, Clip, Fitting, Marker, Ordered, Selected, Join;
    if cap > 0 && es != [] {
      PreservedParts(es, cap);
      var n, clip := Fitting(es, ContentCap(cap)), Clip(es, ContentCap(cap));
      hide Preserved;
      ClipIsBeginning(es, ContentCap(cap));
      LinesSpeak(es, |es|);
      SelectedBegins(Lines(es), n, clip);
      if n < |es| { ShrunkBegins(Lines(es)[..n] + clip, Names(es[n..]), cap, Lines(es)); }
    }
  }

  // ---- What the names are ------------------------------------------------------------------

  predicate IsName(name: Text) { name in KEYS }

  /** Whether the clipped line is dropped after it was cut within its own name. */
  predicate CutsName(es: seq<Entry>, cap: nat)
    requires Ordered(es)
  {
    OrderedTail(es, Fitting(es, ContentCap(cap)));
    ClipIsBeginning(es, ContentCap(cap));
    var n, clip := Fitting(es, ContentCap(cap)), Clip(es, ContentCap(cap));
    clip != [] && (
      KeyInRange(es, n);
      var names, lines, name := Names(es[n..]), Lines(es)[..n] + clip, KEYS[es[n].key];
      && |Marker(names)| <= cap
      && !MarkerFits(lines, names, cap)
      && RoomForLast(lines, names, cap) == 0
      && |clip[0]| != |name|
      && |clip[0]| <= |name| + 1)
  }

  lemma {:induction false} KeyOfCut(line: Text, name: Text)
    requires 58 !in name && line <= name + COLON && |line| <= |name| + 1
    ensures KeyOf(line) == line
  {
    if line != [] && name != [] {
      assert line[0] == name[0] && line[1..] <= name[1..] + COLON;
      KeyOfCut(line[1..], name[1..]);
    } else if line != [] {
      assert line[1..] == [];
    }
  }

  /** A clipped line goes by its section's name, or by itself when the cut fell within it. */
  lemma KeyOfClip(name: Text, clip: Text, line: Text)
    requires 58 !in name && name + COLON <= line && clip <= line
    ensures KeyOf(clip) == if |clip| > |name| + 1 then name else clip
  {
    if |clip| > |name| + 1 {
      Prefixes(name + COLON, clip, line);
      KeyOfNamed(name, clip);
    } else {
      Prefixes(clip, name + COLON, line);
      KeyOfCut(clip, name);
    }
  }

  lemma NameOfClip(key: nat, clip: Text, line: Text)
    requires key < |KEYS| && KEYS[key] + COLON <= line && clip <= line
    ensures IsName(KeyOf(clip)) <==> |clip| == |KEYS[key]| || |clip| > |KEYS[key]| + 1
  {
    hide *;
    NoColon(key);
    NameIsName(key);
    KeyOfClip(KEYS[key], clip, line);
    if |clip| == |KEYS[key]| {
      assert clip == line[..|clip|] == KEYS[key];
    } else if IsName(clip) {
      NotAName(key, clip, line);
    }
  }

  lemma Prefixes(a: Text, b: Text, line: Text)
    requires a <= line && b <= line && |a| <= |b|
    ensures a <= b
  {
  }

  lemma NameIsName(key: nat)
    requires key < |KEYS|
    ensures IsName(KEYS[key])
  {
  }

  lemma NotAName(key: nat, clip: Text, line: Text)
    requires key < |KEYS| && KEYS[key] <= line && clip <= line && IsName(clip)
    ensures clip == KEYS[key]
  {
    var i :| 0 <= i < |KEYS| && KEYS[i] == clip;
    KeysDiffer(i, key, line);
  }

  /** Dropping whole lines adds only names of sections. */
  lemma {:induction false} WholeLinesNamed(es: seq<Entry>, n: nat, omitted: seq<Text>, cap: nat)
    requires Ordered(es) && n <= |es|
    ensures forall k | k in Shrunk(Lines(es)[..n], omitted, cap).omitted :: k in omitted || IsName(k)
  {
    hide Join, Marker, KeyOf, MarkerFits, RoomForLast, IsName;
    var lines := Lines(es)[..n];
    if n > 0 && !MarkerFits(lines, omitted, cap) && RoomForLast(lines, omitted, cap) == 0 {
      KeyInRange(es, n - 1);
      NameIsName(es[n - 1].key);
      NoColon(es[n - 1].key);
      KeyOfNamed(KEYS[es[n - 1].key], lines[n - 1]);
      assert lines[..n - 1] == Lines(es)[..n - 1];
      WholeLinesNamed(es, n - 1, Popped(lines, omitted), cap);
    }
  }

  /** Each name beside the text is the name of a section, exactly when no dropped line had been
      cut within its own name. */
  lemma NamesExactly(es: seq<Entry>, cap: nat)
    requires Ordered(es)
    ensures (forall k | k in Preserved(es, cap).omitted :: IsName(k)) <==> !(cap > 0 && CutsName(es, cap))
  {
    hide Shrunk, Clip, Fitting, Marker, Ordered, Selected, Join, MarkerFits, RoomForLast, Popped, IsName, KeyOf;
    var room := ContentCap(cap);
    ClipIsBeginning(es, room);
    if cap > 0 && es != [] {
      PreservedParts(es, cap);
      var n, clip := Fitting(es, room), Clip(es, room);
      hide Preserved;
      NamesAreNames(es, n);
      if n < |es| && |Marker(Names(es[n..]))| <= cap {
        if clip == [] {
          assert Lines(es)[..n] + clip == Lines(es)[..n];
          WholeLinesNamed(es, n, Names(es[n..]), cap);
        } else {
          assert clip == [clip[0]];
          ClipNamed(es, n, clip[0], Names(es[n..]), cap);
        }
      }
    }
  }

  lemma NamesAreNames(es: seq<Entry>, n: nat)
    requires Ordered(es) && n <= |es|
    ensures (forall e | e in es[n..] :: e.key < |KEYS|) && forall k | k in Names(es[n..]) :: IsName(k)
  {
    hide IsName;
    assert forall e | e in es[n..] :: e in es;
    forall j | 0 <= j < |es| - n ensures IsName(Names(es[n..])[j]) { NameIsName(es[n..][j].key); }
  }

  lemma ClipNamed(es: seq<Entry>, n: nat, clip: Text, names: seq<Text>, cap: nat)
    requires Ordered(es) && n < |es| && clip <= es[n].line && forall k | k in names :: IsName(k)
    ensures es[n] in es
    ensures var lines, name := Lines(es)[..n] + [clip], KEYS[es[n].key];
      (forall k | k in Shrunk(lines, names, cap).omitted :: IsName(k)) <==>
        MarkerFits(lines, names, cap) || RoomForLast(lines, names, cap) > 0 || |clip| == |name| || |clip| > |name| + 1
  {
    hide Join, Marker, KeyOf, MarkerFits, RoomForLast, IsName, Ordered;
    var lines := Lines(es)[..n] + [clip];
    KeyInRange(es, n);
    LineHasName(es, n);
    NameOfClip(es[n].key, clip, es[n].line);
    assert lines[..n] == Lines(es)[..n];
    var k, more := KeyOf(clip), Popped(lines, names);
    assert k in more && forall x | x in more :: x == k || x in names;
    if !MarkerFits(lines, names, cap) && RoomForLast(lines, names, cap) == 0 {
      var last := Shrunk(lines[..n], more, cap);
      assert Shrunk(lines, names, cap) == last;
      WholeLinesNamed(es, n, more, cap);
      StaysNamed(lines[..n], more, cap);
      assert k in last.omitted;
    }
  }

  lemma LineHasName(es: seq<Entry>, n: nat)
    requires Ordered(es) && n < |es|
    ensures es[n] in es && KEYS[es[n].key] + COLON <= es[n].line
  {
  }

  // ---- Where the lines stand ---------------------------------------------------------------

  /** Nothing supplied is lost when nothing is named as omitted: each section that says
      something stands in the text in full, behind its name and in its place. */
  lemma {:induction false} EverySectionStands(sections: seq<Text>, from: nat, key: nat)
    requires |sections| == |KEYS| && from <= key < |KEYS| && sections[key] != []
    ensures Entry(key, LineOf(key, sections[key])) in Entries(sections, from)
    decreases |KEYS| - from
  {
    hide LineOf;
    if from < key { EverySectionStands(sections, from + 1, key); }
  }

  /** The line at a place in the joined text. */
  lemma {:induction false} LineStands(ts: seq<Text>, i: nat) returns (at: nat)
    requires i < |ts|
    ensures at + |ts[i]| <= |Join(ts, NEWLINE)| && Join(ts, NEWLINE)[at..at + |ts[i]|] == ts[i]
    ensures at == if i == 0 then 0 else |Join(ts[..i], NEWLINE)| + 1
  {
    if |ts| == 1 {
      at := 0;
    } else {
      var front := ts[..|ts| - 1];
      if i < |ts| - 1 {
        at := LineStands(front, i);
        assert front[..i] == ts[..i];
        assert Join(ts, NEWLINE)[at..at + |ts[i]|] == Join(front, NEWLINE)[at..at + |ts[i]|];
      } else {
        at := |Join(front, NEWLINE)| + 1;
      }
    }
  }

  // ---- An example of both ------------------------------------------------------------------

  lemma {:induction false} NoEntries(sections: seq<Text>, from: nat)
    requires |sections| == |KEYS| && from <= |KEYS| && forall i | from <= i < |KEYS| :: sections[i] == []
    ensures Entries(sections, from) == []
    decreases |KEYS| - from
  {
    if from < |KEYS| { NoEntries(sections, from + 1); }
  }

  lemma NextEntry(sections: seq<Text>, from: nat)
    requires |sections| == |KEYS| && from < |KEYS| && sections[from] != []
    ensures Entries(sections, from) == [Entry(from, LineOf(from, sections[from]))] + Entries(sections, from + 1)
  {
  }

  lemma JoinOne(t: Text, separator: Text)
    ensures Join([t], separator) == t
  {
  }

  lemma JoinTwo(t: Text, t': Text, separator: Text)
    ensures Join([t, t'], separator) == t + separator + t'
  {
    assert [t, t'][..1] == [t];
    JoinOne(t, separator);
  }

  lemma MarkerLength(omitted: seq<Text>)
    ensures |Marker(omitted)| == 42 + |Join(omitted, Ascii(","))|
  {
    hide Join;
  }

  predicate IsExample(es: seq<Entry>) { es == [Entry(0, Ascii("objective: o")), Entry(1, Ascii("constraints: c"))] }

  /** An objective "o" and constraints "c", nothing else. */
  lemma ExampleEntries(sections: seq<Text>)
    requires |sections| == |KEYS| && sections[0] == Ascii("o") && sections[1] == Ascii("c")
    requires forall i | 2 <= i < |KEYS| :: sections[i] == []
    ensures IsExample(Entries(sections, 0))
  {
    hide Entries, LineOf;
    NextEntry(sections, 0);
    NextEntry(sections, 1);
    NoEntries(sections, 2);
    ExampleLines();
  }

  lemma ExampleLines()
    ensures LineOf(0, Ascii("o")) == Ascii("objective: o") && LineOf(1, Ascii("c")) == Ascii("constraints: c")
  {
  }

  /** In 60 characters the clipped constraints shrink to "con", are dropped and named so, and
      with that name in the marker the objective, first taken whole, is cut to "ob" unnamed. */
  lemma ObjectiveCutUnnamed(es: seq<Entry>)
    requires IsExample(es)
    ensures var names := [Ascii("con"), Ascii("constraints")];
      Preserved(es, 60) == Outcome(Ascii("ob") + NEWLINE + Marker(names), [Ascii("ob")], names)
  {
    hide Join, Marker, Selected, Shrunk;
    var con, constraints := Ascii("con"), Ascii("constraints");
    ExampleSelected(es);
    JoinOne(constraints, Ascii(","));
    MarkerLength([constraints]);
    ExampleShrunk();
    JoinTwo(con, constraints, Ascii(","));
    MarkerLength([con, constraints]);
    JoinOne(Ascii("ob"), NEWLINE);
  }

  lemma ExampleSelected(es: seq<Entry>)
    requires IsExample(es)
    ensures Selected(es, ContentCap(60)) == Choice([Ascii("objective: o"), Ascii("con")], [Ascii("constraints")])
  {
    assert es[1..] == [es[1]] && es[1].line[..3] == Ascii("con");
    assert ContentCap(60) == 16;
    assert Selected(es[1..], 3) == Choice([Ascii("con")], [Ascii("constraints")]);
  }

  lemma ExampleShrunk()
    ensures Shrunk([Ascii("objective: o"), Ascii("con")], [Ascii("constraints")], 60) == Choice([Ascii("ob")], [Ascii("con"), Ascii("constraints")])
  {
    hide Join, Marker, KeyOf;
    var objective, con, constraints := Ascii("objective: o"), Ascii("con"), Ascii("constraints");
    var lines := [objective, con];
    var alone := [objective];
    assert lines[..1] == alone && alone[..0] == [];
    JoinTwo(objective, con, NEWLINE);
    JoinOne(objective, NEWLINE);
    NoLines();
    JoinOne(constraints, Ascii(","));
    MarkerLength([constraints]);
    KeyOfCut(con, constraints);
    assert con != constraints;
    assert Popped(lines, [constraints]) == [con, constraints];
    JoinTwo(con, constraints, Ascii(","));
    MarkerLength([con, constraints]);
    assert RoomForLast(alone, [con, constraints], 60) == 2;
    assert Take(objective, 2) == Ascii("ob");
    assert alone[0 := Ascii("ob")] == [Ascii("ob")];
  }
}
