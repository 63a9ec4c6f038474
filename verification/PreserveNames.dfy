/**
 When a section of a squeezed context goes missing unnamed, in terms of lengths: where the
 shortening stops is the last place at which the room behind the lines before it still
 holds something beside the marker that names the rest.
 */
module PreserveNames {
  import opened Basics
  import opened Utf
  import opened Preserve
  import opened PreserveFacts

  /** What is left for one more line behind the first `m`, each with its line break, when the
      marker with these names follows. */
  function RoomBehind(es: seq<Entry>, m: nat, omitted: seq<Text>, cap: nat): int
    requires m <= |es|
  {
    cap - |Marker(omitted)| - 1 - Used(Lines(es)[..m])
  }

  /** The names of sections `k..n`, and the others behind them. */
  function NamesOf(es: seq<Entry>, k: nat, n: nat, others: seq<Text>): seq<Text>
    requires Ordered(es) && k <= n <= |es|
  {
    KeysWithin(es, k, n);
    Names(es[k..n]) + others
  }

  lemma KeysWithin(es: seq<Entry>, k: nat, n: nat)
    requires Ordered(es) && k <= n <= |es|
    ensures forall e | e in es[k..n] :: e.key < |KEYS|
  {
    assert forall e | e in es[k..n] :: e in es;
  }

  /** The room for line `k` when the lines behind it are gone and named. */
  function RoomFor(es: seq<Entry>, k: nat, n: nat, others: seq<Text>, cap: nat): int
    requires Ordered(es) && 0 < k <= n <= |es|
  {
    RoomBehind(es, k - 1, NamesOf(es, k, n, others), cap)
  }

  /** Line `k` is the last of the first `m` that has room at all, and not enough. */
  predicate EndsAt(es: seq<Entry>, k: nat, m: nat, n: nat, others: seq<Text>, cap: nat)
    requires Ordered(es) && 0 < k <= m <= n <= |es|
  {
    && 0 < RoomFor(es, k, n, others, cap) < |es[k - 1].line|
    && forall j | k < j <= m :: RoomFor(es, j, n, others, cap) <= 0
  }

  /** Some of the first `m` lines is that one. */
  predicate EndsWithin(es: seq<Entry>, m: nat, n: nat, others: seq<Text>, cap: nat)
    requires Ordered(es) && m <= n <= |es|
  {
    exists k | 0 < k <= m :: EndsAt(es, k, m, n, others, cap)
  }

  /** The name a dropped clip adds to those of the sections from the `n`th on. */
  function WithClip(clip: seq<Text>, names: seq<Text>): seq<Text> {
    if clip == [] then names else Popped(clip, names)
  }

  /** Lines were taken whole, and the room left behind them by the marker ends within one: the
      marker takes all of the text, or no part of a clipped line has room and the last whole
      line that has any is too long for it. */
  predicate LosesUnnamed(es: seq<Entry>, cap: nat)
    requires Ordered(es)
  {
    var n, clip := Fitting(es, ContentCap(cap)), Clip(es, ContentCap(cap));
    var names := NamesOf(es, n, |es|, []);
    && 0 < n < |es|
    && (|| |Marker(names)| > cap
        || (&& (clip != [] ==> RoomBehind(es, n, names, cap) <= 0)
            && EndsWithin(es, n, n, WithClip(clip, names), cap)))
  }

  lemma RoomOfLast(es: seq<Entry>, lines: seq<Text>, m: nat, omitted: seq<Text>, cap: nat)
    requires Ordered(es) && m <= |es| && |lines| == m + 1 && lines[..m] == Lines(es)[..m] && lines[m] != []
    ensures var room := RoomBehind(es, m, omitted, cap);
      && (MarkerFits(lines, omitted, cap) <==> |lines[m]| <= room)
      && (RoomForLast(lines, omitted, cap) > 0 <==> 0 < room < |lines[m]|)
  {
    hide Marker;
    JoinLength(lines);
    JoinLength(lines[..m]);
    LinesSpeak(es, m);
    if m > 0 {
      assert lines[..m][m - 1] in Lines(es)[..m];
      NonemptyJoin(lines[..m]);
    }
  }

  lemma NextName(es: seq<Entry>, k: nat, n: nat, others: seq<Text>)
    requires Ordered(es) && 0 < k <= n <= |es|
    ensures es[k - 1] in es && [KEYS[es[k - 1].key]] + NamesOf(es, k, n, others) == NamesOf(es, k - 1, n, others)
  {
    KeysWithin(es, k - 1, n);
    KeysWithin(es, k, n);
    KeyInRange(es, k - 1);
    assert es[k - 1..n][1..] == es[k..n] && es[k - 1..n][0] == es[k - 1];
    NamesFront(es[k - 1..n]);
  }

  /** Dropping whole lines one after another ends within line `k` for the largest `k` with room. */
  lemma {:induction false} CutsWithinExactly(es: seq<Entry>, m: nat, n: nat, others: seq<Text>, cap: nat)
    requires Ordered(es) && m <= n <= |es|
    ensures CutsWithin(es, m, NamesOf(es, m, n, others), cap) <==> EndsWithin(es, m, n, others, cap)
  {
    hide Ordered, MarkerFits, RoomForLast, NamesOf, RoomBehind;
    if m > 0 {
      var lines, names := Lines(es)[..m], NamesOf(es, m, n, others);
      assert lines[..m - 1] == Lines(es)[..m - 1];
      LineSpeaks(es, m - 1);
      RoomOfLast(es, lines, m - 1, names, cap);
      NextName(es, m, n, others);
      CutsWithinExactly(es, m - 1, n, others, cap);
      EndsEarlier(es, m, n, others, cap);
    }
  }

  lemma LineSpeaks(es: seq<Entry>, i: nat)
    requires Ordered(es) && i < |es|
    ensures es[i].line != []
  {
    assert es[i] in es;
  }

  lemma EndsEarlier(es: seq<Entry>, m: nat, n: nat, others: seq<Text>, cap: nat)
    requires Ordered(es) && 0 < m <= n <= |es|
    ensures var room := RoomFor(es, m, n, others, cap);
      EndsWithin(es, m, n, others, cap) <==>
        0 < room < |es[m - 1].line| || (room <= 0 && EndsWithin(es, m - 1, n, others, cap))
  {
    hide Ordered, RoomFor;
    var room := RoomFor(es, m, n, others, cap);
    if 0 < room < |es[m - 1].line| { assert EndsAt(es, m, m, n, others, cap); }
    if room <= 0 && EndsWithin(es, m - 1, n, others, cap) {
      var k :| 0 < k <= m - 1 && EndsAt(es, k, m - 1, n, others, cap);
      assert EndsAt(es, k, m, n, others, cap);
    }
    if EndsWithin(es, m, n, others, cap) {
      var k :| 0 < k <= m && EndsAt(es, k, m, n, others, cap);
      if k < m { assert EndsAt(es, k, m - 1, n, others, cap); }
    }
  }

  lemma CutsBeyondExactly(es: seq<Entry>, n: nat, clip: seq<Text>, names: seq<Text>, cap: nat)
    requires Ordered(es) && n <= |es| && |clip| <= 1 && (clip != [] ==> clip[0] != [])
    ensures CutsBeyond(es, n, clip, names, cap) <==>
      (clip != [] ==> RoomBehind(es, n, names, cap) <= 0) && EndsWithin(es, n, n, WithClip(clip, names), cap)
  {
    hide Ordered, MarkerFits, RoomForLast, RoomBehind, CutsWithin, EndsWithin, KeyOf;
    var others := WithClip(clip, names);
    CutsWithinExactly(es, n, n, others, cap);
    assert NamesOf(es, n, n, others) == others;
    if clip != [] {
      var lines := Lines(es)[..n] + clip;
      assert lines[..n] == Lines(es)[..n] && lines[n] == clip[0];
      RoomOfLast(es, lines, n, names, cap);
    }
  }

  /** Each section that does not stand in full is named beside the text exactly when the room
      behind the lines taken whole does not end within one of them. */
  lemma NamedExactly(es: seq<Entry>, cap: nat)
    requires Ordered(es) && cap > 0
    ensures var o := Preserved(es, cap);
      AllAccounted(es, o.lines, o.omitted) <==> !LosesUnnamed(es, cap)
  {
    hide Ordered, AllAccounted, Preserved, CutsBeyond, RoomBehind, EndsWithin, Clip, Fitting, WithClip, Marker;
    NamedUnlessCut(es, cap);
    var n, clip := Fitting(es, ContentCap(cap)), Clip(es, ContentCap(cap));
    ClipIsBeginning(es, ContentCap(cap));
    KeysWithin(es, n, |es|);
    assert es[n..] == es[n..|es|] && NamesOf(es, n, |es|, []) == Names(es[n..]);
    CutsBeyondExactly(es, n, clip, Names(es[n..]), cap);
    if n == 0 { NoLineEnds(es, WithClip(clip, Names(es[n..])), cap); }
  }

  lemma NoLineEnds(es: seq<Entry>, others: seq<Text>, cap: nat)
    requires Ordered(es)
    ensures !EndsWithin(es, 0, 0, others, cap)
  {
  }

  // ---- What is taken ---------------------------------------------------------------------------

  /** The sections go by these names, in this order of importance. */
  lemma TheNames()
    ensures KEYS == [Ascii("objective"), Ascii("constraints"), Ascii("active_state"), Ascii("evidence"), Ascii("next_action"), Ascii("optional")]
    ensures forall key: nat, section | key < 6 :: LineOf(key, section) == KEYS[key] + Ascii(": ") + section
    ensures forall omitted :: Marker(omitted) == Ascii("...[truncated; retrieve omitted context: ") + Join(omitted, Ascii(",")) + Ascii("]")
  {
  }

  /** Content gets what a marker with a name of one character and a line break leave. */
  lemma ContentRoom(cap: nat)
    ensures ContentCap(cap) == if cap > 44 then cap - 44 else 0
  {
  }

  lemma {:induction false} FittingIsMost(es: seq<Entry>, room: nat)
    requires Ordered(es)
    ensures var n := Fitting(es, room);
      Used(Lines(es)[..n]) <= room + 1 && (n < |es| ==> Used(Lines(es)[..n]) + |es[n].line| > room)
  {
    hide Ordered;
    if es != [] && |es[0].line| <= room {
      var n, room' := Fitting(es, room), room as int - |es[0].line| - 1;
      OrderedTail(es, 1);
      UsedPrefix(es, n);
      if room' >= 0 {
        FittingIsMost(es[1..], room');
      } else {
        NoneFits(es[1..], room');
      }
    } else {
      assert Lines(es)[..0] == [];
    }
  }

  lemma NoneFits(es: seq<Entry>, room: int)
    requires Ordered(es) && room < 0
    ensures Fitting(es, room) == 0 && Used(Lines(es)[..0]) == 0
  {
  }

  lemma UsedPrefix(es: seq<Entry>, n: nat)
    requires 0 < n <= |es|
    ensures Used(Lines(es)[..n]) == |es[0].line| + 1 + Used(Lines(es[1..])[..n - 1])
  {
    UsedFront(Lines(es)[..n]);
    assert Lines(es)[..n][1..] == Lines(es[1..])[..n - 1];
  }

  /** The forward pass takes lines whole while they fit into the room for content, and clips the
      next one to what is left of it; only optional commentary is never clipped. */
  lemma SelectionExactly(es: seq<Entry>, room: nat)
    requires Ordered(es)
    ensures var n, clip := Fitting(es, room), Clip(es, room);
      var left := room - Used(Lines(es)[..n]);
      && left >= -1 && (n < |es| ==> |es[n].line| > left)
      && clip == if n < |es| && left > 0 && KEYS[KeyAt(es, n)] != Ascii("optional") then [es[n].line[..left]] else []
  {
    FittingIsMost(es, room);
    ClipIs(es, room);
    TheNames();
    hide Ordered, Fitting, Clip;
    var n := Fitting(es, room);
    if n < |es| {
      KeyInRange(es, n);
      OnlyOptional(es[n].key);
    }
  }

  function KeyAt(es: seq<Entry>, n: nat): nat
    requires Ordered(es) && n < |es|
    ensures KeyAt(es, n) < |KEYS|
  {
    KeyInRange(es, n);
    es[n].key
  }

  lemma OnlyOptional(key: nat)
    requires key < |KEYS|
    ensures KEYS[key] == Ascii("optional") <==> key == OPTIONAL
  {
    KeysDifferAt(key);
  }

  lemma KeysDifferAt(key: nat)
    requires key < |KEYS|
    ensures KEYS[key] == KEYS[OPTIONAL] ==> key == OPTIONAL
  {
    if KEYS[key] == KEYS[OPTIONAL] { KeysDiffer(key, OPTIONAL, KEYS[key]); }
  }

  lemma {:induction false} ClipIs(es: seq<Entry>, room: int)
    requires Ordered(es) && room >= -1
    ensures var n := Fitting(es, room);
      var left := room - Used(Lines(es)[..n]);
      Clip(es, room) == if n < |es| && left > 0 && es[n].key != OPTIONAL && |es[n].line| >= left then [es[n].line[..left]] else []
  {
    hide Ordered, Used, Lines;
    if es != [] && |es[0].line| <= room {
      OrderedTail(es, 1);
      WholeFirst(es, room);
      hide Clip, Fitting;
      UsedPrefix(es, Fitting(es, room));
      ClipIs(es[1..], room - |es[0].line| - 1);
    } else {
      NoneFirst(es, room);
    }
  }

  lemma NoneFirst(es: seq<Entry>, room: int)
    requires es == [] || |es[0].line| > room
    ensures Fitting(es, room) == 0 && Used(Lines(es)[..0]) == 0
    ensures Clip(es, room) == if es != [] && room > 0 && es[0].key != OPTIONAL then [es[0].line[..room]] else []
  {
  }

  lemma WholeFirst(es: seq<Entry>, room: int)
    requires es != [] && |es[0].line| <= room
    ensures var n, room' := Fitting(es, room), room - |es[0].line| - 1;
      n == 1 + Fitting(es[1..], room') && Clip(es, room) == Clip(es[1..], room') && (n < |es| ==> es[1..][n - 1] == es[n])
  {
  }

  /** No section is named twice. */
  lemma NamesDiffer(es: seq<Entry>, cap: nat)
    requires Ordered(es)
    ensures Distinct(Preserved(es, cap).omitted)
  {
    KeysInRange(es);
    hide Ordered, Shrunk, Fitting, Clip, Join, Marker, Preserved;
    if cap == 0 || es == [] {
      NothingPreserved(es, cap);
    } else {
      PreservedParts(es, cap);
      var n := Fitting(es, ContentCap(cap));
      OrderedTail(es, n);
      OwnNamesDiffer(es[n..]);
      ShrunkDistinct(Lines(es)[..n] + Clip(es, ContentCap(cap)), Names(es[n..]), cap);
    }
  }

  lemma OwnNamesDiffer(es: seq<Entry>)
    requires Ordered(es) && forall e | e in es :: e.key < |KEYS|
    ensures Distinct(Names(es))
  {
    var names := Names(es);
    forall i, j | 0 <= i < j < |names| ensures names[i] != names[j] {
      assert es[i] in es && es[j] in es;
      if names[i] == names[j] { KeysDiffer(es[i].key, es[j].key, names[i]); }
    }
  }

  lemma {:induction false} ShrunkDistinct(lines: seq<Text>, omitted: seq<Text>, cap: nat)
    requires Distinct(omitted)
    ensures Distinct(Shrunk(lines, omitted, cap).omitted)
    decreases |lines|
  {
    hide Marker, KeyOf, Join, MarkerFits, RoomForLast;
    if lines != [] {
      ShrunkDistinct(lines[..|lines| - 1], Popped(lines, omitted), cap);
    }
  }

  // ---- No room is wasted -------------------------------------------------------------------------

  /** Shortening leaves lines as they were, or fills the room to the last character. */
  lemma {:induction false} ShrunkIsFull(lines: seq<Text>, omitted: seq<Text>, cap: nat)
    requires forall t | t in lines :: t != []
    ensures var o := Shrunk(lines, omitted, cap);
      || (|o.lines| <= |lines| && o.lines == lines[..|o.lines|])
      || |Join(o.lines, NEWLINE)| + 1 + |Marker(o.omitted)| == cap
    decreases |lines|
  {
    hide Marker, KeyOf, Popped, Join, MarkerFits, RoomForLast;
    if lines != [] && !MarkerFits(lines, omitted, cap) {
      if RoomForLast(lines, omitted, cap) > 0 {
        CutFits(lines, omitted, cap);
      } else {
        var front := lines[..|lines| - 1];
        assert forall t | t in front :: t in lines;
        ShrunkIsFull(front, Popped(lines, omitted), cap);
        var n := |Shrunk(front, Popped(lines, omitted), cap).lines|;
        assert n <= |front| ==> front[..n] == lines[..n];
      }
    }
  }

  /** When a line stands cut short behind the others, the text with its marker takes all the room. */
  lemma CutTextIsFull(es: seq<Entry>, cap: nat)
    requires Ordered(es)
    ensures var o := Preserved(es, cap);
      && |o.lines| <= |es|
      && (o.lines != [] && o.omitted != [] && o.lines[|o.lines| - 1] != es[|o.lines| - 1].line ==> |o.text| == cap)
  {
    hide Ordered, Shrunk, Fitting, Clip, Join, Marker, Preserved, Lines, Beginnings;
    KeysInRange(es);
    KeepsBeginnings(es, cap);
    BeginningsFit(Preserved(es, cap).lines, Lines(es));
    TextAndMarker(es, cap);
    if cap > 0 && es != [] { FullAfterShrinking(es, cap); } else { NothingPreserved(es, cap); }
  }

  lemma BeginningsFit(lines: seq<Text>, of: seq<Text>)
    requires Beginnings(lines, of)
    ensures |lines| <= |of|
  {
  }

  lemma NothingPreserved(es: seq<Entry>, cap: nat)
    requires Ordered(es) && (cap == 0 || es == [])
    ensures Preserved(es, cap) == Outcome([], [], [])
  {
  }

  lemma FullAfterShrinking(es: seq<Entry>, cap: nat)
    requires Ordered(es) && cap > 0 && es != []
    ensures var o := Preserved(es, cap);
      o.lines != [] && o.omitted != [] && |o.lines| <= |es| && o.lines[|o.lines| - 1] != es[|o.lines| - 1].line ==> |o.text| == cap
  {
    hide Ordered, Shrunk, Fitting, Clip, Join, Marker, Preserved, MarkerFits;
    KeysInRange(es);
    PreservedParts(es, cap);
    var n, clip := Fitting(es, ContentCap(cap)), Clip(es, ContentCap(cap));
    ClipIsBeginning(es, ContentCap(cap));
    if n < |es| {
      var names := Names(es[n..]);
      var lines := Lines(es)[..n] + clip;
      LinesSpeak(es, n);
      if |Marker(names)| <= cap {
        ShrunkIsFull(lines, names, cap);
        ClipShrinks(es, cap);
      }
    }
  }

  lemma {:induction false} UsedLast(ts: seq<Text>, t: Text)
    ensures Used(ts + [t]) == Used(ts) + |t| + 1
  {
    assert (ts + [t])[..|ts|] == ts;
  }

  lemma NamesAreLong(key: nat)
    requires key < |KEYS|
    ensures |KEYS[key]| >= 8
  {
  }

  lemma JoinHasLast(ts: seq<Text>, separator: Text)
    requires ts != []
    ensures |Join(ts, separator)| >= |ts[|ts| - 1]|
  {
  }

  lemma MarkerIsLong(es: seq<Entry>)
    requires Ordered(es) && es != [] && forall e | e in es :: e.key < |KEYS|
    ensures |Marker(Names(es))| >= 50
  {
    KeyInRange(es, |es| - 1);
    NamesAreLong(es[|es| - 1].key);
    JoinHasLast(Names(es), Ascii(","));
    MarkerLength(Names(es));
    hide Marker, Join;
  }

  /** A clipped line never fits beside the marker as it was clipped. */
  lemma ClipDoesNotFit(es: seq<Entry>, cap: nat)
    requires Ordered(es) && Clip(es, ContentCap(cap)) != []
    ensures var n, clip := Fitting(es, ContentCap(cap)), Clip(es, ContentCap(cap));
      n < |es| && (forall e | e in es[n..] :: e.key < |KEYS|) && !MarkerFits(Lines(es)[..n] + clip, Names(es[n..]), cap)
  {
    hide Ordered, Fitting, Clip, Marker, Join, Used, Names;
    var room := ContentCap(cap);
    var n, clip := Fitting(es, room), Clip(es, room);
    SelectionExactly(es, room);
    ContentRoom(cap);
    ClipIsBeginning(es, room);
    OrderedTail(es, n);
    KeysInRange(es[n..]);
    MarkerIsLong(es[n..]);
    UsedLast(Lines(es)[..n], clip[0]);
    assert Lines(es)[..n] + clip == Lines(es)[..n] + [clip[0]];
    JoinLength(Lines(es)[..n] + clip);
  }

  lemma ClipShrinks(es: seq<Entry>, cap: nat)
    requires Ordered(es) && Fitting(es, ContentCap(cap)) < |es| && forall e | e in es[Fitting(es, ContentCap(cap))..] :: e.key < |KEYS|
    ensures var n, clip := Fitting(es, ContentCap(cap)), Clip(es, ContentCap(cap));
      clip != [] ==> Shrunk(Lines(es)[..n] + clip, Names(es[n..]), cap).lines != Lines(es)[..n] + clip
  {
    hide Ordered, Fitting, Clip, Join, Marker, MarkerFits, RoomForLast, Names;
    var room := ContentCap(cap);
    var n, clip := Fitting(es, room), Clip(es, room);
    if clip != [] {
      ClipDoesNotFit(es, cap);
      ClipIsBeginning(es, room);
      ShrunkDiffers(es, n, clip, Names(es[n..]), cap);
    }
  }

  lemma ShrunkDiffers(es: seq<Entry>, n: nat, clip: seq<Text>, names: seq<Text>, cap: nat)
    requires Ordered(es) && n < |es| && |clip| == 1 && clip[0] != [] && !MarkerFits(Lines(es)[..n] + clip, names, cap)
    ensures Shrunk(Lines(es)[..n] + clip, names, cap).lines != Lines(es)[..n] + clip
  {
    hide Ordered, Join, Marker, MarkerFits, RoomForLast, Popped;
    var lines := Lines(es)[..n] + clip;
    LinesSpeak(es, n);
    if RoomForLast(lines, names, cap) > 0 {
      CutFits(lines, names, cap);
    } else {
      assert forall t | t in lines[..n] :: t in lines;
      ShrunkShorter(lines[..n], Popped(lines, names), cap);
    }
  }

  lemma {:induction false} ShrunkShorter(lines: seq<Text>, omitted: seq<Text>, cap: nat)
    ensures |Shrunk(lines, omitted, cap).lines| <= |lines|
    decreases |lines|
  {
    hide Join, Marker, MarkerFits, RoomForLast, Popped;
    if lines != [] { ShrunkShorter(lines[..|lines| - 1], Popped(lines, omitted), cap); }
  }
}
