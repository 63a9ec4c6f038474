/**
 The contents of a file after hunks were applied, rebuilt line by line from the hunks' own
 places: at every place what is inserted there, then either what replaces the lines from
 there on, or the line itself.
 */
module Rebuilding {
  import opened Utf
  import opened Lines
  import opened StableSort
  import opened Stitching
  import opened Hunks
  import opened Apply
  import opened EditFacts
  import opened Places

  function NewLines(h: Hunk): seq<Text> {
    match h
    case Replace(_, _, body, _) => body
    case Delete(_, _, _) => []
    case Insert(_, _, body, _) => body
  }

  /** What is inserted with `p` lines of the file before it. */
  function InsertedAt(hunks: seq<Hunk>, n: nat, p: int): seq<Text> {
    if hunks == [] then []
    else if hunks[0].Insert? && Ahead(hunks[0], n) == p then NewLines(hunks[0])
    else InsertedAt(hunks[1..], n, p)
  }

  /** The hunk that takes away the lines from there on. */
  function TakingFrom(hunks: seq<Hunk>, n: nat, p: int): Option<Hunk> {
    if hunks == [] then None
    else if !hunks[0].Insert? && Ahead(hunks[0], n) == p then Some(hunks[0])
    else TakingFrom(hunks[1..], n, p)
  }

  function Rebuilt(base: seq<Text>, hunks: seq<Hunk>, p: nat): seq<Text>
    requires p <= |base|
    decreases |base| - p, 1
  {
    InsertedAt(hunks, |base|, p) + Beyond(base, hunks, p)
  }

  function Beyond(base: seq<Text>, hunks: seq<Hunk>, p: nat): seq<Text>
    requires p <= |base|
    decreases |base| - p, 0
  {
    if p == |base| then []
    else
      match TakingFrom(hunks, |base|, p)
      case Some(h) => if 0 < Width(h) <= |base| - p then NewLines(h) + Rebuilt(base, hunks, p + Width(h)) else []
      case None => [base[p]] + Rebuilt(base, hunks, p + 1)
  }

  // ---- Rebuilding is stitching -------------------------------------------------------------

  function Placed(h: Hunk, n: nat): Op
    requires ValidHunk(h) && InFile(h, n)
  {
    Op(Ahead(h, n), Ahead(h, n) + Width(h), h)
  }

  predicate InFiles(hunks: seq<Hunk>, n: nat) { AllValid(hunks) && forall h | h in hunks :: InFile(h, n) }

  /** The ranges still to come are those of the hunks that begin at `p` or later; once what is
      inserted at `p` is done, without it. */
  ghost predicate ToCome(hunks: seq<Hunk>, rest: seq<Op>, n: nat, p: int, done: bool)
    requires InFiles(hunks, n)
  {
    && (forall op | op in rest :: op.hunk in hunks && op == Placed(op.hunk, n))
    && (forall h | h in hunks :: Placed(h, n) in rest <==> Ahead(h, n) > p || (Ahead(h, n) == p && !(done && h.Insert?)))
    && Adjacent(rest)
  }

  lemma AdjacentTail(rest: seq<Op>)
    requires Adjacent(rest) && rest != [] && forall op | op in rest :: op.start <= op.end
    ensures Adjacent(rest[1..])
    ensures forall op | op in rest[1..] :: rest[0].end <= op.start && !SamePlace(rest[0], op) && op != rest[0]
  {
    forall i | 1 <= i < |rest| ensures rest[0].end <= rest[i].start && !SamePlace(rest[0], rest[i]) && rest[i] != rest[0] {
      AdjacentAscend(rest, 0, i);
      assert rest[i] in rest && rest[0] in rest;
    }
    forall k | 1 <= k < |rest[1..]| ensures rest[1..][k - 1].end <= rest[1..][k].start && !SamePlace(rest[1..][k - 1], rest[1..][k]) {
      assert rest[k + 1 - 1].end <= rest[k + 1].start;
    }
  }

  lemma {:induction false} NothingInserted(hunks: seq<Hunk>, n: nat, p: int)
    requires forall h | h in hunks :: !(h.Insert? && Ahead(h, n) == p)
    ensures InsertedAt(hunks, n, p) == []
  {
    hide Ahead;
    if hunks != [] { NothingInserted(hunks[1..], n, p); }
  }

  lemma {:induction false} OneInserted(hunks: seq<Hunk>, n: nat, p: int, h: Hunk)
    requires h in hunks && h.Insert? && Ahead(h, n) == p && forall x | x in hunks && x.Insert? && Ahead(x, n) == p :: x == h
    ensures InsertedAt(hunks, n, p) == NewLines(h)
  {
    hide Ahead;
    if hunks[0] != h {
      assert h in hunks[1..];
      OneInserted(hunks[1..], n, p, h);
    }
  }

  lemma {:induction false} NoneTaking(hunks: seq<Hunk>, n: nat, p: int)
    requires forall h | h in hunks :: h.Insert? || Ahead(h, n) != p
    ensures TakingFrom(hunks, n, p) == None
  {
    hide Ahead;
    if hunks != [] { NoneTaking(hunks[1..], n, p); }
  }

  lemma {:induction false} OneTaking(hunks: seq<Hunk>, n: nat, p: int, h: Hunk)
    requires h in hunks && !h.Insert? && Ahead(h, n) == p && forall x | x in hunks && !x.Insert? && Ahead(x, n) == p :: x == h
    ensures TakingFrom(hunks, n, p) == Some(h)
  {
    hide Ahead;
    if hunks[0] != h {
      assert h in hunks[1..];
      OneTaking(hunks[1..], n, p, h);
    }
  }

  lemma PlacedBounds(h: Hunk, n: nat)
    requires ValidHunk(h) && InFile(h, n)
    ensures var op := Placed(h, n); op.start == Ahead(h, n) <= op.end <= n && (op.start == op.end <==> h.Insert?)
    ensures Width(h) == Placed(h, n).end - Placed(h, n).start && HunkBody(Placed(h, n)) == NewLines(h)
  {
  }

  lemma ToComeBounds(hunks: seq<Hunk>, rest: seq<Op>, n: nat, p: int, done: bool)
    requires InFiles(hunks, n) && ToCome(hunks, rest, n, p, done)
    ensures forall op | op in rest :: p <= op.start <= op.end <= n && (op.start == op.end <==> op.hunk.Insert?)
    ensures forall h | h in hunks :: ValidHunk(h) && InFile(h, n)
    ensures rest != [] ==> rest[0] in rest && AllAfter(rest)
  {
    hide Ahead, Width;
    forall op | op in rest ensures p <= op.start <= op.end <= n && (op.start == op.end <==> op.hunk.Insert?) {
      PlacedBounds(op.hunk, n);
    }
    if rest != [] { AdjacentTail(rest); }
  }

  /** All but the first come behind it. */
  predicate AllAfter(rest: seq<Op>) {
    rest != [] ==> Adjacent(rest[1..]) && forall op | op in rest[1..] :: rest[0].end <= op.start && !SamePlace(rest[0], op) && op != rest[0]
  }

  /** Taking out the first of the ranges to come. */
  lemma FirstOut(hunks: seq<Hunk>, rest: seq<Op>, n: nat, p: int, done: bool)
    requires InFiles(hunks, n) && rest != [] && ToCome(hunks, rest, n, p, done)
    requires rest[0].start == p && (done ==> !rest[0].hunk.Insert?)
    ensures rest[0].hunk.Insert? ==> ToCome(hunks, rest[1..], n, p, true)
    ensures !rest[0].hunk.Insert? ==> ToCome(hunks, rest[1..], n, rest[0].end, false)
  {
    hide Ahead, Width;
    ToComeBounds(hunks, rest, n, p, done);
    var first, tail := rest[0], rest[1..];
    assert forall op :: op in rest <==> op == first || op in tail;
    forall h | h in hunks
      ensures Placed(h, n) in tail <==>
        if first.hunk.Insert? then Ahead(h, n) > p || (Ahead(h, n) == p && !h.Insert?) else Ahead(h, n) >= first.end
    {
      PlacedBounds(h, n);
      if Placed(h, n) == first { assert h == first.hunk; }
    }
  }

  lemma Passing(hunks: seq<Hunk>, rest: seq<Op>, n: nat, p: int)
    requires InFiles(hunks, n) && ToCome(hunks, rest, n, p, true) && (rest == [] || rest[0].start > p)
    ensures ToCome(hunks, rest, n, p + 1, false) && forall h | h in hunks :: h.Insert? || Ahead(h, n) != p
  {
    hide Ahead, Width;
    ToComeBounds(hunks, rest, n, p, true);
    forall h | h in hunks ensures Placed(h, n) in rest ==> Ahead(h, n) > p {
      PlacedBounds(h, n);
      if Placed(h, n) in rest && rest != [] {
        assert Placed(h, n) == rest[0] || Placed(h, n) in rest[1..];
      }
    }
  }

  /** Nothing more is inserted at `p`. */
  lemma NoInsertion(hunks: seq<Hunk>, rest: seq<Op>, n: nat, p: int)
    requires InFiles(hunks, n) && ToCome(hunks, rest, n, p, false) && (rest == [] || !(rest[0].hunk.Insert? && rest[0].start == p))
    ensures ToCome(hunks, rest, n, p, true) && forall h | h in hunks :: !(h.Insert? && Ahead(h, n) == p)
  {
    hide Ahead, Width;
    ToComeBounds(hunks, rest, n, p, false);
    assert forall op :: op in rest <==> rest != [] && (op == rest[0] || op in rest[1..]);
    forall h | h in hunks ensures !(h.Insert? && Ahead(h, n) == p) { PlacedBounds(h, n); }
  }

  lemma OnlyFirst(hunks: seq<Hunk>, rest: seq<Op>, n: nat, p: int, done: bool)
    requires InFiles(hunks, n) && rest != [] && ToCome(hunks, rest, n, p, done)
    requires rest[0].start == p && (done ==> !rest[0].hunk.Insert?)
    ensures rest[0].hunk in hunks && Ahead(rest[0].hunk, n) == p
    ensures forall x | x in hunks && x.Insert? == rest[0].hunk.Insert? && Ahead(x, n) == p :: x == rest[0].hunk
  {
    hide Ahead, Width;
    ToComeBounds(hunks, rest, n, p, done);
    PlacedBounds(rest[0].hunk, n);
    assert forall op :: op in rest <==> op == rest[0] || op in rest[1..];
    forall x | x in hunks && x.Insert? == rest[0].hunk.Insert? && Ahead(x, n) == p ensures x == rest[0].hunk {
      PlacedBounds(x, n);
      assert Placed(x, n) in rest;
    }
  }

  /** From `p` on, rebuilding gives what stitching gives. */
  lemma {:induction false} RebuiltIsStitch(base: seq<Text>, hunks: seq<Hunk>, rest: seq<Op>, p: nat)
    requires p <= |base| && InFiles(hunks, |base|) && ToCome(hunks, rest, |base|, p, false)
    requires Chain(ContentEdits(rest), p, |base|)
    ensures Rebuilt(base, hunks, p) == Stitch(base, ContentEdits(rest), p)
    decreases |base| - p, 1
  {
    hide ToCome, InFiles, Ahead, InsertedAt, Beyond;
    var n := |base|;
    if rest != [] && rest[0].hunk.Insert? && rest[0].start == p {
      OnlyFirst(hunks, rest, n, p, false);
      OneInserted(hunks, n, p, rest[0].hunk);
      FirstOut(hunks, rest, n, p, false);
      InsertionFirst(hunks, rest, base, p);
      BeyondIsStitch(base, hunks, rest[1..], p);
    } else {
      NoInsertion(hunks, rest, n, p);
      NothingInserted(hunks, n, p);
      BeyondIsStitch(base, hunks, rest, p);
    }
  }

  lemma InsertionFirst(hunks: seq<Hunk>, rest: seq<Op>, base: seq<Text>, p: nat)
    requires p <= |base| && InFiles(hunks, |base|) && rest != [] && ToCome(hunks, rest, |base|, p, false)
    requires rest[0].hunk.Insert? && rest[0].start == p && Chain(ContentEdits(rest), p, |base|)
    ensures Chain(ContentEdits(rest[1..]), p, |base|)
    ensures Stitch(base, ContentEdits(rest), p) == NewLines(rest[0].hunk) + Stitch(base, ContentEdits(rest[1..]), p)
  {
    hide Chain, Stitch, ContentEdits, Ahead, Width, InFile;
    ToComeBounds(hunks, rest, |base|, p, false);
    hide ToCome, InFiles;
    TailEdits(rest);
    StitchFirst(base, ContentEdits(rest), p);
  }

  lemma StitchFirst<T>(base: seq<T>, edits: seq<Edit<T>>, p: nat)
    requires edits != [] && Chain(edits, p, |base|) && edits[0].start == p
    ensures edits[0].end <= |base| && Chain(edits[1..], edits[0].end, |base|)
    ensures Stitch(base, edits, p) == edits[0].body + Stitch(base, edits[1..], edits[0].end)
  {
    assert base[p..p] == [];
  }

  lemma TailEdits(rest: seq<Op>)
    requires rest != []
    ensures ContentEdits(rest) != [] && ContentEdits(rest)[1..] == ContentEdits(rest[1..])
    ensures ContentEdits(rest)[0] == Edit(rest[0].start, rest[0].end, NewLines(rest[0].hunk))
  {
  }

  lemma {:induction false} BeyondIsStitch(base: seq<Text>, hunks: seq<Hunk>, rest: seq<Op>, p: nat)
    requires p <= |base| && InFiles(hunks, |base|) && ToCome(hunks, rest, |base|, p, true)
    requires Chain(ContentEdits(rest), p, |base|)
    ensures Beyond(base, hunks, p) == Stitch(base, ContentEdits(rest), p)
    decreases |base| - p, 0
  {
    hide ToCome, InFiles, Ahead, Rebuilt, TakingFrom;
    var n := |base|;
    ToComeBounds(hunks, rest, n, p, true);
    NotInserted(hunks, rest, n, p);
    if rest != [] && rest[0].start == p {
      OnlyFirst(hunks, rest, n, p, true);
      OneTaking(hunks, n, p, rest[0].hunk);
      FirstOut(hunks, rest, n, p, true);
      TakenFirst(hunks, rest, base, p);
      RebuiltIsStitch(base, hunks, rest[1..], rest[0].end);
    } else {
      Passing(hunks, rest, n, p);
      NoneTaking(hunks, n, p);
      if p == n {
        assert rest == [];
      } else {
        LineFirst(rest, base, p);
        RebuiltIsStitch(base, hunks, rest, p + 1);
      }
    }
  }

  lemma NotInserted(hunks: seq<Hunk>, rest: seq<Op>, n: nat, p: int)
    requires InFiles(hunks, n) && ToCome(hunks, rest, n, p, true)
    ensures rest != [] && rest[0].start == p ==> !rest[0].hunk.Insert?
  {
    hide Ahead;
    if rest != [] {
      assert rest[0] in rest;
      PlacedBounds(rest[0].hunk, n);
    }
  }

  lemma TakenFirst(hunks: seq<Hunk>, rest: seq<Op>, base: seq<Text>, p: nat)
    requires p <= |base| && InFiles(hunks, |base|) && rest != [] && ToCome(hunks, rest, |base|, p, true)
    requires !rest[0].hunk.Insert? && rest[0].start == p && Chain(ContentEdits(rest), p, |base|)
    ensures p < rest[0].end <= |base| && Width(rest[0].hunk) == rest[0].end - p && Chain(ContentEdits(rest[1..]), rest[0].end, |base|)
    ensures Stitch(base, ContentEdits(rest), p) == NewLines(rest[0].hunk) + Stitch(base, ContentEdits(rest[1..]), rest[0].end)
  {
    hide Chain, Stitch, ContentEdits, Ahead, Width, InFile;
    ToComeBounds(hunks, rest, |base|, p, true);
    assert rest[0].hunk in hunks && rest[0] == Placed(rest[0].hunk, |base|);
    PlacedBounds(rest[0].hunk, |base|);
    hide ToCome, InFiles;
    TailEdits(rest);
    StitchFirst(base, ContentEdits(rest), p);
  }

  lemma LineFirst(rest: seq<Op>, base: seq<Text>, p: nat)
    requires p < |base| && Chain(ContentEdits(rest), p, |base|) && (rest == [] || rest[0].start > p)
    ensures Chain(ContentEdits(rest), p + 1, |base|)
    ensures Stitch(base, ContentEdits(rest), p) == [base[p]] + Stitch(base, ContentEdits(rest), p + 1)
  {
    if rest != [] { TailEdits(rest); }
    StitchSplit(base, ContentEdits(rest), p, p + 1);
    assert base[p..p + 1] == [base[p]];
  }

  /** Whatever hunks are applied, the contents afterwards are the file rebuilt from their places;
      the byte-order mark stays. */
  lemma AppliedIsRebuilt(doc: Document, hunks: seq<Hunk>)
    requires AllValid(hunks) && Apply.Apply(doc, hunks).Ok?
    ensures var result := Apply.Apply(doc, hunks).value.document;
      Contents(result.lines) == Rebuilt(Contents(doc.lines), hunks, 0) && result.bom == doc.bom
  {
    hide Ahead, Width, InFile, Rebuilt, OpsFor, Prepare, EditedLines;
    var ops := AppliedIsEdit(doc, hunks);
    var n, base := |doc.lines|, Contents(doc.lines);
    SplicingIsStitching(doc.lines, ops);
    OpsForPlaces(hunks, n);
    AllToCome(hunks, ops, n);
    RebuiltIsStitch(base, hunks, ops, 0);
  }

  lemma AllToCome(hunks: seq<Hunk>, ops: seq<Op>, n: nat)
    requires AllValid(hunks) && OpsFor(hunks, n).Ok? && multiset(ops) == multiset(OpsFor(hunks, n).value) && Accepted(ops, n)
    requires forall h | h in hunks :: InFile(h, n)
    ensures InFiles(hunks, n) && ToCome(hunks, ops, n, 0, false)
  {
    hide Ahead, Width, InFile, OpsFor;
    var unsorted := OpsFor(hunks, n).value;
    forall op ensures op in ops <==> op in unsorted { assert op in multiset(ops) <==> op in multiset(unsorted); }
    forall k | 0 <= k < |hunks| ensures unsorted[k] == Placed(hunks[k], n) && hunks[k] in hunks {
      assert OpFor(hunks[k], n) == Ok(unsorted[k]);
      OpForPlace(hunks[k], n);
    }
    forall op | op in ops ensures op.hunk in hunks && op == Placed(op.hunk, n) {
      var k :| 0 <= k < |unsorted| && unsorted[k] == op;
    }
    forall h | h in hunks ensures Placed(h, n) in ops && Ahead(h, n) >= 0 {
      var k :| 0 <= k < |hunks| && hunks[k] == h;
      assert unsorted[k] in unsorted;
    }
  }

  // ---- One hunk ----------------------------------------------------------------------------

  lemma OneHunk(doc: Document, h: Hunk)
    requires ValidHunk(h) && h.source.None?
    ensures AllValid([h])
    ensures var n, base, r := |doc.lines|, Contents(doc.lines), Apply.Apply(doc, [h]);
      && (r.Ok? <==> InFile(h, n))
      && (r.Ok? ==> 0 <= Ahead(h, n) <= Ahead(h, n) + Width(h) <= n)
      && (r.Ok? ==> Contents(r.value.document.lines) == base[..Ahead(h, n)] + NewLines(h) + base[Ahead(h, n) + Width(h)..])
  {
    hide Ahead, Width, InFile, OpsFor, Prepare, EditedLines;
    var n, base := |doc.lines|, Contents(doc.lines);
    AcceptsExactly(doc.lines, [h]);
    if Apply.Apply(doc, [h]).Ok? {
      var ops := AppliedIsEdit(doc, [h]);
      OpForPlace(h, n);
      PlacedBounds(h, n);
      assert OpFor([h][0], n) == Ok(OpsFor([h], n).value[0]);
      OnlyOne(ops, OpsFor([h], n).value);
      SplicingIsStitching(doc.lines, ops);
      StitchOnce(base, ContentEdits(ops)[0]);
      assert ContentEdits(ops) == [ContentEdits(ops)[0]];
    }
  }

  lemma OnlyOne(a: seq<Op>, b: seq<Op>)
    requires multiset(a) == multiset(b) && |b| == 1
    ensures a == b
  {
    assert |a| == |multiset(a)| == |multiset(b)| == 1;
    assert a[0] in multiset(a);
    assert a[0] in b;
  }

  lemma StitchOnce(base: seq<Text>, e: Edit<Text>)
    requires Chain([e], 0, |base|)
    ensures Stitch(base, [e], 0) == base[..e.start] + e.body + base[e.end..]
  {
    assert [e][1..] == [];
    assert base[0..e.start] == base[..e.start];
  }

  /** Where one insertion goes: at the head, at the tail, before the named line or after it; the
      last two exactly when the line is there. */
  lemma OneInsertion(doc: Document, pos: Pos, line: nat, body: seq<Text>)
    ensures AllValid([Insert(pos, line, body, None)])
    ensures var base, r := Contents(doc.lines), Apply.Apply(doc, [Insert(pos, line, body, None)]);
      && (r.Ok? <==> pos == Head || pos == Tail || 1 <= line <= |base|)
      && (r.Ok? ==>
            var k := match pos case Head => 0 case Tail => |base| case Before => line - 1 case After => line;
            Contents(r.value.document.lines) == base[..k] + body + base[k..])
  {
    hide Apply.Apply;
    OneHunk(doc, Insert(pos, line, body, None));
  }

  /** What replacing lines does, exactly when they are there. */
  lemma OneReplacement(doc: Document, start: nat, end: nat, body: seq<Text>)
    requires 1 <= start <= end
    ensures AllValid([Replace(start, end, body, None)])
    ensures var base, r := Contents(doc.lines), Apply.Apply(doc, [Replace(start, end, body, None)]);
      (r.Ok? <==> end <= |base|) && (r.Ok? ==> Contents(r.value.document.lines) == base[..start - 1] + body + base[end..])
  {
    hide Apply.Apply;
    OneHunk(doc, Replace(start, end, body, None));
  }

  /** What deleting lines does, exactly when they are there. */
  lemma OneDeletion(doc: Document, start: nat, end: nat)
    requires 1 <= start <= end
    ensures AllValid([Delete(start, end, None)])
    ensures var base, r := Contents(doc.lines), Apply.Apply(doc, [Delete(start, end, None)]);
      (r.Ok? <==> end <= |base|) && (r.Ok? ==> Contents(r.value.document.lines) == base[..start - 1] + base[end..])
  {
    hide Apply.Apply;
    OneHunk(doc, Delete(start, end, None));
    var base := Contents(doc.lines);
    if end <= |base| { assert base[..start - 1] + [] == base[..start - 1]; }
  }

  // ---- The counts ------------------------------------------------------------------------------

  function Those(hunks: seq<Hunk>, test: Hunk -> bool): set<nat> { set k: nat | k < |hunks| && test(hunks[k]) }

  lemma OneMore(hunks: seq<Hunk>, test: Hunk -> bool)
    requires hunks != []
    ensures |Those(hunks, test)| == |Those(hunks[..|hunks| - 1], test)| + if test(hunks[|hunks| - 1]) then 1 else 0
  {
    var n: nat, front := |hunks| - 1, hunks[..|hunks| - 1];
    assert Those(hunks, test) == Those(front, test) + if test(hunks[n]) then {n} else {};
  }

  /** The counts that are returned are those of the hunks of each kind. */
  lemma {:induction false} CountsTell(hunks: seq<Hunk>)
    ensures var c := CountHunks(hunks);
      && c.replaced == |Those(hunks, (h: Hunk) => h.Replace?)|
      && c.inserted == |Those(hunks, (h: Hunk) => h.Insert?)|
      && c.deleted == |Those(hunks, (h: Hunk) => h.Delete?)|
  {
    if hunks != [] {
      CountsTell(hunks[..|hunks| - 1]);
      OneMore(hunks, (h: Hunk) => h.Replace?);
      OneMore(hunks, (h: Hunk) => h.Insert?);
      OneMore(hunks, (h: Hunk) => h.Delete?);
      hide Those;
    } else {
      assert forall test :: Those(hunks, test) == {};
    }
  }
}
