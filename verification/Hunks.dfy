/** Hunks, their ranges in a document, and the checks made before anything is applied
    (harness/lib/hashline-core.ts). */
module Hunks {
  import opened Utf
  import opened Lines
  import opened StableSort
  import opened Stitching

  datatype Pos = Before | After | Head | Tail

  /** The rows a unified hunk claims to find in the file, from line `start`. */
  datatype Source = Source(start: nat, lines: seq<Text>)

  datatype Hunk =
    | Replace(start: nat, end: nat, body: seq<Text>, source: Option<Source>)
    | Delete(start: nat, end: nat, source: Option<Source>)
    | Insert(pos: Pos, line: nat, body: seq<Text>, source: Option<Source>)

  /** What the parser guarantees of the ranges it builds. */
  predicate ValidHunk(h: Hunk) {
    && (!h.Insert? ==> 1 <= h.start <= h.end)
    && (h.source.Some? ==> h.source.value.start >= 1)
  }

  predicate AllValid(hunks: seq<Hunk>) { forall h | h in hunks :: ValidHunk(h) }

  function BodyOf(h: Hunk): seq<Text> { if h.Delete? then [] else h.body }

  /** New lines never contain a break: the parser splits the patch at every one. */
  predicate BreakFree(h: Hunk) { forall t | t in BodyOf(h) :: NoBreaks(t) }

  predicate AllBreakFree(hunks: seq<Hunk>) { forall h | h in hunks :: BreakFree(h) }

  datatype EditError =
    | OutOfBounds(line: nat)
    | SourceMismatch(start: nat)
    | Overlap(line: nat)
    | SamePosition(line: nat)

  /** The half-open range of line indices a hunk stands for. */
  datatype Op = Op(start: nat, end: nat, hunk: Hunk)

  function OpFor(h: Hunk, n: nat): (r: Result<Op, EditError>)
    requires ValidHunk(h)
    ensures r.Ok? ==> r.value.start <= r.value.end <= n && r.value.hunk == h
    ensures r.Ok? ==> (r.value.start < r.value.end <==> !h.Insert?)
  {
    if !h.Insert? then
      if h.end > n then Err(OutOfBounds(h.end)) else Ok(Op(h.start - 1, h.end, h))
    else if h.pos == Head then Ok(Op(0, 0, h))
    else if h.pos == Tail then Ok(Op(n, n, h))
    else if h.line < 1 || h.line > n then Err(OutOfBounds(h.line))
    else
      var at := if h.pos == Before then h.line - 1 else h.line;
      Ok(Op(at, at, h))
  }

  /** `ops` are the ranges of `hunks`, in their order. */
  function OpsFor(hunks: seq<Hunk>, n: nat): (r: Result<seq<Op>, EditError>)
    requires AllValid(hunks)
    ensures r.Ok? ==> |r.value| == |hunks| && forall k | 0 <= k < |hunks| :: OpFor(hunks[k], n) == Ok(r.value[k])
  {
    if hunks == [] then Ok([])
    else
      match OpFor(hunks[0], n)
      case Err(e) => Err(e)
      case Ok(op) =>
        match OpsFor(hunks[1..], n)
        case Err(e) => Err(e)
        case Ok(rest) => Ok([op] + rest)
  }

  function OpKey(op: Op): Key { (op.start, op.end, 0) }

  predicate SourceMatches(source: Source, contents: seq<Text>) {
    source.lines == [] ||
    (1 <= source.start && source.start - 1 + |source.lines| <= |contents| &&
     contents[source.start - 1..source.start - 1 + |source.lines|] == source.lines)
  }

  predicate SourceOk(op: Op, contents: seq<Text>) {
    op.hunk.source.Some? ==> SourceMatches(op.hunk.source.value, contents)
  }

  function CheckSources(ops: seq<Op>, contents: seq<Text>): (r: Option<EditError>)
    ensures r.None? || r.value.SourceMismatch?
  {
    if ops == [] then None
    else if !SourceOk(ops[0], contents) then Some(SourceMismatch(ops[0].hunk.source.value.start))
    else CheckSources(ops[1..], contents)
  }

  predicate IsInsertion(op: Op) { op.start == op.end }

  /** Two insertions at one place. */
  predicate SamePlace(prior: Op, op: Op) {
    op.start == prior.start && IsInsertion(op) && IsInsertion(prior)
  }

  /** The first clash between neighbours of the sorted ranges. */
  function CheckOverlaps(ops: seq<Op>, i: nat): Option<EditError>
    requires 1 <= i
    decreases |ops| - i
  {
    if i >= |ops| then None
    else if ops[i].start < ops[i - 1].end then Some(Overlap(ops[i].start + 1))
    else if SamePlace(ops[i - 1], ops[i]) then Some(SamePosition(ops[i].start + 1))
    else CheckOverlaps(ops, i + 1)
  }

  function Contents(lines: seq<TextLine>): (r: seq<Text>)
    ensures |r| == |lines|
  {
    seq(|lines|, i requires 0 <= i < |lines| => lines[i].content)
  }

  /** The checks of `applyHunks`: bounds, then source rows, then overlaps. */
  function Prepare(lines: seq<TextLine>, hunks: seq<Hunk>): Result<seq<Op>, EditError>
    requires AllValid(hunks)
  {
    match OpsFor(hunks, |lines|)
    case Err(e) => Err(e)
    case Ok(unsorted) =>
      var ops := Sort(unsorted, OpKey);
      match CheckSources(ops, Contents(lines))
      case Some(e) => Err(e)
      case None =>
        match CheckOverlaps(ops, 1)
        case Some(e) => Err(e)
        case None => Ok(ops)
  }

  predicate FromHunk(op: Op, n: nat) {
    ValidHunk(op.hunk) && OpFor(op.hunk, n) == Ok(op)
  }

  /** Accepted ranges: in bounds, in order, disjoint, at most one insertion at a place. */
  ghost predicate Accepted(ops: seq<Op>, n: nat) {
    && (forall op | op in ops :: FromHunk(op, n))
    && (forall k | 1 <= k < |ops| :: ops[k - 1].end <= ops[k].start && !SamePlace(ops[k - 1], ops[k]))
  }

  lemma {:induction false} OverlapsChecked(ops: seq<Op>, i: nat)
    requires 1 <= i
    ensures CheckOverlaps(ops, i).None? <==>
      forall k | i <= k < |ops| :: ops[k - 1].end <= ops[k].start && !SamePlace(ops[k - 1], ops[k])
    decreases |ops| - i
  {
    if i < |ops| {
      OverlapsChecked(ops, i + 1);
    }
  }

  lemma {:induction false} SourcesChecked(ops: seq<Op>, contents: seq<Text>)
    ensures CheckSources(ops, contents).None? <==> forall op | op in ops :: SourceOk(op, contents)
  {
    if ops != [] {
      SourcesChecked(ops[1..], contents);
      assert ops == [ops[0]] + ops[1..];
    }
  }

  lemma {:induction false} OpsFromHunks(hunks: seq<Hunk>, n: nat)
    requires AllValid(hunks) && OpsFor(hunks, n).Ok?
    ensures forall op | op in OpsFor(hunks, n).value :: FromHunk(op, n)
  {
    if hunks != [] { OpsFromHunks(hunks[1..], n); }
  }

  /** What passes the checks is accepted, and is the hunks in another order. */
  lemma PrepareAccepts(lines: seq<TextLine>, hunks: seq<Hunk>)
    requires AllValid(hunks)
    requires Prepare(lines, hunks).Ok?
    ensures var ops := Prepare(lines, hunks).value;
      && Accepted(ops, |lines|)
      && multiset(ops) == multiset(OpsFor(hunks, |lines|).value) && |ops| == |hunks|
  {
    hide CheckSources, CheckOverlaps, Sort, OpsFor, Sorted, FromHunk, SamePlace;
    var unsorted := OpsFor(hunks, |lines|).value;
    var ops := Prepare(lines, hunks).value;
    OpsFromHunks(hunks, |lines|);
    SortSorts(unsorted, OpKey);
    OverlapsChecked(ops, 1);
    forall op | op in ops ensures FromHunk(op, |lines|) {
      assert op in multiset(ops);
    }
  }

  /** The edits of accepted ranges with the given bodies, for the stitch. */
  ghost function Edits<T>(ops: seq<Op>, bodies: Op -> seq<T>): (r: seq<Edit<T>>)
    ensures |r| == |ops|
    ensures forall k | 0 <= k < |ops| :: r[k] == Edit(ops[k].start, ops[k].end, bodies(ops[k]))
  {
    seq(|ops|, k requires 0 <= k < |ops| => Edit(ops[k].start, ops[k].end, bodies(ops[k])))
  }

  lemma {:induction false} AcceptedChain<T>(ops: seq<Op>, n: nat, bodies: Op -> seq<T>, from: nat)
    requires Accepted(ops, n) && from <= n && (ops != [] ==> from <= ops[0].start)
    ensures Chain(Edits(ops, bodies), from, n)
    decreases |ops|
  {
    if ops != [] {
      assert Accepted(ops[1..], n) by {
        assert forall k | 0 <= k < |ops[1..]| :: ops[1..][k] == ops[k + 1];
      }
      assert FromHunk(ops[0], n);
      AcceptedChain(ops[1..], n, bodies, ops[0].end);
      assert Edits(ops, bodies)[1..] == Edits(ops[1..], bodies);
    }
  }
}
