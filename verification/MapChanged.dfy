/** Carrying changed-line spans through a later stage of edits
    (`mapChangedLines` in harness/lib/hashline-core.ts). */
module MapChanged {
  import opened Basics
  import opened Lines
  import opened StableSort
  import opened Stitching
  import opened Hunks
  import opened Apply
  import opened EditFacts

  /** The walk of `mapIndex` from a given point, with the growth so far. */
  function MapIndex(ops: seq<Op>, j: int, delta: int): int {
    if ops == [] then j + delta
    else
      var op, inserted := ops[0], |HunkBody(ops[0])|;
      if op.start == op.end then
        if op.start <= j then MapIndex(ops[1..], j, delta + inserted) else j + delta
      else if j < op.start then j + delta
      else if j < op.end then
        if inserted == 0 then op.start + delta else op.start + delta + Min(j - op.start, inserted - 1)
      else MapIndex(ops[1..], j, delta + inserted - (op.end - op.start))
  }

  method ComputeMapIndex(ops: seq<Op>, j: int) returns (target: int)
    ensures target == MapIndex(ops, j, 0)
  {
    var delta := 0;
    var i := 0;
    assert ops[0..] == ops;
    while i < |ops|
      invariant 0 <= i <= |ops|
      invariant MapIndex(ops[i..], j, delta) == MapIndex(ops, j, 0)
    {
      var op, inserted := ops[i], |HunkBody(ops[i])|;
      assert ops[i..][1..] == ops[i + 1..];
      i := i + 1;
      if op.start == op.end {
        if op.start <= j { delta := delta + inserted; } else { return j + delta; }
      } else {
        if j < op.start { return j + delta; }
        var width := op.end - op.start;
        if j < op.end {
          var mappedStart := op.start + delta;
          return if inserted == 0 then mappedStart else mappedStart + Min(j - op.start, inserted - 1);
        }
        delta := delta + inserted - width;
      }
    }
    return j + delta;
  }

  lemma EditsTail<T>(ops: seq<Op>, bodies: Op -> seq<T>)
    requires ops != []
    ensures Edits(ops, bodies)[1..] == Edits(ops[1..], bodies)
    ensures Edits(ops, bodies)[0] == Edit(ops[0].start, ops[0].end, bodies(ops[0]))
  {
  }

  /** A line outside every replaced range is mapped to where the edit puts it. */
  lemma {:induction false} SurvivorMapped(ops: seq<Op>, j: nat, delta: int, from: nat, n: nat)
    requires Chain(ContentEdits(ops), from, n) && Survives(ContentEdits(ops), j)
    ensures MapIndex(ops, j, delta) == Target(ContentEdits(ops), j) + delta
    decreases |ops|
  {
    if ops != [] {
      EditsTail(ops, HunkBody);
      if ops[0].end <= j {
        SurvivorsTail(ContentEdits(ops), j);
        SurvivorMapped(ops[1..], j, delta + |HunkBody(ops[0])| - (ops[0].end - ops[0].start), ops[0].end, n);
      } else {
        var first := ContentEdits(ops)[0];
        assert !(first.start <= j < first.end);
      }
    }
  }

  /** A replaced line is mapped into its replacement, a deleted one to the place where it
      was. */
  lemma {:induction false} ReplacedMapped(ops: seq<Op>, k: nat, j: nat, delta: int, from: nat, n: nat)
    requires Chain(ContentEdits(ops), from, n) && k < |ops| && ops[k].start <= j < ops[k].end
    ensures var at, size := ops[k].start + Growth(ContentEdits(ops), k) + delta, |HunkBody(ops[k])|;
      at <= MapIndex(ops, j, delta) < at + Max(1, size)
    decreases |ops|
  {
    EditsTail(ops, HunkBody);
    if k > 0 {
      hide HunkBody;
      var edits := ContentEdits(ops);
      ChainDrop(edits[1..], ops[0].end, n, k - 1);
      assert edits[1..][k - 1] == edits[k];
      GrowthTail(edits, k);
      ReplacedMapped(ops[1..], k - 1, j, delta + |HunkBody(ops[0])| - (ops[0].end - ops[0].start), ops[0].end, n);
    }
  }

  /** On the lines that survive, the map agrees with the edit: it keeps their contents
      and their order. */
  lemma MapAgreesWithEdit(original: seq<TextLine>, ops: seq<Op>, i: nat, j: nat)
    requires Accepted(ops, |original|) && i < j < |original|
    requires Survives(ContentEdits(ops), i) && Survives(ContentEdits(ops), j)
    ensures 0 <= MapIndex(ops, i, 0) < MapIndex(ops, j, 0) < |EditedLines(original, ops)|
    ensures EditedLines(original, ops)[MapIndex(ops, i, 0)].content == original[i].content
    ensures EditedLines(original, ops)[MapIndex(ops, j, 0)].content == original[j].content
  {
    hide MapIndex, Survives, EditedLines, Accepted, Chain, Target;
    ContentChain(ops, original);
    SurvivorMapped(ops, i, 0, 0, |original|);
    SurvivorMapped(ops, j, 0, 0, |original|);
    SurvivorKeepsLine(original, ops, i);
    SurvivorKeepsLine(original, ops, j);
    TargetIncreases(ContentEdits(ops), 0, |original|, i, j);
  }

  // Spans

  /** A span covers its lines; an empty one stands for the line it names. */
  predicate SpanCovers(s: Span, line: int) { s.line <= line < s.line + Max(1, s.count) }

  predicate Covers(spans: seq<Span>, line: int) {
    exists s | s in spans :: SpanCovers(s, line)
  }

  /** The index in the later text of one source line, kept inside both texts. */
  function TargetIndex(ops: seq<Op>, before: nat, after: nat, line: int): int {
    Min(after - 1, Max(0, MapIndex(ops, Min(before - 1, Max(0, line - 1)), 0)))
  }

  ghost predicate MappedTo(ops: seq<Op>, before: nat, after: nat, line: int, t: int) {
    t == TargetIndex(ops, before, after, line)
  }

  /** Index `t` of the later text is where some line of the spans goes. */
  ghost predicate IsTarget(ops: seq<Op>, before: nat, after: nat, changed: seq<Span>, t: int) {
    exists line :: Covers(changed, line) && MappedTo(ops, before, after, line, t)
  }

  predicate CoversIndex(spans: seq<Span>, t: int) { Covers(spans, t + 1) }

  predicate SpanInside(s: Span, n: nat) { s.count >= 1 && 1 <= s.line && s.line + s.count <= n + 1 }

  /** Spans in order, apart from each other, inside `1..n`: nothing left to merge. */
  ghost predicate Tidy(spans: seq<Span>, n: nat) {
    && (forall s | s in spans :: SpanInside(s, n))
    && (forall k | 1 <= k < |spans| :: spans[k - 1].line + spans[k - 1].count < spans[k].line)
  }

  method MapChangedLines(changed: seq<Span>, before: nat, hunks: seq<Hunk>, after: nat)
    returns (r: Result<seq<Span>, EditError>)
    requires AllValid(hunks)
    ensures after == 0 ==> r == Ok([])
    ensures after > 0 ==> (r.Ok? <==> OpsFor(hunks, before).Ok?)
    ensures r.Ok? ==> Tidy(r.value, after)
    ensures after > 0 && r.Ok? ==> forall t ::
      CoversIndex(r.value, t) <==> IsTarget(Sort(OpsFor(hunks, before).value, OpKey), before, after, changed, t)
  {
    if after == 0 { return Ok([]); }
    var unsorted := OpsFor(hunks, before);
    if unsorted.Err? { return Err(unsorted.error); }
    var ops := Sort(unsorted.value, OpKey);
    var mapped := MapSpans(ops, before, after, changed);
    SortAscends(mapped);
    var spans := Coalesce(Sort(mapped, IntKey), after);
    return Ok(spans);
  }

  /** The two loops over the spans and their lines, filling the set of targets. */
  method MapSpans(ops: seq<Op>, before: nat, after: nat, changed: seq<Span>) returns (mapped: seq<int>)
    requires after > 0
    ensures Distinct(mapped) && forall t | t in mapped :: 0 <= t < after
    ensures forall t :: t in mapped <==> IsTarget(ops, before, after, changed, t)
  {
    mapped := [];
    for k := 0 to |changed|
      invariant Distinct(mapped) && forall t | t in mapped :: 0 <= t < after
      invariant forall t :: t in mapped <==> IsTarget(ops, before, after, changed[..k], t)
    {
      var span := changed[k];
      ghost var done := mapped;
      var offset := 0;
      while offset < Max(1, span.count)
        invariant 0 <= offset <= Max(1, span.count)
        invariant Distinct(mapped) && forall t | t in mapped :: 0 <= t < after
        invariant forall t :: t in mapped <==>
          t in done || exists line :: span.line <= line < span.line + offset && MappedTo(ops, before, after, line, t)
      {
        var source := Min(before - 1, Max(0, span.line - 1 + offset));
        var index := ComputeMapIndex(ops, source);
        var target := Min(after - 1, Max(0, index));
        ghost var was := mapped;
        if target !in mapped { mapped := mapped + [target]; }
        OneMoreLine(ops, before, after, span.line, offset, target, done, was, mapped);
        offset := offset + 1;
      }
      assert offset == Max(1, span.count);
      OneMoreSpan(ops, before, after, changed, k);
      forall t ensures t in mapped <==> IsTarget(ops, before, after, changed[..k + 1], t) {
        assert t in done <==> IsTarget(ops, before, after, changed[..k], t);
      }
    }
    assert changed[..|changed|] == changed;
  }

  lemma OneMoreLine(ops: seq<Op>, before: nat, after: nat, from: int, offset: nat, target: int,
                    done: seq<int>, was: seq<int>, mapped: seq<int>)
    requires MappedTo(ops, before, after, from + offset, target)
    requires mapped == if target in was then was else was + [target]
    requires forall t :: t in was <==>
      t in done || exists line :: from <= line < from + offset && MappedTo(ops, before, after, line, t)
    ensures forall t :: t in mapped <==>
      t in done || exists line :: from <= line < from + offset + 1 && MappedTo(ops, before, after, line, t)
  {
    forall t ensures t in mapped <==>
      t in done || exists line :: from <= line < from + offset + 1 && MappedTo(ops, before, after, line, t)
    {
      assert t in mapped <==> t in was || t == target;
      if line :| from <= line < from + offset + 1 && MappedTo(ops, before, after, line, t) {
        assert line == from + offset || from <= line < from + offset;
      }
    }
  }

  lemma OneMoreSpan(ops: seq<Op>, before: nat, after: nat, changed: seq<Span>, k: nat)
    requires k < |changed|
    ensures var s := changed[k]; forall t ::
      IsTarget(ops, before, after, changed[..k + 1], t) <==>
      IsTarget(ops, before, after, changed[..k], t)
      || exists line :: s.line <= line < s.line + Max(1, s.count) && MappedTo(ops, before, after, line, t)
  {
    forall line ensures Covers(changed[..k + 1], line) <==> Covers(changed[..k], line) || SpanCovers(changed[k], line) {
      assert changed[..k + 1] == changed[..k] + [changed[k]];
    }
  }

  /** Neighbouring indices become one span. */
  method Coalesce(sorted: seq<int>, n: nat) returns (spans: seq<Span>)
    requires forall i, j | 0 <= i < j < |sorted| :: sorted[i] < sorted[j]
    requires forall i | i in sorted :: 0 <= i < n
    ensures Tidy(spans, n)
    ensures forall t :: CoversIndex(spans, t) <==> t in sorted
  {
    spans := [];
    for k := 0 to |sorted|
      invariant Tidy(spans, n)
      invariant k == 0 <==> spans == []
      invariant k > 0 ==> spans[|spans| - 1].line + spans[|spans| - 1].count == sorted[k - 1] + 2
      invariant forall t :: CoversIndex(spans, t) <==> t in sorted[..k]
    {
      var index := sorted[k];
      assert index in sorted && sorted[..k + 1] == sorted[..k] + [index];
      if k > 0 { assert sorted[k - 1] < index; }
      if spans != [] && spans[|spans| - 1].line + spans[|spans| - 1].count == index + 1 {
        var last := spans[|spans| - 1];
        LastChanged(spans, last.(count := last.count + 1), index, n);
        spans := spans[..|spans| - 1] + [last.(count := last.count + 1)];
      } else {
        NewSpan(spans, index, n);
        spans := spans + [Span(index + 1, 1)];
      }
      forall t ensures CoversIndex(spans, t) <==> t in sorted[..k + 1] {
        assert t in sorted[..k + 1] <==> t in sorted[..k] || t == index;
      }
    }
    assert sorted[..|sorted|] == sorted;
  }

  lemma NewSpan(spans: seq<Span>, index: int, n: nat)
    requires Tidy(spans, n) && 0 <= index < n
    requires spans != [] ==> spans[|spans| - 1].line + spans[|spans| - 1].count < index + 1
    ensures Tidy(spans + [Span(index + 1, 1)], n)
    ensures forall t :: CoversIndex(spans + [Span(index + 1, 1)], t) <==> CoversIndex(spans, t) || t == index
  {
    var s := Span(index + 1, 1);
    forall t ensures CoversIndex(spans + [s], t) <==> CoversIndex(spans, t) || t == index {
      assert SpanCovers(s, t + 1) <==> t == index;
      assert s in spans + [s];
    }
  }

  lemma LastChanged(spans: seq<Span>, grown: Span, index: int, n: nat)
    requires spans != [] && Tidy(spans, n) && index < n
    requires var last := spans[|spans| - 1]; last.line + last.count == index + 1 && grown == last.(count := last.count + 1)
    ensures var result := spans[..|spans| - 1] + [grown];
      && Tidy(result, n)
      && forall t :: CoversIndex(result, t) <==> CoversIndex(spans, t) || t == index
  {
    var front, last := spans[..|spans| - 1], spans[|spans| - 1];
    assert spans == front + [last];
    assert SpanInside(last, n);
    forall t ensures CoversIndex(front + [grown], t) <==> CoversIndex(spans, t) || t == index {
      assert SpanCovers(grown, t + 1) <==> SpanCovers(last, t + 1) || t == index;
      assert grown in front + [grown] && last in front + [last];
    }
  }
}
