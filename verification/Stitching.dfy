/**
 Replacing ranges of a sequence, as a top-down stitch of gaps and bodies: the meaning
 against which the bottom-up splicing of harness/lib/hashline-core.ts is proved.
 */
module Stitching {
  /** Replace `base[start..end]` by `body`; an insertion when `start == end`. */
  datatype Edit<T> = Edit(start: nat, end: nat, body: seq<T>)

  /** The edits come in order, within `from..n`, and no two of them overlap. */
  ghost predicate Chain<T>(edits: seq<Edit<T>>, from: nat, n: nat) {
    && from <= n
    && (edits != [] ==> from <= edits[0].start <= edits[0].end <= n && Chain(edits[1..], edits[0].end, n))
  }

  ghost function Stitch<T>(base: seq<T>, edits: seq<Edit<T>>, from: nat): seq<T>
    requires Chain(edits, from, |base|)
    decreases |edits|
  {
    if edits == [] then base[from..]
    else base[from..edits[0].start] + edits[0].body + Stitch(base, edits[1..], edits[0].end)
  }

  /** The growth of the text caused by the first `k` edits. */
  function Growth<T>(edits: seq<Edit<T>>, k: nat): int
    requires k <= |edits|
  {
    if k == 0 then 0
    else Growth(edits, k - 1) + |edits[k - 1].body| - (edits[k - 1].end - edits[k - 1].start)
  }

  lemma {:induction false} GrowthTail<T>(edits: seq<Edit<T>>, k: nat)
    requires 1 <= k <= |edits|
    ensures Growth(edits, k) == |edits[0].body| - (edits[0].end - edits[0].start) + Growth(edits[1..], k - 1)
  {
    if k > 1 {
      GrowthTail(edits, k - 1);
      assert edits[k - 1] == edits[1..][k - 2];
    }
  }

  /** The text before the first edit may be split off anywhere. */
  lemma StitchSplit<T>(base: seq<T>, edits: seq<Edit<T>>, from: nat, at: nat)
    requires Chain(edits, from, |base|) && Chain(edits, at, |base|) && from <= at
    ensures Stitch(base, edits, from) == base[from..at] + Stitch(base, edits, at)
  {
    if edits == [] {
      assert base[from..] == base[from..at] + base[at..];
    } else {
      var s := edits[0].start;
      Regroup(base[from..at], base[at..s], edits[0].body, Stitch(base, edits[1..], edits[0].end));
      assert base[from..s] == base[from..at] + base[at..s];
    }
  }

  lemma Regroup<T>(a: seq<T>, b: seq<T>, c: seq<T>, d: seq<T>)
    ensures (a + b) + c + d == a + (b + c + d)
  {
  }

  /** One in-place splice below edits already made is one more edit of the stitch. */
  lemma SpliceStep<T>(base: seq<T>, edit: Edit<T>, rest: seq<Edit<T>>)
    requires Chain([edit] + rest, 0, |base|) && Chain(rest, 0, |base|)
    ensures var lines := Stitch(base, rest, 0);
      && edit.end <= |lines| && lines[..edit.end] == base[..edit.end]
      && lines[..edit.start] + edit.body + lines[edit.end..] == Stitch(base, [edit] + rest, 0)
  {
    assert ([edit] + rest)[1..] == rest;
    assert Chain(rest, edit.end, |base|);
    StitchSplit(base, rest, 0, edit.end);
    assert base[0..edit.end] == base[..edit.end] && base[0..edit.start] == base[..edit.start];
    var lines := Stitch(base, rest, 0);
    assert lines == base[..edit.end] + Stitch(base, rest, edit.end);
    assert lines[edit.end..] == Stitch(base, rest, edit.end);
    assert lines[..edit.start] == base[..edit.start];
  }

  lemma {:induction false} ChainFromLess<T>(edits: seq<Edit<T>>, from: nat, to: nat, n: nat)
    requires Chain(edits, to, n) && from <= to
    ensures Chain(edits, from, n)
  {
  }

  /** A tail of the edits is again in order. */
  lemma {:induction false} ChainDrop<T>(edits: seq<Edit<T>>, from: nat, n: nat, k: nat)
    requires Chain(edits, from, n) && k <= |edits|
    ensures Chain(edits[k..], from, n)
    ensures k > 0 ==> Chain(edits[k..], edits[k - 1].end, n)
    ensures k < |edits| ==> from <= edits[k].start <= edits[k].end <= n
    decreases k
  {
    if k == 0 {
      assert edits[0..] == edits;
    } else {
      ChainDrop(edits[1..], edits[0].end, n, k - 1);
      assert edits[1..][k - 1..] == edits[k..];
      ChainFromLess(edits[k..], from, edits[0].end, n);
      if k > 1 { assert edits[1..][k - 2] == edits[k - 1]; }
      if k < |edits| { assert edits[1..][k - 1] == edits[k]; }
    }
  }

  /** Line count is the original plus what each body adds over its range. */
  lemma {:induction false} StitchLength<T>(base: seq<T>, edits: seq<Edit<T>>, from: nat)
    requires Chain(edits, from, |base|)
    ensures |Stitch(base, edits, from)| == |base| - from + Growth(edits, |edits|)
    decreases |edits|
  {
    if edits != [] {
      StitchLength(base, edits[1..], edits[0].end);
      GrowthTail(edits, |edits|);
    }
  }

  /** Edit `k` puts its whole body at its own start moved by the growth before it. */
  lemma {:induction false} StitchBody<T>(base: seq<T>, edits: seq<Edit<T>>, from: nat, k: nat)
    requires Chain(edits, from, |base|) && k < |edits|
    ensures var at := edits[k].start - from + Growth(edits, k);
      && 0 <= at && at + |edits[k].body| <= |Stitch(base, edits, from)|
      && Stitch(base, edits, from)[at..at + |edits[k].body|] == edits[k].body
    decreases |edits|
  {
    var whole := Stitch(base, edits, from);
    var front := base[from..edits[0].start] + edits[0].body;
    assert whole == front + Stitch(base, edits[1..], edits[0].end);
    if k > 0 {
      GrowthTail(edits, k);
      StitchBody(base, edits[1..], edits[0].end, k - 1);
      var at := edits[k].start - from + Growth(edits, k);
      assert edits[1..][k - 1] == edits[k];
      assert whole[at..at + |edits[k].body|]
          == Stitch(base, edits[1..], edits[0].end)[at - |front|..at - |front| + |edits[k].body|];
    } else {
      assert whole[edits[0].start - from..][..|edits[0].body|] == edits[0].body;
    }
  }

  /** Position `j` of the base lies in no replaced range. */
  ghost predicate Survives<T>(edits: seq<Edit<T>>, j: nat) {
    forall k | 0 <= k < |edits| :: !(edits[k].start <= j < edits[k].end)
  }

  /** Where position `j` of the base goes: past every edit that ends at or before it. */
  function Target<T>(edits: seq<Edit<T>>, j: nat): int {
    if edits == [] || j < edits[0].end then j
    else Target(edits[1..], j) + |edits[0].body| - (edits[0].end - edits[0].start)
  }

  lemma SurvivorsTail<T>(edits: seq<Edit<T>>, j: nat)
    requires edits != [] && Survives(edits, j)
    ensures Survives(edits[1..], j)
  {
    forall k | 0 <= k < |edits[1..]| ensures !(edits[1..][k].start <= j < edits[1..][k].end) {
      assert edits[1..][k] == edits[k + 1];
    }
  }

  lemma At<T>(a: seq<T>, b: seq<T>, i: nat)
    requires i < |b|
    ensures (a + b)[|a| + i] == b[i]
  {
  }

  /** Every position outside the replaced ranges keeps its element. */
  lemma {:induction false} StitchSurvivor<T>(base: seq<T>, edits: seq<Edit<T>>, from: nat, j: nat)
    requires Chain(edits, from, |base|) && from <= j < |base| && Survives(edits, j)
    ensures 0 <= Target(edits, j) - from < |Stitch(base, edits, from)|
    ensures Stitch(base, edits, from)[Target(edits, j) - from] == base[j]
    decreases |edits|
  {
    if edits == [] {
    } else if edits[0].end <= j {
      SurvivorsTail(edits, j);
      StitchSurvivor(base, edits[1..], edits[0].end, j);
      var front, rest := base[from..edits[0].start] + edits[0].body, Stitch(base, edits[1..], edits[0].end);
      var t := Target(edits[1..], j) - edits[0].end;
      hide Chain, Survives;
      assert Target(edits, j) - from == |front| + t;
      At(front, rest, t);
      assert Stitch(base, edits, from) == front + rest;
    } else {
      assert j < edits[0].start;
    }
  }

  /** Surviving positions keep their order. */
  lemma {:induction false} TargetIncreases<T>(edits: seq<Edit<T>>, from: nat, n: nat, i: nat, j: nat)
    requires Chain(edits, from, n) && from <= i < j && Survives(edits, i) && Survives(edits, j)
    ensures from <= Target(edits, i) < Target(edits, j)
    decreases |edits|
  {
    if edits != [] {
      var e := edits[0];
      if e.end <= i {
        SurvivorsTail(edits, i);
        SurvivorsTail(edits, j);
        TargetIncreases(edits[1..], e.end, n, i, j);
      } else if e.end <= j {
        SurvivorsTail(edits, j);
        TargetAtLeast(edits[1..], e.end, n, j);
      }
    }
  }

  lemma {:induction false} TargetAtLeast<T>(edits: seq<Edit<T>>, from: nat, n: nat, j: nat)
    requires Chain(edits, from, n) && from <= j && Survives(edits, j)
    ensures from <= Target(edits, j)
    decreases |edits|
  {
    if edits != [] && edits[0].end <= j {
      SurvivorsTail(edits, j);
      TargetAtLeast(edits[1..], edits[0].end, n, j);
    }
  }

  /** Every position of the result lies in one of the bodies or holds a survivor. */
  lemma {:induction false} StitchOrigin<T>(base: seq<T>, edits: seq<Edit<T>>, from: nat, r: nat)
    returns (inBody: bool, k: nat)
    requires Chain(edits, from, |base|) && r < |Stitch(base, edits, from)|
    ensures inBody ==> k < |edits|
    ensures inBody ==> 0 <= r + from - (edits[k].start + Growth(edits, k)) < |edits[k].body|
    ensures !inBody ==> from <= k < |base| && Survives(edits, k) && Target(edits, k) == r + from
    decreases |edits|
  {
    if edits == [] {
      inBody, k := false, from + r;
    } else {
      var e := edits[0];
      var gap := e.start - from;
      if r < gap {
        inBody, k := false, from + r;
        forall i | 0 <= i < |edits| ensures !(edits[i].start <= k < edits[i].end) {
          ChainDrop(edits, from, |base|, i);
          StartsAscend(edits, from, |base|, i);
        }
      } else if r < gap + |e.body| {
        inBody, k := true, 0;
      } else {
        inBody, k := StitchOrigin(base, edits[1..], e.end, r - gap - |e.body|);
        if inBody {
          GrowthTail(edits, k + 1);
          assert edits[1..][k] == edits[k + 1];
          k := k + 1;
        } else {
          forall i | 0 <= i < |edits| ensures !(edits[i].start <= k < edits[i].end) {
            if i > 0 { assert edits[1..][i - 1] == edits[i]; }
          }
        }
      }
    }
  }

  lemma {:induction false} StartsAscend<T>(edits: seq<Edit<T>>, from: nat, n: nat, i: nat)
    requires Chain(edits, from, n) && i < |edits|
    ensures edits[0].start <= edits[i].start
  {
    ChainDrop(edits[1..], edits[0].end, n, if i > 0 then i - 1 else 0);
    if i > 0 { assert edits[1..][i - 1] == edits[i]; }
  }

  ghost predicate Mapped<T, U>(f: T -> U, s: seq<T>, t: seq<U>) {
    |s| == |t| && forall i | 0 <= i < |s| :: t[i] == f(s[i])
  }

  /** The same ranges, with bodies that correspond element by element. */
  ghost predicate Parallel<T, U>(f: T -> U, edits: seq<Edit<T>>, images: seq<Edit<U>>) {
    |edits| == |images| && forall k | 0 <= k < |edits| ::
      edits[k].start == images[k].start && edits[k].end == images[k].end && Mapped(f, edits[k].body, images[k].body)
  }

  /** Stitching commutes with a change made to every element. */
  lemma {:induction false} StitchMapped<T, U>(f: T -> U, base: seq<T>, edits: seq<Edit<T>>,
                                              base': seq<U>, edits': seq<Edit<U>>, from: nat)
    requires Chain(edits, from, |base|) && Chain(edits', from, |base'|)
    requires Mapped(f, base, base') && Parallel(f, edits, edits')
    ensures Mapped(f, Stitch(base, edits, from), Stitch(base', edits', from))
    decreases |edits|
  {
    if edits != [] {
      assert Mapped(f, edits[0].body, edits'[0].body);
      assert Parallel(f, edits[1..], edits'[1..]);
      StitchMapped(f, base, edits[1..], base', edits'[1..], edits[0].end);
    }
  }

  lemma {:induction false} GrowthParallel<T, U>(f: T -> U, edits: seq<Edit<T>>, images: seq<Edit<U>>, k: nat)
    requires Parallel(f, edits, images) && k <= |edits|
    ensures Growth(edits, k) == Growth(images, k)
  {
    if k > 0 { GrowthParallel(f, edits, images, k - 1); }
  }

  lemma {:induction false} TargetParallel<T, U>(f: T -> U, edits: seq<Edit<T>>, images: seq<Edit<U>>, j: nat)
    requires Parallel(f, edits, images)
    ensures Target(edits, j) == Target(images, j)
    decreases |edits|
  {
    if edits != [] {
      assert Mapped(f, edits[0].body, images[0].body);
      assert Parallel(f, edits[1..], images[1..]);
      TargetParallel(f, edits[1..], images[1..], j);
    }
  }

  lemma SliceOfPrefix<T>(s: seq<T>, i: nat, j: nat, m: nat)
    requires i <= j <= m <= |s|
    ensures s[..m][i..j] == s[i..j]
  {
  }

  /** An edit made right at the end of the part read so far adds its body. */
  lemma {:induction false} StitchSnoc<T>(base: seq<T>, edits: seq<Edit<T>>, from: nat, e: Edit<T>)
    requires Chain(edits, from, e.start) && e.start <= e.end <= |base|
    ensures Chain(edits + [e], from, e.end)
    ensures Stitch(base[..e.end], edits + [e], from) == Stitch(base[..e.start], edits, from) + e.body
    decreases |edits|
  {
    if edits == [] {
      assert (edits + [e])[1..] == [];
      assert base[..e.end][e.end..] == [] && base[..e.end][from..e.start] == base[..e.start][from..];
    } else {
      assert (edits + [e])[1..] == edits[1..] + [e] && (edits + [e])[0] == edits[0];
      StitchSnoc(base, edits[1..], edits[0].end, e);
      SliceOfPrefix(base, from, edits[0].start, e.start);
      SliceOfPrefix(base, from, edits[0].start, e.end);
    }
  }

  /** Reading further without an edit adds the text as it is. */
  lemma {:induction false} StitchExtend<T>(base: seq<T>, edits: seq<Edit<T>>, from: nat, m: nat, m': nat)
    requires Chain(edits, from, m) && m <= m' <= |base|
    ensures Chain(edits, from, m')
    ensures Stitch(base[..m'], edits, from) == Stitch(base[..m], edits, from) + base[m..m']
    decreases |edits|
  {
    if edits == [] {
      assert base[..m'][from..] == base[..m][from..] + base[m..m'];
    } else {
      StitchExtend(base, edits[1..], edits[0].end, m, m');
      SliceOfPrefix(base, from, edits[0].start, m);
      SliceOfPrefix(base, from, edits[0].start, m');
    }
  }
}
