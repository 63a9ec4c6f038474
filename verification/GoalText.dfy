/**
 Text entered into a goal: line breaks and control characters become spaces, the ends
 are trimmed and the rest is cut to a byte budget. Lists of such texts drop repeats.
 */
module GoalText {
  import opened Basics
  import opened Utf
  import opened Spaces
  import opened Truncation

  const MAX_TEXT: int := 2000
  const MAX_SHORT: int := 500
  const MAX_LIST: nat := 16

  predicate IsControl(u: Unit) { u < 0x20 || 0x7F <= u <= 0x9F }

  /** Each line break (CR, LF or both) and each control character as one space. */
  function Spaced(t: Text): Text {
    if t == [] then []
    else if |t| >= 2 && t[0] == 13 && t[1] == 10 then [0x20] + Spaced(t[2..])
    else [if IsControl(t[0]) then 0x20 else t[0]] + Spaced(t[1..])
  }

  function Clean(t: Text, max: int): Text { Cut(Trim(Spaced(t)), max) }

  /** Says something once it is cleaned. */
  predicate Nonblank(t: Text) { !AllSpace(Spaced(t)) }

  predicate HasBreakPair(t: Text) { exists i :: 0 <= i < |t| - 1 && t[i] == 13 && t[i + 1] == 10 }

  lemma FirstSpaced(t: Text)
    requires t != []
    ensures var n := if |t| >= 2 && t[0] == 13 && t[1] == 10 then 2 else 1;
      Spaced(t) == [if IsControl(t[0]) then 0x20 else t[0]] + Spaced(t[n..])
  {
  }

  /** A pair of CR and LF becomes one space, also behind another CR. */
  lemma {:induction false} PairIsOneSpace(a: Text, b: Text)
    ensures Spaced(a + [13, 10] + b) == Spaced(a) + [32] + Spaced(b)
  {
    var t := a + [13, 10] + b;
    if a == [] {
      assert t[2..] == b;
    } else {
      var n := if |a| >= 2 && a[0] == 13 && a[1] == 10 then 2 else 1;
      assert t[n..] == a[n..] + [13, 10] + b;
      PairIsOneSpace(a[n..], b);
      FirstSpaced(t);
      FirstSpaced(a);
      hide Spaced, IsControl;
    }
  }

  /** Without such pairs each unit stays in its place, a control character as a space. */
  lemma {:induction false} UnitsStay(t: Text)
    requires !HasBreakPair(t)
    ensures |Spaced(t)| == |t|
    ensures forall i | 0 <= i < |t| :: Spaced(t)[i] == if t[i] < 32 || 127 <= t[i] <= 159 then 32 else t[i]
  {
    if t != [] {
      forall i | 0 <= i < |t[1..]| - 1 ensures !(t[1..][i] == 13 && t[1..][i + 1] == 10) { assert t[i + 1] == t[1..][i]; }
      UnitsStay(t[1..]);
      assert |t| >= 2 ==> !(t[0 + 0] == 13 && t[0 + 1] == 10);
    }
  }

  /** Cleaned text is what stands between the white space at both ends, whole if it keeps to the
      limit and a beginning that does if not, the longest if the text is well formed. */
  lemma CleanIs(t: Text, max: nat) returns (a: Text, v: Text, b: Text)
    ensures Stripped(Spaced(t), a, v, b)
    ensures Clean(t, max) <= v && (ByteLength(v) <= max ==> Clean(t, max) == v)
    ensures WellFormed(v) ==> LongestFit(v, max, Clean(t, max))
  {
    a, v, b := TrimIs(Spaced(t));
    if WellFormed(v) { CutFits(v, max); }
    WholeFits(v, max);
  }

  lemma WholeFits(v: Text, max: nat)
    ensures ByteLength(v) <= max ==> Cut(v, max) == v
  {
    NothingFits(v);
    assert v[..|v|] == v;
  }

  lemma {:induction false} SpacedHasNoControls(t: Text)
    ensures forall u | u in Spaced(t) :: !IsControl(u)
  {
    if t != [] {
      if |t| >= 2 && t[0] == 13 && t[1] == 10 { SpacedHasNoControls(t[2..]); } else { SpacedHasNoControls(t[1..]); }
    }
  }

  lemma {:induction false} BytesPerUnit(t: Text)
    ensures ByteLength(t) <= 3 * |t|
  {
    if t != [] {
      EncodeUnfold(t);
      BytesPerUnit(t[FirstUnits(t)..]);
      assert |BytesOf(Scalar(t))| <= 3 * FirstUnits(t);
    }
  }

  lemma {:induction false} CutFromKeepsTwo(t: Text, end: nat, max: int)
    requires 2 <= end <= |t| && max >= 6
    ensures CutFrom(t, end, max) >= 2
  {
    BytesPerUnit(t[..end]);
    if end > 2 {
      CutFromKeepsTwo(t, end - 1, max);
    }
  }

  /** Cutting to six bytes or more never empties a text. */
  lemma CutKeepsTake(t: Text, max: int)
    requires t != [] && max >= 6
    ensures Cut(t, max) != [] && Cut(t, max)[0] == t[0]
  {
    BytesPerUnit(t);
    assert t[..|t|] == t;
    if |t| >= 2 { CutFromKeepsTwo(t, |t|, max); }
  }

  lemma CleanNonblank(t: Text, max: int)
    requires max >= 6
    ensures Clean(t, max) != [] <==> Nonblank(t)
    ensures Nonblank(Clean(t, max)) <==> Nonblank(t)
  {
    var s := Spaced(t);
    var u := TrimStart(s);
    var v := Trim(s);
    if Nonblank(t) {
      assert u != [] && !IsSpace(u[0]) && u[0] in u;
      assert !AllSpace(u);
      assert v != [] && v[0] == u[0];
      SpacedHasNoControls(t);
      CutKeepsTake(v, max);
      StartsPlainly(Clean(t, max));
    } else {
      assert u == [] && v == [];
      assert Cut(v, max) == [];
      assert Spaced([]) == [];
    }
  }

  lemma StartsPlainly(t: Text)
    requires t != [] && !IsControl(t[0]) && !IsSpace(t[0])
    ensures Nonblank(t)
  {
    assert Spaced(t)[0] == t[0];
    assert Spaced(t)[0] in Spaced(t);
  }

  // ---- Lists ----------------------------------------------------------------------------

  function CleanAll(ts: seq<Text>, max: int): (r: seq<Text>)
    ensures |r| == |ts|
    ensures forall i | 0 <= i < |ts| :: r[i] == Clean(ts[i], max)
  {
    seq(|ts|, i requires 0 <= i < |ts| => Clean(ts[i], max))
  }

  /** The first of each group of equal texts, in order. */
  function Dedupe(ts: seq<Text>): (r: seq<Text>)
    ensures forall t :: t in r <==> t in ts
    ensures forall i, j | 0 <= i < j < |r| :: r[i] != r[j]
  {
    if ts == [] then []
    else
      var r, last := Dedupe(ts[..|ts| - 1]), ts[|ts| - 1];
      assert ts == ts[..|ts| - 1] + [last];
      if last in r then r else r + [last]
  }

  function NonEmpty(ts: seq<Text>): (r: seq<Text>)
    ensures forall t :: t in r <==> t in ts && t != []
  {
    if ts == [] then [] else (if ts[0] == [] then [] else [ts[0]]) + NonEmpty(ts[1..])
  }

  predicate SomeNonblank(ts: seq<Text>) { exists t | t in ts :: Nonblank(t) }

  /** Evidence for one criterion: repeats dropped, at most sixteen entries, blanks kept. */
  function Evidence(ts: seq<Text>): seq<Text> { Take(Dedupe(CleanAll(ts, MAX_SHORT)), MAX_LIST) }

  /** Evidence for a settlement or a block: blanks dropped as well. */
  function FilteredEvidence(ts: seq<Text>): seq<Text> { Take(NonEmpty(Dedupe(CleanAll(ts, MAX_SHORT))), MAX_LIST) }

  /** What comes later never takes the place of what was kept. */
  lemma EvidenceGrows(ts: seq<Text>, t: Text)
    ensures Evidence(ts) <= Evidence(ts + [t]) && FilteredEvidence(ts) <= FilteredEvidence(ts + [t])
  {
    var all, s := CleanAll(ts, MAX_SHORT), Clean(t, MAX_SHORT);
    assert CleanAll(ts + [t], MAX_SHORT) == all + [s];
    hide Clean, CleanAll;
    DedupeSnoc(all, s);
    NonEmptySnoc(Dedupe(all), s);
    hide NonEmpty, Dedupe;
  }

  lemma DedupeSnoc(ts: seq<Text>, t: Text)
    ensures Dedupe(ts + [t]) == Dedupe(ts) || Dedupe(ts + [t]) == Dedupe(ts) + [t]
  {
    assert (ts + [t])[..|ts|] == ts;
  }

  lemma {:induction false} NonEmptySnoc(ts: seq<Text>, t: Text)
    ensures NonEmpty(ts + [t]) == NonEmpty(ts) + if t == [] then [] else [t]
  {
    if ts != [] {
      assert (ts + [t])[1..] == ts[1..] + [t];
      NonEmptySnoc(ts[1..], t);
    }
  }

  /** Entries for a criterion are the cleaned ones that were given, each once, at most sixteen, and
      all of them if they are fewer. */
  lemma EvidenceIs(ts: seq<Text>)
    ensures var kept := Evidence(ts);
      && Distinct(kept) && |kept| <= 16
      && (forall t | t in kept :: exists s | s in ts :: Clean(s, 500) == t)
      && (|kept| < 16 ==> forall s | s in ts :: Clean(s, 500) in kept)
  {
    hide Clean;
    var all := CleanAll(ts, MAX_SHORT);
    forall s | s in ts ensures Clean(s, 500) in all {
      var i :| 0 <= i < |ts| && ts[i] == s;
      assert all[i] in all;
    }
    forall t | t in all ensures exists s | s in ts :: Clean(s, 500) == t {
      var i :| 0 <= i < |all| && all[i] == t;
      assert ts[i] in ts;
    }
    var kept := Evidence(ts);
    forall t | t in kept ensures t in Dedupe(all) {}
    assert |kept| < 16 ==> kept == Dedupe(all);
  }

  /** One of sixteen different entries is not blank, so the cut cannot lose all evidence. */
  lemma EvidenceSurvives(ts: seq<Text>)
    requires SomeNonblank(ts)
    ensures SomeNonblank(Evidence(ts))
  {
    var t :| t in ts && Nonblank(t);
    var i :| 0 <= i < |ts| && ts[i] == t;
    CleanNonblank(t, MAX_SHORT);
    var all := CleanAll(ts, MAX_SHORT);
    assert all[i] in all;
    var d := Dedupe(all);
    hide Nonblank, Clean;
    var k :| 0 <= k < |d| && d[k] == Clean(t, MAX_SHORT);
    if k < MAX_LIST {
      assert Take(d, MAX_LIST)[k] == d[k];
    } else {
      var j := if d[0] == [] then 1 else 0;
      assert d[j] != [] && d[j] in all;
      CleanedNonblank(ts, d[j]);
      assert Take(d, MAX_LIST)[j] == d[j];
    }
  }

  lemma CleanedNonblank(ts: seq<Text>, t: Text)
    requires t in CleanAll(ts, MAX_SHORT) && t != []
    ensures Nonblank(t)
  {
    var i :| 0 <= i < |ts| && CleanAll(ts, MAX_SHORT)[i] == t;
    CleanNonblank(ts[i], MAX_SHORT);
  }

  /** Filtered evidence holds only entries that say something, and some if any were given. */
  lemma FilteredSurvives(ts: seq<Text>)
    ensures forall t | t in FilteredEvidence(ts) :: Nonblank(t)
    ensures SomeNonblank(ts) ==> FilteredEvidence(ts) != [] && SomeNonblank(FilteredEvidence(ts))
  {
    var all := CleanAll(ts, MAX_SHORT);
    var kept := NonEmpty(Dedupe(all));
    hide Nonblank, Clean;
    forall t | t in FilteredEvidence(ts) ensures Nonblank(t) {
      assert t in kept;
      CleanedNonblank(ts, t);
    }
    if SomeNonblank(ts) {
      EvidenceSurvives(ts);
      var e :| e in Evidence(ts) && Nonblank(e);
      BlankIsNot();
      assert e in Dedupe(all) && e in kept;
      assert kept[0] == FilteredEvidence(ts)[0] && FilteredEvidence(ts)[0] in FilteredEvidence(ts);
    }
  }

  lemma BlankIsNot()
    ensures !Nonblank([])
  {
  }
}
