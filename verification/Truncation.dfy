/**
 Three ways of cutting a text to a byte budget. Each walks differently; on well-formed
 text all of them return the longest prefix of whole code points that fits.
 */
module Truncation {
  import opened Utf

  /** `p` is made of whole code points of `t`, fits, and no longer such prefix fits. */
  ghost predicate LongestFit(t: Text, max: nat, p: Text) {
    && p <= t && WellFormed(p) && ByteLength(p) <= max
    && forall n :: |p| < n <= |t| && WellFormed(t[..n]) ==> ByteLength(t[..n]) > max
  }

  lemma LongestFitIsUnique(t: Text, max: nat, p: Text, q: Text)
    requires LongestFit(t, max, p) && LongestFit(t, max, q)
    ensures p == q
  {
    assert p == t[..|p|] && q == t[..|q|];
  }

  /** The last end, going down, at which the prefix fits. */
  function CutFrom(t: Text, end: nat, max: int): (n: nat)
    requires end <= |t|
    ensures n <= end
  {
    if end == 0 || ByteLength(t[..end]) <= max then end else CutFrom(t, end - 1, max)
  }

  /** What the first cut below returns for any text, well formed or not. */
  function Cut(t: Text, max: int): (r: Text)
    ensures r <= t
  {
    if max <= 0 then []
    else
      var n := CutFrom(t, |t|, max);
      t[..if n < |t| && n > 0 && IsHigh(t[n - 1]) then n - 1 else n]
  }

  lemma {:induction false} CutFromIs(t: Text, end: nat, max: int)
    requires end <= |t|
    ensures var n := CutFrom(t, end, max);
      && (n == 0 || ByteLength(t[..n]) <= max)
      && forall m :: n < m <= end ==> ByteLength(t[..m]) > max
  {
    hide ByteLength;
    if !(end == 0 || ByteLength(t[..end]) <= max) { CutFromIs(t, end - 1, max); }
  }

  lemma CutFits(t: Text, max: nat)
    requires WellFormed(t)
    ensures LongestFit(t, max, Cut(t, max))
  {
    hide WellFormed, ByteLength, CutFrom, LongestFit;
    NothingFits(t);
    if max == 0 {
      IsLongest(t, 0, 0);
    } else {
      var n := CutFrom(t, |t|, max);
      CutFromIs(t, |t|, max);
      assert t[..|t|] == t && t[..0] == [];
      PrefixWellFormed(t, n);
      if n > 0 && IsHigh(t[n - 1]) {
        assert n < |t|;
        IsLongest(t, max, n - 1);
      } else {
        IsLongest(t, max, n);
      }
    }
  }

  lemma IsLongest(t: Text, max: nat, n: nat)
    requires n <= |t| && WellFormed(t[..n]) && ByteLength(t[..n]) <= max
    requires forall m :: n < m <= |t| && WellFormed(t[..m]) ==> ByteLength(t[..m]) > max
    ensures LongestFit(t, max, t[..n])
  {
    hide WellFormed, ByteLength;
  }

  lemma NothingFits(t: Text)
    ensures ByteLength([]) == 0 && WellFormed([])
    ensures forall n :: 0 < n <= |t| ==> ByteLength(t[..n]) > 0
  {
    forall n | 0 < n <= |t| ensures ByteLength(t[..n]) > 0 {
      EncodeUnfold(t[..n]);
    }
  }

  /** Goal state: shorten unit by unit, then step off a split pair. */
  method TruncateByUnits(t: Text, maxBytes: int) returns (r: Text)
    ensures maxBytes <= 0 ==> r == []
    ensures maxBytes >= 0 && WellFormed(t) ==> LongestFit(t, maxBytes, r)
    ensures r == Cut(t, maxBytes)
  {
    hide WellFormed, Encode, LongestFit;
    if maxBytes >= 0 && WellFormed(t) { CutFits(t, maxBytes); }
    if maxBytes <= 0 { return []; }
    assert t[..|t|] == t;
    if ByteLength(t) <= maxBytes { return t; }
    var end := |t|;
    while end > 0 && ByteLength(t[..end]) > maxBytes
      invariant 0 <= end <= |t|
      invariant CutFrom(t, end, maxBytes) == CutFrom(t, |t|, maxBytes)
    {
      end := end - 1;
    }
    if end > 0 {
      var last := t[end - 1];
      if IsHigh(last) { end := end - 1; }
    }
    r := t[..end];
  }

  /** Hashline: shorten by a whole pair when a low surrogate is last. */
  method TruncateByPoints(t: Text, maxBytes: int) returns (r: Text)
    ensures maxBytes < 0 ==> r == []
    ensures maxBytes >= 0 && WellFormed(t) ==> LongestFit(t, maxBytes, r)
  {
    hide BytesOf, Scalar;
    if ByteLength(t) <= maxBytes { assert t == t[..|t|]; return t; }
    r := t;
    ghost var sound := WellFormed(t);
    assert t == t[..|t|];
    while r != [] && ByteLength(r) > maxBytes
      invariant r == t[..|r|]
      invariant r <= t && (sound ==> WellFormed(r))
      invariant sound ==> forall n :: |r| < n <= |t| && WellFormed(t[..n]) ==> ByteLength(t[..n]) > maxBytes
      decreases |r|
    {
      var last := r[|r| - 1];
      if sound { LastPoint(t, |r|); PointBefore(t, r); }
      r := if !IsLow(last) then r[..|r| - 1] else if |r| >= 2 then r[..|r| - 2] else [];
    }
    if r != [] && IsHigh(r[|r| - 1]) {
      if sound { PrefixWellFormed(t, |r|); }
      r := r[..|r| - 1];
    }
  }

  /** The last code point of a prefix, seen from its end. */
  lemma LastPoint(t: Text, n: nat)
    requires WellFormed(t) && 0 < n <= |t| && WellFormed(t[..n])
    ensures !IsLow(t[n - 1]) ==> WellFormed(t[..n - 1]) && t[..n][..n - 1] == t[..n - 1]
    ensures IsLow(t[n - 1]) ==> n >= 2 && WellFormed(t[..n - 2]) && !WellFormed(t[..n - 1]) && t[..n][..n - 2] == t[..n - 2]
  {
    hide WellFormed, Encode, ByteLength;
    PrefixWellFormed(t, n);
    PrefixWellFormed(t, n - 1);
    LowFollowsHigh(t, n - 1);
    if IsLow(t[n - 1]) { PrefixWellFormed(t, n - 2); }
  }

  lemma PointBefore(t: Text, r: Text)
    requires |r| <= |t| && r == t[..|r|]
    ensures |r| >= 1 ==> r[..|r| - 1] == t[..|r| - 1] && r[|r| - 1] == t[|r| - 1]
    ensures |r| >= 2 ==> r[..|r| - 2] == t[..|r| - 2]
  {
  }

  /** Verify gate: cut the bytes, back over continuation bytes, decode. */
  method TruncateByBytes(t: Text, maxBytes: nat) returns (r: Text)
    ensures WellFormed(t) ==> LongestFit(t, maxBytes, r)
    ensures ByteLength(t) > maxBytes ==> exists n :: 0 <= n <= |t| && Encode(r) == Encode(t[..n])
  {
    var bytes := Encode(t);
    if |bytes| <= maxBytes { assert t == t[..|t|]; return t; }
    var end := maxBytes;
    while end > 0 && IsContinuation(bytes[end])
      invariant 0 <= end <= maxBytes < |bytes|
      invariant forall i | end < i <= maxBytes :: IsContinuation(bytes[i])
    {
      end := end - 1;
    }
    if end == 0 { StartsWithLead(t); }
    var n := PointAt(t, end);
    DecodesBack(t[..n]);
    EncodeDecode(bytes[..end]);
    r := Decode(bytes[..end]).value;
    if WellFormed(t) {
      DecodeEncode(t[..n]);
      BytesFit(t, maxBytes, end, n);
    }
  }

  lemma StartsWithLead(t: Text)
    requires t != []
    ensures !IsContinuation(Encode(t)[0])
    ensures forall i | 0 < i < |BytesOf(Scalar(t))| :: IsContinuation(Encode(t)[i])
  {
    var e := BytesOf(Scalar(t));
    EncodeUnfold(t);
    assert forall i | 0 <= i < |e| :: Encode(t)[i] == e[i];
  }

  /** The number of units encoded by the first `end` bytes. */
  function PointAt(t: Text, end: nat): (n: nat)
    requires end < |Encode(t)| && !IsContinuation(Encode(t)[end])
    ensures n < |t| && Encode(t[..n]) == Encode(t)[..end]
    ensures WellFormed(t) ==> WellFormed(t[..n])
  {
    if end == 0 then 0
    else
      var k, e := FirstUnits(t), |BytesOf(Scalar(t))|;
      StartsWithLead(t);
      EncodeUnfold(t);
      var n := PointAt(t[k..], end - e);
      PointStep(t, end, n);
      k + n
  }

  lemma PointStep(t: Text, end: nat, n: nat)
    requires t != [] && |BytesOf(Scalar(t))| <= end <= |Encode(t)|
    requires var rest := t[FirstUnits(t)..];
      n < |rest| && Encode(rest[..n]) == Encode(rest)[..end - |BytesOf(Scalar(t))|]
    ensures Encode(t[..FirstUnits(t) + n]) == Encode(t)[..end]
    ensures WellFormed(t) && WellFormed(t[FirstUnits(t)..][..n]) ==> WellFormed(t[..FirstUnits(t) + n])
  {
    hide Encode, BytesOf, Scalar, FirstUnits, WellFormed, StartsWithPair;
    var k := FirstUnits(t);
    EncodeUnfold(t);
    var p := t[..k + n];
    HeadStays(t, k + n);
    EncodeUnfold(t);
    EncodeUnfold(p);
    assert p[k..] == t[k..][..n];
    TakeConcat(BytesOf(Scalar(t)), Encode(t[k..]), end);
  }

  lemma TakeConcat<T>(a: seq<T>, b: seq<T>, n: nat)
    requires |a| <= n <= |a| + |b|
    ensures (a + b)[..n] == a + b[..n - |a|]
  {
  }

  /** Cutting after the first code point leaves it in place. */
  lemma HeadStays(t: Text, n: nat)
    requires t != [] && FirstUnits(t) <= n <= |t|
    requires !StartsWithPair(t) && n >= 2 ==> t[..n][1] == t[1]
    ensures t[..n] != [] && FirstUnits(t[..n]) == FirstUnits(t) && Scalar(t[..n]) == Scalar(t)
    ensures WellFormed(t) && WellFormed(t[..n][FirstUnits(t)..]) ==> WellFormed(t[..n])
  {
  }

  lemma {:induction false} DecodesBack(t: Text)
    ensures Decode(Encode(t)).Some?
  {
    if t != [] {
      var rest := Encode(t[FirstUnits(t)..]);
      DecodesBack(t[FirstUnits(t)..]);
      DecodeFirstOfBytesOf(Scalar(t), rest);
      assert Encode(t)[|BytesOf(Scalar(t))|..] == rest;
    }
  }

  /** A whole-code-point prefix ends where a code point starts. */
  lemma PrefixBytes(t: Text, n: nat)
    requires WellFormed(t) && n < |t| && WellFormed(t[..n])
    ensures |Encode(t[..n])| < |Encode(t)| && !IsContinuation(Encode(t)[|Encode(t[..n])|])
  {
    EncodeConcat(t[..n], t[n..]);
    assert t == t[..n] + t[n..];
    StartsWithLead(t[n..]);
  }

  lemma BytesFit(t: Text, max: nat, end: nat, n: nat)
    requires WellFormed(t) && end <= max < |Encode(t)| && n < |t| && WellFormed(t[..n])
    requires Encode(t[..n]) == Encode(t)[..end]
    requires forall i | end < i <= max :: IsContinuation(Encode(t)[i])
    ensures LongestFit(t, max, t[..n])
  {
    forall m | n < m <= |t| && WellFormed(t[..m]) ensures ByteLength(t[..m]) > max {
      if m < |t| {
        PrefixBytes(t, m);
        assert t[..m][..n] == t[..n];
        PrefixBytes(t[..m], n);
      } else {
        assert t[..m] == t;
      }
    }
  }
}
