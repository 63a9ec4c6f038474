/**
 Text as JavaScript sees it: a sequence of UTF-16 code units, in which a surrogate
 may stand alone (section 2 of RFC 2781), and its UTF-8 form (section 3 of RFC 3629).
 */
module Utf {
  datatype Option<+T> = None | Some(value: T)

  type Unit = u: int | 0 <= u < 0x1_0000
  type Text = seq<Unit>
  type Byte = b: int | 0 <= b < 0x100
  type Bytes = seq<Byte>

  const BOM: Unit := 0xFEFF

  /** The text of an ASCII literal. */
  function Ascii(s: string): (t: Text)
    requires forall i | 0 <= i < |s| :: s[i] as int < 0x80
    ensures |t| == |s|
  {
    seq(|s|, i requires 0 <= i < |s| => s[i] as int)
  }

  predicate IsHigh(u: Unit) { 0xD800 <= u <= 0xDBFF }

  predicate IsLow(u: Unit) { 0xDC00 <= u <= 0xDFFF }

  /** `t` starts with a surrogate pair, that is, with one code point of two units. */
  predicate StartsWithPair(t: Text) {
    |t| >= 2 && IsHigh(t[0]) && IsLow(t[1])
  }

  /** The number of units of the first code point; a lone surrogate counts as one. */
  function FirstUnits(t: Text): (n: nat)
    requires t != []
    ensures 1 <= n <= |t|
  {
    if StartsWithPair(t) then 2 else 1
  }

  predicate WellFormed(t: Text) {
    t == [] ||
    ((StartsWithPair(t) || (!IsHigh(t[0]) && !IsLow(t[0]))) && WellFormed(t[FirstUnits(t)..]))
  }

  /** The scalar value of the first code point; a lone surrogate is sent as U+FFFD. */
  function Scalar(t: Text): (p: int)
    requires t != []
    ensures 0 <= p < 0x11_0000 && !(0xD800 <= p < 0xE000)
  {
    var u: int := t[0];
    if StartsWithPair(t) then
      var l: int := t[1];
      0x1_0000 + (u - 0xD800) * 0x400 + (l - 0xDC00)
    else if IsHigh(u) || IsLow(u) then 0xFFFD
    else u
  }

  function UnitsOf(p: int): Text
    requires 0 <= p < 0x11_0000
  {
    if p < 0x1_0000 then [p] else [0xD800 + (p - 0x1_0000) / 0x400, 0xDC00 + (p - 0x1_0000) % 0x400]
  }

  /** The one to four bytes of a scalar value. */
  function BytesOf(p: int): (b: Bytes)
    requires 0 <= p < 0x11_0000
    ensures 1 <= |b| <= 4
  {
    if p < 0x80 then [p]
    else if p < 0x800 then [0xC0 + p / 0x40, 0x80 + p % 0x40]
    else if p < 0x1_0000 then [0xE0 + p / 0x40 / 0x40, 0x80 + p / 0x40 % 0x40, 0x80 + p % 0x40]
    else [0xF0 + p / 0x40 / 0x40 / 0x40, 0x80 + p / 0x40 / 0x40 % 0x40, 0x80 + p / 0x40 % 0x40, 0x80 + p % 0x40]
  }

  function Encode(t: Text): Bytes {
    if t == [] then [] else BytesOf(Scalar(t)) + Encode(t[FirstUnits(t)..])
  }

  /** What Node's `Buffer.byteLength` reports. */
  function ByteLength(t: Text): nat { |Encode(t)| }

  predicate IsContinuation(b: Byte) { 0x80 <= b < 0xC0 }

  /** The scalar value a byte string starts with under the strict table of RFC 3629,
      with the number of bytes it takes; None where a fatal decoder stops. */
  function DecodeFirst(b: Bytes): (r: Option<(int, nat)>)
    requires b != []
    ensures r.Some? ==> 0 <= r.value.0 < 0x11_0000 && !(0xD800 <= r.value.0 < 0xE000)
    ensures r.Some? ==> 1 <= r.value.1 <= |b|
  {
    var b0: int := b[0];
    if b0 < 0x80 then Some((b0, 1))
    else if 0xC2 <= b0 < 0xE0 && |b| >= 2 && IsContinuation(b[1]) then
      var c1: int := b[1];
      Some(((b0 - 0xC0) * 0x40 + (c1 - 0x80), 2))
    else if 0xE0 <= b0 < 0xF0 && |b| >= 3 && IsContinuation(b[1]) && IsContinuation(b[2]) then
      var c1: int, c2: int := b[1], b[2];
      var p := ((b0 - 0xE0) * 0x40 + (c1 - 0x80)) * 0x40 + (c2 - 0x80);
      if p < 0x800 || 0xD800 <= p < 0xE000 then None else Some((p, 3))
    else if 0xF0 <= b0 < 0xF5 && |b| >= 4 && IsContinuation(b[1]) && IsContinuation(b[2]) && IsContinuation(b[3]) then
      var c1: int, c2: int, c3: int := b[1], b[2], b[3];
      var p := (((b0 - 0xF0) * 0x40 + (c1 - 0x80)) * 0x40 + (c2 - 0x80)) * 0x40 + (c3 - 0x80);
      if p < 0x1_0000 || p >= 0x11_0000 then None else Some((p, 4))
    else None
  }

  /** A fatal UTF-8 decoder that keeps a leading U+FEFF as content. */
  function Decode(b: Bytes): Option<Text> {
    if b == [] then Some([])
    else
      match DecodeFirst(b)
      case None => None
      case Some((p, n)) =>
        match Decode(b[n..])
        case None => None
        case Some(rest) => Some(UnitsOf(p) + rest)
  }

  lemma DecodeFirstOfBytesOf(p: int, rest: Bytes)
    requires 0 <= p < 0x11_0000 && !(0xD800 <= p < 0xE000)
    ensures DecodeFirst(BytesOf(p) + rest) == Some((p, |BytesOf(p)|))
  {
    var e := BytesOf(p);
    var b := e + rest;
    assert b[0] == e[0];
    if |e| >= 2 { assert b[1] == e[1]; }
    if |e| >= 3 { assert b[2] == e[2]; }
    if |e| >= 4 { assert b[3] == e[3]; }
  }

  lemma TwoBytes(b0: Byte, b1: Byte)
    requires 0xC2 <= b0 < 0xE0 && IsContinuation(b1)
    ensures BytesOf((b0 as int - 0xC0) * 0x40 + (b1 as int - 0x80)) == [b0, b1]
  {
    Digits(b0 as int - 0xC0, b1 as int - 0x80);
  }

  lemma ThreeBytes(b0: Byte, b1: Byte, b2: Byte)
    requires 0xE0 <= b0 < 0xF0 && IsContinuation(b1) && IsContinuation(b2)
    requires ((b0 as int - 0xE0) * 0x40 + (b1 as int - 0x80)) * 0x40 + (b2 as int - 0x80) >= 0x800
    ensures BytesOf(((b0 as int - 0xE0) * 0x40 + (b1 as int - 0x80)) * 0x40 + (b2 as int - 0x80)) == [b0, b1, b2]
  {
    Digits(b0 as int - 0xE0, b1 as int - 0x80);
    Digits((b0 as int - 0xE0) * 0x40 + (b1 as int - 0x80), b2 as int - 0x80);
  }

  lemma FourBytes(b0: Byte, b1: Byte, b2: Byte, b3: Byte)
    requires 0xF0 <= b0 < 0xF5 && IsContinuation(b1) && IsContinuation(b2) && IsContinuation(b3)
    requires var q := ((b0 as int - 0xF0) * 0x40 + (b1 as int - 0x80)) * 0x40 + (b2 as int - 0x80);
      0x1_0000 <= q * 0x40 + (b3 as int - 0x80) < 0x11_0000
    ensures var q := ((b0 as int - 0xF0) * 0x40 + (b1 as int - 0x80)) * 0x40 + (b2 as int - 0x80);
      BytesOf(q * 0x40 + (b3 as int - 0x80)) == [b0, b1, b2, b3]
  {
    var q1 := (b0 as int - 0xF0) * 0x40 + (b1 as int - 0x80);
    var q := q1 * 0x40 + (b2 as int - 0x80);
    Digits(b0 as int - 0xF0, b1 as int - 0x80);
    Digits(q1, b2 as int - 0x80);
    Digits(q, b3 as int - 0x80);
  }

  lemma BytesOfDecodeFirst(b: Bytes)
    requires b != [] && DecodeFirst(b).Some?
    ensures BytesOf(DecodeFirst(b).value.0) == b[..DecodeFirst(b).value.1]
  {
    var n := DecodeFirst(b).value.1;
    if n == 1 {
      assert b[..1] == [b[0]];
    } else {
      hide BytesOf;
      if n == 2 {
        TwoBytes(b[0], b[1]);
        assert b[..2] == [b[0], b[1]];
      } else if n == 3 {
        ThreeBytes(b[0], b[1], b[2]);
        assert b[..3] == [b[0], b[1], b[2]];
      } else {
        FourBytes(b[0], b[1], b[2], b[3]);
        assert b[..4] == [b[0], b[1], b[2], b[3]];
      }
    }
  }

  lemma Digits(q: int, r: int)
    requires 0 <= r < 0x40
    ensures (q * 0x40 + r) / 0x40 == q && (q * 0x40 + r) % 0x40 == r
  {
  }

  lemma ScalarOfUnitsOf(p: int, rest: Text)
    requires 0 <= p < 0x11_0000 && !(0xD800 <= p < 0xE000)
    ensures var t := UnitsOf(p) + rest;
      && Scalar(t) == p && FirstUnits(t) == |UnitsOf(p)| && t[FirstUnits(t)..] == rest
      && (WellFormed(t) <==> WellFormed(rest))
  {
    var t := UnitsOf(p) + rest;
    assert t[0] == UnitsOf(p)[0];
    if p >= 0x1_0000 { assert t[1] == UnitsOf(p)[1]; }
    assert t[|UnitsOf(p)|..] == rest;
  }

  lemma EncodeUnitsOf(p: int, rest: Text)
    requires 0 <= p < 0x11_0000 && !(0xD800 <= p < 0xE000)
    ensures Encode(UnitsOf(p) + rest) == BytesOf(p) + Encode(rest)
    ensures WellFormed(UnitsOf(p) + rest) <==> WellFormed(rest)
  {
    ScalarOfUnitsOf(p, rest);
  }

  lemma UnitsOfScalar(t: Text)
    requires t != [] && WellFormed(t)
    ensures UnitsOf(Scalar(t)) == t[..FirstUnits(t)]
  {
    if StartsWithPair(t) {
      var u: int, l: int := t[0], t[1];
      assert Scalar(t) - 0x1_0000 == (u - 0xD800) * 0x400 + (l - 0xDC00);
    }
  }

  /** Decoding inverts encoding on every well-formed text. */
  lemma {:induction false} DecodeEncode(t: Text)
    requires WellFormed(t)
    ensures Decode(Encode(t)) == Some(t)
  {
    if t != [] {
      var n, e := FirstUnits(t), BytesOf(Scalar(t));
      DecodeEncode(t[n..]);
      DecodeFirstOfBytesOf(Scalar(t), Encode(t[n..]));
      UnitsOfScalar(t);
      assert Encode(t)[|e|..] == Encode(t[n..]);
      assert t[..n] + t[n..] == t;
    }
  }

  /** Whatever decodes is well formed and encodes back to the same bytes. */
  lemma {:induction false} EncodeDecode(b: Bytes)
    requires Decode(b).Some?
    ensures WellFormed(Decode(b).value) && Encode(Decode(b).value) == b
  {
    hide DecodeFirst, BytesOf, UnitsOf;
    if b != [] {
      var (p, n) := DecodeFirst(b).value;
      var rest := Decode(b[n..]).value;
      EncodeDecode(b[n..]);
      BytesOfDecodeFirst(b);
      EncodeUnitsOf(p, rest);
      assert b == b[..n] + b[n..];
      assert Decode(b).value == UnitsOf(p) + rest;
      assert Encode(UnitsOf(p) + rest) == BytesOf(p) + b[n..];
    }
  }

  /** Splitting a text after a well-formed part splits its encoding. */
  lemma {:induction false} EncodeConcat(a: Text, b: Text)
    requires WellFormed(a)
    ensures Encode(a + b) == Encode(a) + Encode(b)
    ensures WellFormed(a + b) <==> WellFormed(b)
  {
    if a == [] {
      assert a + b == b;
    } else {
      hide Encode, WellFormed, BytesOf, Scalar, FirstUnits, StartsWithPair;
      FirstOfConcat(a, b);
      EncodeUnfold(a);
      EncodeUnfold(a + b);
      EncodeConcat(a[FirstUnits(a)..], b);
      Assoc(BytesOf(Scalar(a)), Encode(a[FirstUnits(a)..]), Encode(b));
    }
  }

  lemma Assoc<T>(a: seq<T>, b: seq<T>, c: seq<T>)
    ensures (a + b) + c == a + (b + c)
  {
  }

  lemma EncodeUnfold(t: Text)
    requires t != []
    ensures Encode(t) == BytesOf(Scalar(t)) + Encode(t[FirstUnits(t)..])
  {
  }

  lemma FirstOfConcat(a: Text, b: Text)
    requires a != [] && WellFormed(a)
    ensures FirstUnits(a + b) == FirstUnits(a) && Scalar(a + b) == Scalar(a)
    ensures (a + b)[FirstUnits(a)..] == a[FirstUnits(a)..] + b
    ensures WellFormed(a[FirstUnits(a)..]) && (WellFormed(a + b) <==> WellFormed(a[FirstUnits(a)..] + b))
  {
    assert (a + b)[0] == a[0];
    if |a| > 1 { assert (a + b)[1] == a[1]; }
  }

  /** A text may be split before anything that is not a low surrogate. */
  lemma {:induction false} EncodeSplit(a: Text, b: Text)
    requires b != [] ==> !IsLow(b[0])
    ensures Encode(a + b) == Encode(a) + Encode(b)
  {
    if a == [] {
      assert a + b == b;
      assert Encode(a) + Encode(b) == Encode(b);
    } else {
      hide Encode, BytesOf;
      FirstOfSplit(a, b);
      hide Scalar, FirstUnits, StartsWithPair;
      EncodeUnfold(a);
      EncodeUnfold(a + b);
      EncodeSplit(a[FirstUnits(a)..], b);
      Assoc(BytesOf(Scalar(a)), Encode(a[FirstUnits(a)..]), Encode(b));
    }
  }

  lemma FirstOfSplit(a: Text, b: Text)
    requires a != [] && (b != [] ==> !IsLow(b[0]))
    ensures FirstUnits(a + b) == FirstUnits(a) && Scalar(a + b) == Scalar(a)
    ensures (a + b)[FirstUnits(a)..] == a[FirstUnits(a)..] + b
  {
    assert (a + b)[0] == a[0];
    if |a| > 1 { assert (a + b)[1] == a[1]; } else if b != [] { assert (a + b)[1] == b[0]; }
  }

  // Prefixes

  /** A prefix of well-formed text is well formed unless it ends inside a pair. */
  lemma {:induction false} PrefixWellFormed(t: Text, n: nat)
    requires WellFormed(t) && n <= |t|
    ensures WellFormed(t[..n]) <==> (n == 0 || !IsHigh(t[n - 1]))
    ensures WellFormed(t[..n]) ==> WellFormed(t[n..])
    ensures !WellFormed(t[..n]) ==> WellFormed(t[..n - 1]) && ByteLength(t[..n]) == ByteLength(t[..n - 1]) + 3
  {
    if n == 0 {
      assert t[0..] == t;
    } else if n < FirstUnits(t) {
      assert t[..1] == [t[0]];
      assert t[..0] == [];
      assert [t[0]][1..] == [];
    } else {
      var k := FirstUnits(t);
      var rest := t[k..];
      PrefixWellFormed(rest, n - k);
      assert t[..n] == t[..k] + rest[..n - k];
      assert t[n..] == rest[n - k..];
      HeadSplits(t, k, n);
      if n > k { HeadSplits(t, k, n - 1); assert t[..n - 1] == t[..k] + rest[..n - 1 - k]; }
    }
  }

  /** The first code point counts on its own in every prefix that holds it. */
  lemma HeadSplits(t: Text, k: nat, n: nat)
    requires t != [] && k == FirstUnits(t) <= n <= |t| && WellFormed(t)
    ensures t[..n] != [] && FirstUnits(t[..n]) == k && Scalar(t[..n]) == Scalar(t) && t[..n][k..] == t[k..][..n - k]
    ensures WellFormed(t[..n]) <==> WellFormed(t[k..][..n - k])
    ensures ByteLength(t[..n]) == |BytesOf(Scalar(t))| + ByteLength(t[k..][..n - k])
  {
  }

  /** In well-formed text the two halves of a pair stand side by side. */
  lemma {:induction false} LowFollowsHigh(t: Text, i: nat)
    requires WellFormed(t) && i < |t|
    ensures IsLow(t[i]) <==> i > 0 && IsHigh(t[i - 1])
  {
    var k := FirstUnits(t);
    if i >= k {
      LowFollowsHigh(t[k..], i - k);
    }
  }
}
