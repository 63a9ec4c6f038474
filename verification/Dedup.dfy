/**
 Read deduplication: a later `read` result whose path and text repeat an earlier one
 becomes a one-line reference to it, when that makes the context smaller.
 Two texts have the same SHA-256 digest exactly when they are the same text.
 */
module Dedup {
  import opened Utf
  import Decimal

  datatype Block =
    | TextBlock(text: Text)
    | ToolCall(name: Text, id: Text, path: Text)
    | OtherBlock(kind: Text)

  datatype Content = Absent | Plain(plain: Text) | Blocks(blocks: seq<Block>)

  datatype Role = ToolResult | OtherRole

  datatype Message = Message(role: Role, tool: Text, isError: bool, callId: Text, content: Content)

  /** How a replaced result refers to the copy kept at an index. */
  type Template = (Text, nat) -> Text

  /** `${path}\0${sha256(text)}`: equal keys are equal paths and equal texts. */
  datatype Key = Key(path: Text, text: Text)

  const READ: Text := Ascii("read")

  function BlockText(b: Block): Text { if b.TextBlock? then b.text else [] }

  function JoinTexts(bs: seq<Block>): Text {
    if bs == [] then []
    else if |bs| == 1 then BlockText(bs[0])
    else BlockText(bs[0]) + [10] + JoinTexts(bs[1..])
  }

  function TextOf(m: Message): Text {
    match m.content
    case Absent => []
    case Plain(t) => t
    case Blocks(bs) => JoinTexts(bs)
  }

  // ---- Labelling results by path ---------------------------------------------------

  predicate IsReadCall(b: Block) { b.ToolCall? && b.name == READ && b.id != [] && b.path != [] }

  function BlockCalls(bs: seq<Block>): seq<(Text, Text)> {
    if bs == [] then []
    else
      var b := bs[|bs| - 1];
      BlockCalls(bs[..|bs| - 1]) + if IsReadCall(b) then [(b.id, b.path)] else []
  }

  function MessageCalls(m: Message): seq<(Text, Text)> {
    if m.content.Blocks? then BlockCalls(m.content.blocks) else []
  }

  /** Every read call with its path, in the order of the messages. */
  function Calls(ms: seq<Message>): seq<(Text, Text)> {
    if ms == [] then [] else Calls(ms[..|ms| - 1]) + MessageCalls(ms[|ms| - 1])
  }

  /** The last path each call id was given. */
  function PathsOf(cs: seq<(Text, Text)>): map<Text, Text> {
    if cs == [] then map[]
    else
      var c := cs[|cs| - 1];
      PathsOf(cs[..|cs| - 1])[c.0 := c.1]
  }

  lemma PathsSnoc(cs: seq<(Text, Text)>, c: (Text, Text))
    ensures PathsOf(cs + [c]) == PathsOf(cs)[c.0 := c.1]
  {
    assert (cs + [c])[..|cs|] == cs;
  }

  lemma BlockCallsStep(bs: seq<Block>, j: nat)
    requires j < |bs|
    ensures IsReadCall(bs[j]) ==> BlockCalls(bs[..j + 1]) == BlockCalls(bs[..j]) + [(bs[j].id, bs[j].path)]
    ensures !IsReadCall(bs[j]) ==> BlockCalls(bs[..j + 1]) == BlockCalls(bs[..j])
  {
    assert bs[..j + 1][..j] == bs[..j];
  }

  method PathByCallId(ms: seq<Message>) returns (paths: map<Text, Text>)
    ensures paths == PathsOf(Calls(ms))
  {
    paths := map[];
    for i := 0 to |ms|
      invariant paths == PathsOf(Calls(ms[..i]))
    {
      ghost var before := Calls(ms[..i]);
      assert ms[..i + 1][..i] == ms[..i];
      if ms[i].content.Blocks? {
        var bs := ms[i].content.blocks;
        assert before + BlockCalls(bs[..0]) == before;
        for j := 0 to |bs|
          invariant paths == PathsOf(before + BlockCalls(bs[..j]))
        {
          BlockCallsStep(bs, j);
          if IsReadCall(bs[j]) {
            PathsSnoc(before + BlockCalls(bs[..j]), (bs[j].id, bs[j].path));
            Assoc(before, BlockCalls(bs[..j]), [(bs[j].id, bs[j].path)]);
            paths := paths[bs[j].id := bs[j].path];
          }
        }
        assert bs[..|bs|] == bs;
      } else {
        assert before + [] == before;
      }
    }
    assert ms[..|ms|] == ms;
  }

  // ---- What becomes of each message -------------------------------------------------

  predicate IsRead(m: Message) { m.role.ToolResult? && m.tool == READ && !m.isError }

  function KeyOf(paths: map<Text, Text>, m: Message): Option<Key> {
    if IsRead(m) && m.callId in paths && paths[m.callId] != [] && TextOf(m) != [] then
      Some(Key(paths[m.callId], TextOf(m)))
    else None
  }

  /** The earliest message with the key. */
  function FirstWith(paths: map<Text, Text>, ms: seq<Message>, k: Key): (n: nat)
    ensures n <= |ms|
    ensures n < |ms| ==> KeyOf(paths, ms[n]) == Some(k)
    ensures forall j | 0 <= j < n :: KeyOf(paths, ms[j]) != Some(k)
  {
    if ms == [] then 0
    else
      var n := FirstWith(paths, ms[..|ms| - 1], k);
      if n < |ms| - 1 then n
      else if KeyOf(paths, ms[|ms| - 1]) == Some(k) then |ms| - 1 else |ms|
  }

  /** The index of the copy message `i` is replaced by a reference to, if it is. */
  function ReplacedBy(stub: Template, paths: map<Text, Text>, ms: seq<Message>, i: nat): (r: Option<nat>)
    requires i < |ms|
  {
    match KeyOf(paths, ms[i])
    case None => None
    case Some(k) =>
      var kept := FirstWith(paths, ms, k);
      if kept < i && ByteLength(stub(k.path, kept)) < ByteLength(k.text) then Some(kept) else None
  }

  function Stubbed(stub: Template, paths: map<Text, Text>, m: Message, kept: nat): Message
    requires KeyOf(paths, m).Some?
  {
    m.(content := Blocks([TextBlock(stub(paths[m.callId], kept))]))
  }

  function Outcome(stub: Template, paths: map<Text, Text>, ms: seq<Message>, i: nat): Message
    requires i < |ms|
  {
    match ReplacedBy(stub, paths, ms, i)
    case None => ms[i]
    case Some(kept) => Stubbed(stub, paths, ms[i], kept)
  }

  /** The messages the model sees afterwards. */
  function Deduped(stub: Template, ms: seq<Message>): (out: seq<Message>)
    ensures |out| == |ms|
  {
    seq(|ms|, i requires 0 <= i < |ms| => Outcome(stub, PathsOf(Calls(ms)), ms, i))
  }

  /** The bytes of all texts. */
  function TextBytes(ms: seq<Message>): nat {
    if ms == [] then 0 else TextBytes(ms[..|ms| - 1]) + ByteLength(TextOf(ms[|ms| - 1]))
  }

  /** The number of messages that changed. */
  function ChangedCount(a: seq<Message>, b: seq<Message>): nat
    requires |a| == |b|
  {
    if a == [] then 0
    else ChangedCount(a[..|a| - 1], b[..|a| - 1]) + if a[|a| - 1] != b[|a| - 1] then 1 else 0
  }

  lemma ChangedSnoc(a: seq<Message>, b: seq<Message>, x: Message, y: Message)
    requires |a| == |b|
    ensures ChangedCount(a + [x], b + [y]) == ChangedCount(a, b) + if x != y then 1 else 0
    ensures TextBytes(a + [x]) == TextBytes(a) + ByteLength(TextOf(x))
    ensures TextBytes(b + [y]) == TextBytes(b) + ByteLength(TextOf(y))
  {
    assert (a + [x])[..|a|] == a;
    assert (b + [y])[..|a|] == b;
  }

  lemma {:induction false} NothingChanged(a: seq<Message>, b: seq<Message>)
    requires |a| == |b|
    ensures ChangedCount(a, b) == 0 <==> a == b
  {
    if a != [] {
      var n := |a| - 1;
      NothingChanged(a[..n], b[..n]);
      assert a == a[..n] + [a[n]];
      assert b == b[..n] + [b[n]];
    }
  }

  // ---- The pass over the messages ---------------------------------------------------

  /** `seen` holds the index of the kept copy of every key among the first `n` messages. */
  ghost predicate Seen(paths: map<Text, Text>, ms: seq<Message>, n: nat, seen: map<Key, nat>)
    requires n <= |ms|
  {
    forall k :: (k in seen <==> FirstWith(paths, ms, k) < n) && (k in seen ==> seen[k] == FirstWith(paths, ms, k))
  }

  lemma SeenStep(paths: map<Text, Text>, ms: seq<Message>, n: nat, seen: map<Key, nat>)
    requires n < |ms| && Seen(paths, ms, n, seen)
    ensures KeyOf(paths, ms[n]).None? ==> Seen(paths, ms, n + 1, seen)
    ensures KeyOf(paths, ms[n]).Some? && KeyOf(paths, ms[n]).value in seen ==> Seen(paths, ms, n + 1, seen)
    ensures KeyOf(paths, ms[n]).Some? && KeyOf(paths, ms[n]).value !in seen ==>
      Seen(paths, ms, n + 1, seen[KeyOf(paths, ms[n]).value := n])
  {
    hide KeyOf, FirstWith;
  }

  lemma StubText(stub: Template, paths: map<Text, Text>, m: Message, kept: nat)
    requires KeyOf(paths, m).Some?
    ensures TextOf(Stubbed(stub, paths, m, kept)) == stub(KeyOf(paths, m).value.path, kept)
  {
  }

  lemma NothingSeen(paths: map<Text, Text>, ms: seq<Message>)
    ensures Seen(paths, ms, 0, map[])
    ensures ChangedCount(ms[..0], []) == 0 && TextBytes(ms[..0]) == TextBytes([]) == 0
  {
  }

  lemma TakeSnoc<T>(s: seq<T>, n: nat)
    requires n < |s|
    ensures s[..n + 1] == s[..n] + [s[n]]
  {
  }

  lemma DedupedAt(stub: Template, ms: seq<Message>)
    ensures forall i | 0 <= i < |ms| :: Deduped(stub, ms)[i] == Outcome(stub, PathsOf(Calls(ms)), ms, i)
  {
  }

  /** What happens to message `n`, read off the map of kept copies. */
  lemma OutcomeBySeen(stub: Template, paths: map<Text, Text>, ms: seq<Message>, n: nat, seen: map<Key, nat>)
    requires n < |ms| && Seen(paths, ms, n, seen)
    ensures KeyOf(paths, ms[n]).None? ==> Outcome(stub, paths, ms, n) == ms[n]
    ensures KeyOf(paths, ms[n]).Some? ==>
      var k := KeyOf(paths, ms[n]).value;
      && k.text == TextOf(ms[n])
      && Outcome(stub, paths, ms, n) ==
         if k in seen && ByteLength(stub(k.path, seen[k])) < ByteLength(k.text) then Stubbed(stub, paths, ms[n], seen[k]) else ms[n]
  {
    hide Encode, TextOf;
  }

  lemma StubDiffers(stub: Template, paths: map<Text, Text>, m: Message, kept: nat)
    requires KeyOf(paths, m).Some? && ByteLength(stub(KeyOf(paths, m).value.path, kept)) < ByteLength(KeyOf(paths, m).value.text)
    ensures Stubbed(stub, paths, m, kept) != m
  {
    StubText(stub, paths, m, kept);
    hide Encode;
  }

  method DedupReadResults(stub: Template, ms: seq<Message>)
    returns (r: Option<(seq<Message>, nat, nat)>)
    ensures r.None? <==> Deduped(stub, ms) == ms
    ensures r.Some? ==> r.value.0 == Deduped(stub, ms)
    ensures r.Some? ==> r.value.1 == ChangedCount(ms, r.value.0) > 0
    ensures r.Some? ==> TextBytes(r.value.0) + r.value.2 == TextBytes(ms) && r.value.2 >= r.value.1
  {
    var paths := PathByCallId(ms);
    var seen: map<Key, nat> := map[];
    var replaced, saved := 0, 0;
    var out: seq<Message> := [];
    ghost var whole := Deduped(stub, ms);
    hide *;
    NothingSeen(paths, ms);
    DedupedAt(stub, ms);
    for i := 0 to |ms|
      invariant Seen(paths, ms, i, seen)
      invariant out == whole[..i]
      invariant replaced == ChangedCount(ms[..i], out)
      invariant TextBytes(out) + saved == TextBytes(ms[..i]) && saved >= replaced
    {
      SeenStep(paths, ms, i, seen);
      OutcomeBySeen(stub, paths, ms, i, seen);
      var m := ms[i];
      var next := m;
      var key := KeyOf(paths, m);
      if key.Some? {
        var k := key.value;
        if k !in seen {
          seen := seen[k := i];
        } else {
          var reference := stub(k.path, seen[k]);
          var gain := ByteLength(k.text) - ByteLength(reference);
          if gain > 0 {
            StubText(stub, paths, m, seen[k]);
            StubDiffers(stub, paths, m, seen[k]);
            replaced := replaced + 1;
            saved := saved + gain;
            next := Stubbed(stub, paths, m, seen[k]);
          }
        }
      }
      ChangedSnoc(ms[..i], out, m, next);
      TakeSnoc(ms, i);
      TakeSnoc(whole, i);
      out := out + [next];
    }
    assert ms[..|ms|] == ms;
    assert whole[..|ms|] == whole;
    NothingChanged(ms, out);
    r := if replaced > 0 then Some((out, replaced, saved)) else None;
  }

  // ---- References can be followed back ----------------------------------------------

  /** Each replaced message refers to an earlier message that is itself kept as it was
      and is a read of the same path with the same text; all others are untouched. */
  lemma EachStubNamesAKeptCopy(stub: Template, ms: seq<Message>, i: nat)
    requires i < |ms|
    ensures var paths, out := PathsOf(Calls(ms)), Deduped(stub, ms);
      match ReplacedBy(stub, paths, ms, i)
      case None => out[i] == ms[i]
      case Some(kept) =>
        && kept < i && out[kept] == ms[kept]
        && IsRead(ms[kept]) && ms[kept].callId in paths && IsRead(ms[i]) && ms[i].callId in paths
        && paths[ms[kept].callId] == paths[ms[i].callId] && TextOf(ms[kept]) == TextOf(ms[i])
        && TextOf(out[i]) == stub(paths[ms[i].callId], kept)
        && ByteLength(TextOf(out[i])) < ByteLength(TextOf(ms[i]))
        && out[i] == ms[i].(content := out[i].content)
  {
    hide Encode, FirstWith, Calls, PathsOf;
  }

  // ---- The prefix the model has already seen does not change -------------------------

  /** No call in `later` takes the id of a read result in `earlier`. */
  predicate CallsComeFirst(earlier: seq<Message>, later: seq<Message>) {
    forall m, c | m in earlier && c in Calls(later) :: IsRead(m) ==> m.callId != c.0
  }

  lemma {:induction false} CallsConcat(xs: seq<Message>, ys: seq<Message>)
    ensures Calls(xs + ys) == Calls(xs) + Calls(ys)
  {
    if ys == [] {
      assert xs + ys == xs;
    } else {
      var n := |ys| - 1;
      assert (xs + ys)[..|xs| + n] == xs + ys[..n];
      CallsConcat(xs, ys[..n]);
      Assoc(Calls(xs), Calls(ys[..n]), MessageCalls(ys[n]));
    }
  }

  lemma {:induction false} LaterCallsKeepPath(cs: seq<(Text, Text)>, ds: seq<(Text, Text)>, id: Text)
    requires forall d | d in ds :: d.0 != id
    ensures id in PathsOf(cs + ds) <==> id in PathsOf(cs)
    ensures id in PathsOf(cs) ==> PathsOf(cs + ds)[id] == PathsOf(cs)[id]
  {
    if ds == [] {
      assert cs + ds == cs;
    } else {
      var n := |ds| - 1;
      assert cs + ds == cs + ds[..n] + [ds[n]];
      LaterCallsKeepPath(cs, ds[..n], id);
      PathsSnoc(cs + ds[..n], ds[n]);
    }
  }

  lemma SameKey(xs: seq<Message>, ys: seq<Message>, i: nat)
    requires CallsComeFirst(xs, ys) && i < |xs|
    ensures KeyOf(PathsOf(Calls(xs + ys)), xs[i]) == KeyOf(PathsOf(Calls(xs)), xs[i])
  {
    CallsConcat(xs, ys);
    if IsRead(xs[i]) {
      LaterCallsKeepPath(Calls(xs), Calls(ys), xs[i].callId);
    }
  }

  ghost predicate SameKeys(p: map<Text, Text>, q: map<Text, Text>, xs: seq<Message>) {
    forall i | 0 <= i < |xs| :: KeyOf(p, xs[i]) == KeyOf(q, xs[i])
  }

  lemma SameFirst(p: map<Text, Text>, q: map<Text, Text>, xs: seq<Message>, ys: seq<Message>, k: Key)
    requires SameKeys(p, q, xs)
    ensures FirstWith(p, xs, k) < |xs| ==> FirstWith(q, xs + ys, k) == FirstWith(p, xs, k)
    ensures FirstWith(p, xs, k) == |xs| ==> FirstWith(q, xs + ys, k) >= |xs|
  {
    hide KeyOf;
    assert forall j | 0 <= j < |xs| :: KeyOf(q, (xs + ys)[j]) == KeyOf(p, xs[j]);
  }

  lemma SameOutcome(stub: Template, p: map<Text, Text>, q: map<Text, Text>, xs: seq<Message>, ys: seq<Message>, i: nat)
    requires SameKeys(p, q, xs) && i < |xs|
    ensures Outcome(stub, q, xs + ys, i) == Outcome(stub, p, xs, i)
  {
    assert (xs + ys)[i] == xs[i];
    if KeyOf(p, xs[i]).Some? {
      SameFirst(p, q, xs, ys, KeyOf(p, xs[i]).value);
    }
  }

  /** What was sent before stays byte for byte the same when messages are added. */
  lemma PrefixIsStable(stub: Template, xs: seq<Message>, ys: seq<Message>)
    requires CallsComeFirst(xs, ys)
    ensures Deduped(stub, xs) == Deduped(stub, xs + ys)[..|xs|]
  {
    var p, q := PathsOf(Calls(xs)), PathsOf(Calls(xs + ys));
    forall i | 0 <= i < |xs| ensures KeyOf(p, xs[i]) == KeyOf(q, xs[i]) { SameKey(xs, ys, i); }
    forall i | 0 <= i < |xs| ensures Outcome(stub, q, xs + ys, i) == Outcome(stub, p, xs, i) {
      SameOutcome(stub, p, q, xs, ys, i);
    }
  }

  // ---- A second pass changes nothing --------------------------------------------------

  /** A reference further down is at least as long. */
  ghost predicate GrowsWithIndex(stub: Template) {
    forall p, m, n :: m <= n ==> ByteLength(stub(p, m)) <= ByteLength(stub(p, n))
  }

  /** Tool results carry no calls. */
  ghost predicate ResultsHoldNoCalls(ms: seq<Message>) {
    forall m | m in ms :: IsRead(m) ==> MessageCalls(m) == []
  }

  /** No file read looks like a reference to its own path. */
  ghost predicate NoReadLooksLikeAStub(stub: Template, ms: seq<Message>) {
    forall m, n | m in ms :: LooksGenuine(stub, PathsOf(Calls(ms)), m, n)
  }

  ghost predicate LooksGenuine(stub: Template, paths: map<Text, Text>, m: Message, n: nat) {
    KeyOf(paths, m).Some? ==> KeyOf(paths, m).value.text != stub(KeyOf(paths, m).value.path, n)
  }

  lemma {:induction false} SameCalls(a: seq<Message>, b: seq<Message>)
    requires |a| == |b|
    requires forall i | 0 <= i < |a| :: MessageCalls(a[i]) == MessageCalls(b[i])
    ensures Calls(a) == Calls(b)
  {
    if a != [] { SameCalls(a[..|a| - 1], b[..|b| - 1]); }
  }

  lemma DedupedCalls(stub: Template, ms: seq<Message>)
    requires ResultsHoldNoCalls(ms)
    ensures Calls(Deduped(stub, ms)) == Calls(ms)
  {
    var paths, out := PathsOf(Calls(ms)), Deduped(stub, ms);
    forall i | 0 <= i < |ms| ensures MessageCalls(ms[i]) == MessageCalls(out[i]) {
      assert ms[i] in ms;
      if ReplacedBy(stub, paths, ms, i).Some? {
        var b := TextBlock(stub(paths[ms[i].callId], ReplacedBy(stub, paths, ms, i).value));
        assert BlockCalls([b]) == BlockCalls([b][..0]) + [];
      }
    }
    SameCalls(ms, out);
  }

  /** The key a message has after the pass. */
  lemma KeyAfter(stub: Template, paths: map<Text, Text>, ms: seq<Message>, i: nat)
    requires i < |ms|
    ensures ReplacedBy(stub, paths, ms, i).None? ==> KeyOf(paths, Outcome(stub, paths, ms, i)) == KeyOf(paths, ms[i])
    ensures ReplacedBy(stub, paths, ms, i).Some? ==>
      var k, s := KeyOf(paths, ms[i]).value, stub(KeyOf(paths, ms[i]).value.path, ReplacedBy(stub, paths, ms, i).value);
      KeyOf(paths, Outcome(stub, paths, ms, i)) == if s == [] then None else Some(Key(k.path, s))
  {
  }

  lemma IsGenuine(stub: Template, paths: map<Text, Text>, m: Message, n: nat, k: Key)
    requires LooksGenuine(stub, paths, m, n) && KeyOf(paths, m) == Some(k)
    ensures k.text != stub(k.path, n)
  {
  }

  /** The kept copy of a genuine text is the same before and after. */
  lemma KeptStaysFirst(stub: Template, paths: map<Text, Text>, ms: seq<Message>, out: seq<Message>, k: Key)
    requires |out| == |ms| && FirstWith(paths, ms, k) < |ms|
    requires forall j | 0 <= j < |ms| :: out[j] == Outcome(stub, paths, ms, j)
    requires forall n :: k.text != stub(k.path, n)
    ensures FirstWith(paths, out, k) == FirstWith(paths, ms, k)
  {
    hide KeyOf, Encode, ByteLength, Outcome;
    var kept := FirstWith(paths, ms, k);
    KeyAfter(stub, paths, ms, kept);
    assert KeyOf(paths, out[kept]) == Some(k);
    forall j | 0 <= j < kept ensures KeyOf(paths, out[j]) != Some(k) {
      KeyAfter(stub, paths, ms, j);
    }
  }

  /** After the pass, an untouched read is still not worth replacing. */
  lemma UntouchedStays(stub: Template, paths: map<Text, Text>, ms: seq<Message>, out: seq<Message>, i: nat)
    requires |out| == |ms| && i < |ms|
    requires forall j | 0 <= j < |ms| :: out[j] == Outcome(stub, paths, ms, j)
    requires forall n :: LooksGenuine(stub, paths, ms[i], n)
    requires ReplacedBy(stub, paths, ms, i).None?
    ensures ReplacedBy(stub, paths, out, i).None?
  {
    if KeyOf(paths, ms[i]).Some? {
      var k := KeyOf(paths, ms[i]).value;
      forall n ensures k.text != stub(k.path, n) { IsGenuine(stub, paths, ms[i], n, k); }
      hide KeyOf, Encode, ByteLength;
      KeptStaysFirst(stub, paths, ms, out, k);
    }
  }

  /** After the pass, a reference is not replaced by a reference. */
  lemma StubStays(stub: Template, paths: map<Text, Text>, ms: seq<Message>, out: seq<Message>, i: nat)
    requires |out| == |ms| && i < |ms|
    requires forall j | 0 <= j < |ms| :: out[j] == Outcome(stub, paths, ms, j)
    requires forall j, n | 0 <= j < |ms| :: LooksGenuine(stub, paths, ms[j], n)
    requires GrowsWithIndex(stub)
    requires ReplacedBy(stub, paths, ms, i).Some?
    ensures ReplacedBy(stub, paths, out, i).None?
  {
    KeyAfter(stub, paths, ms, i);
    var kept := ReplacedBy(stub, paths, ms, i).value;
    hide LooksGenuine, Encode, ByteLength, FirstWith;
    if KeyOf(paths, out[i]).Some? {
      var k := KeyOf(paths, out[i]).value;
      var first := FirstWith(paths, out, k);
      if first < i {
        KeyAfter(stub, paths, ms, first);
        if ReplacedBy(stub, paths, ms, first).None? {
          IsGenuine(stub, paths, ms[first], kept, k);
        }
        var before := ReplacedBy(stub, paths, ms, first).value;
        assert k.text == stub(k.path, before);
        assert ByteLength(stub(k.path, before)) <= ByteLength(stub(k.path, first));
      }
    }
  }

  lemma SecondPassChangesNothing(stub: Template, ms: seq<Message>)
    requires GrowsWithIndex(stub) && ResultsHoldNoCalls(ms) && NoReadLooksLikeAStub(stub, ms)
    ensures Deduped(stub, Deduped(stub, ms)) == Deduped(stub, ms)
  {
    var paths, out := PathsOf(Calls(ms)), Deduped(stub, ms);
    DedupedCalls(stub, ms);
    forall i | 0 <= i < |ms| ensures Outcome(stub, paths, out, i) == out[i] {
      assert forall j | 0 <= j < |ms| :: ms[j] in ms;
      if ReplacedBy(stub, paths, ms, i).None? {
        UntouchedStays(stub, paths, ms, out, i);
      } else {
        StubStays(stub, paths, ms, out, i);
      }
    }
  }

  // ---- The default wording ------------------------------------------------------------

  const HEAD: Text := Ascii("[read ")
  const MIDDLE: Text := Ascii(": identical to the result at message #")
  const TAIL: Text := Ascii(" ") + [0x2014] + Ascii(" content unchanged; do not re-read]")

  function DefaultStub(path: Text, kept: nat): Text {
    HEAD + path + MIDDLE + (Decimal.Digits(kept) + TAIL)
  }

  lemma {:induction false} DigitBytes(t: Text)
    requires Decimal.AllDigits(t)
    ensures ByteLength(t) == |t|
  {
    if t != [] {
      assert t[0] in t;
      assert forall u | u in t[1..] :: u in t;
      DigitBytes(t[1..]);
    }
  }

  lemma DefaultStubBytes(path: Text, kept: nat)
    ensures ByteLength(DefaultStub(path, kept)) == ByteLength(HEAD + path) + ByteLength(MIDDLE) + |Decimal.Digits(kept)| + ByteLength(TAIL)
  {
    hide Encode;
    var d := Decimal.Digits(kept);
    assert d[0] in d;
    Assoc(HEAD + path, MIDDLE, d + TAIL);
    EncodeSplit(HEAD + path, MIDDLE + (d + TAIL));
    EncodeSplit(MIDDLE, d + TAIL);
    EncodeSplit(d, TAIL);
    DigitBytes(d);
  }

  /** So the default wording meets the first condition of a stable second pass. */
  lemma DefaultStubGrows()
    ensures GrowsWithIndex(DefaultStub)
  {
    forall p, m: nat, n: nat | m <= n ensures ByteLength(DefaultStub(p, m)) <= ByteLength(DefaultStub(p, n)) {
      DefaultStubBytes(p, m);
      DefaultStubBytes(p, n);
      Decimal.DigitsMonotone(m, n);
    }
  }
}
