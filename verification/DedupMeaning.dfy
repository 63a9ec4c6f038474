/** Which messages read deduplication replaces, told from the messages alone. */
module DedupMeaning {
  import opened Utf
  import opened Dedup

  /** Block `j` of message `i` calls `read` on a path. */
  predicate ReadCall(ms: seq<Message>, i: int, j: int, id: Text, path: Text) {
    && 0 <= i < |ms| && ms[i].content.Blocks? && 0 <= j < |ms[i].content.blocks|
    && ms[i].content.blocks[j] == ToolCall(Ascii("read"), id, path) && id != [] && path != []
  }

  /** The call comes after all others with its id. */
  ghost predicate LastCall(ms: seq<Message>, i: int, j: int, id: Text, path: Text) {
    && ReadCall(ms, i, j, id, path)
    && forall i', j', p | ReadCall(ms, i', j', id, p) :: i' < i || (i' == i && j' <= j)
  }

  /** The path an id stands for: that of its last call. */
  ghost predicate StandsForPath(ms: seq<Message>, id: Text, path: Text) { exists i, j :: LastCall(ms, i, j, id, path) }

  /** The text of a message: what a plain one says, and the blocks of another joined by line breaks. */
  lemma {:induction false} BlocksJoin(m: Message, a: seq<Block>, b: seq<Block>)
    requires m.content == Blocks(a + b) && a != [] && b != []
    decreases |a|
    ensures TextOf(m) == TextOf(m.(content := Blocks(a))) + [10] + TextOf(m.(content := Blocks(b)))
  {
    if |a| == 1 {
      assert (a + b)[1..] == b;
    } else {
      assert (a + b)[1..] == a[1..] + b;
      BlocksJoin(m.(content := Blocks(a[1..] + b)), a[1..], b);
    }
  }

  lemma OneBlock(m: Message)
    ensures m.content.Absent? ==> TextOf(m) == []
    ensures m.content.Plain? ==> TextOf(m) == m.content.plain
    ensures m.content == Blocks([]) ==> TextOf(m) == []
    ensures forall t :: m.content == Blocks([TextBlock(t)]) ==> TextOf(m) == t
    ensures forall b: Block :: m.content == Blocks([b]) && !b.TextBlock? ==> TextOf(m) == []
  {
  }

  // ---- The label of an id ------------------------------------------------------------------

  ghost predicate LastIn(bs: seq<Block>, j: int, id: Text, path: Text) {
    && 0 <= j < |bs| && bs[j] == ToolCall(Ascii("read"), id, path) && id != [] && path != []
    && forall k | j < k < |bs| :: !CallsFor(bs[k], id)
  }

  predicate CallsFor(b: Block, id: Text) { b.ToolCall? && b.name == Ascii("read") && b.id == id && id != [] && b.path != [] }

  lemma {:induction false} PathsConcat(a: seq<(Text, Text)>, b: seq<(Text, Text)>)
    ensures forall id :: id in PathsOf(a + b) <==> id in PathsOf(a) || id in PathsOf(b)
    ensures forall id | id in PathsOf(a + b) :: PathsOf(a + b)[id] == if id in PathsOf(b) then PathsOf(b)[id] else PathsOf(a)[id]
  {
    if b == [] {
      assert a + b == a;
    } else {
      var n := |b| - 1;
      PathsConcat(a, b[..n]);
      assert (a + b)[..|a| + n] == a + b[..n] && (a + b)[|a| + n] == b[n];
    }
  }

  /** In one message the last block that calls for the id names its path. */
  lemma {:induction false} BlocksLabel(bs: seq<Block>, id: Text)
    ensures id in PathsOf(BlockCalls(bs)) <==> exists k :: 0 <= k < |bs| && CallsFor(bs[k], id)
    ensures id in PathsOf(BlockCalls(bs)) ==> exists j :: LastIn(bs, j, id, PathsOf(BlockCalls(bs))[id])
  {
    if bs != [] {
      var n := |bs| - 1;
      BlocksLabel(bs[..n], id);
      var before := BlockCalls(bs[..n]);
      if IsReadCall(bs[n]) { PathsSnoc(before, (bs[n].id, bs[n].path)); } else { assert before + [] == before; }
      assert IsReadCall(bs[n]) && bs[n].id == id <==> CallsFor(bs[n], id);
      assert forall k | 0 <= k < n :: bs[..n][k] == bs[k];
      if CallsFor(bs[n], id) {
        assert LastIn(bs, n, id, bs[n].path);
      } else if id in PathsOf(before) {
        var j :| LastIn(bs[..n], j, id, PathsOf(before)[id]);
        assert LastIn(bs, j, id, PathsOf(before)[id]);
      }
    }
  }

  predicate CallsInMessage(m: Message, id: Text) {
    m.content.Blocks? && exists k :: 0 <= k < |m.content.blocks| && CallsFor(m.content.blocks[k], id)
  }

  lemma LabelFromLast(ms: seq<Message>, id: Text)
    requires ms != [] && CallsInMessage(ms[|ms| - 1], id)
    ensures id in PathsOf(MessageCalls(ms[|ms| - 1])) && StandsForPath(ms, id, PathsOf(MessageCalls(ms[|ms| - 1]))[id])
  {
    var n := |ms| - 1;
    var bs := ms[n].content.blocks;
    BlocksLabel(bs, id);
    var path := PathsOf(BlockCalls(bs))[id];
    var j :| LastIn(bs, j, id, path);
    forall i', j', p | ReadCall(ms, i', j', id, p) ensures i' < n || (i' == n && j' <= j) {
      if i' == n { assert CallsFor(bs[j'], id); }
    }
    assert LastCall(ms, n, j, id, path);
  }

  lemma CallsInLast(ms: seq<Message>, id: Text)
    requires ms != []
    ensures forall i, j, p | ReadCall(ms, i, j, id, p) && i == |ms| - 1 :: CallsInMessage(ms[|ms| - 1], id)
  {
    var n := |ms| - 1;
    forall i, j, p | ReadCall(ms, i, j, id, p) && i == n ensures CallsInMessage(ms[n], id) {
      assert CallsFor(ms[n].content.blocks[j], id);
    }
  }

  lemma LabelFromFront(ms: seq<Message>, id: Text, path: Text)
    requires ms != [] && !CallsInMessage(ms[|ms| - 1], id)
    ensures StandsForPath(ms[..|ms| - 1], id, path) <==> StandsForPath(ms, id, path)
  {
    var n := |ms| - 1;
    CallsInLast(ms, id);
    forall i, j, p ensures ReadCall(ms[..n], i, j, id, p) <==> ReadCall(ms, i, j, id, p) {}
    if StandsForPath(ms[..n], id, path) {
      var i, j :| LastCall(ms[..n], i, j, id, path);
      assert LastCall(ms, i, j, id, path);
    }
    if StandsForPath(ms, id, path) {
      var i, j :| LastCall(ms, i, j, id, path);
      assert LastCall(ms[..n], i, j, id, path);
    }
  }

  lemma OnePath(ms: seq<Message>, id: Text, a: Text, b: Text)
    requires StandsForPath(ms, id, a) && StandsForPath(ms, id, b)
    ensures a == b
  {
    var i, j :| LastCall(ms, i, j, id, a);
    var i', j' :| LastCall(ms, i', j', id, b);
  }

  /** The labels the pass computes are those. */
  lemma {:induction false} LabelsExactly(ms: seq<Message>, id: Text, path: Text)
    ensures id in PathsOf(Calls(ms)) && PathsOf(Calls(ms))[id] == path <==> StandsForPath(ms, id, path)
  {
    if ms != [] {
      var n := |ms| - 1;
      LabelsExactly(ms[..n], id, path);
      PathsConcat(Calls(ms[..n]), MessageCalls(ms[n]));
      hide StandsForPath, PathsOf, Calls;
      if CallsInMessage(ms[n], id) {
        LabelFromLast(ms, id);
        CallsSplit(ms);
        if StandsForPath(ms, id, path) { OnePath(ms, id, path, PathsOf(MessageCalls(ms[n]))[id]); }
      } else {
        NoLabel(ms[n], id);
        CallsSplit(ms);
        LabelFromFront(ms, id, path);
      }
    }
  }

  lemma CallsSplit(ms: seq<Message>)
    requires ms != []
    ensures Calls(ms) == Calls(ms[..|ms| - 1]) + MessageCalls(ms[|ms| - 1])
  {
  }

  lemma NoLabel(m: Message, id: Text)
    requires !CallsInMessage(m, id)
    ensures id !in PathsOf(MessageCalls(m))
  {
    if m.content.Blocks? { BlocksLabel(m.content.blocks, id); }
  }

  // ---- What is replaced --------------------------------------------------------------------

  /** Message `i` is a read that succeeded, of this path and with this text. */
  ghost predicate ReadOf(ms: seq<Message>, i: int, path: Text, text: Text) {
    && 0 <= i < |ms| && ms[i].role == ToolResult && ms[i].tool == Ascii("read") && !ms[i].isError
    && StandsForPath(ms, ms[i].callId, path) && TextOf(ms[i]) == text && text != []
  }

  /** The first read of the path with that text comes before message `i`. */
  ghost predicate Repeats(ms: seq<Message>, i: int, path: Text, text: Text, first: int) {
    && ReadOf(ms, i, path, text) && 0 <= first < i && ReadOf(ms, first, path, text)
    && forall k | 0 <= k < first :: !ReadOf(ms, k, path, text)
  }

  lemma KeysExactly(ms: seq<Message>, i: int, path: Text, text: Text)
    requires 0 <= i < |ms|
    ensures KeyOf(PathsOf(Calls(ms)), ms[i]) == Some(Key(path, text)) <==> ReadOf(ms, i, path, text)
  {
    hide StandsForPath, PathsOf, Calls, TextOf, KeyOf;
    LabelsExactly(ms, ms[i].callId, path);
    PathNonempty(ms, ms[i].callId, path);
    KeyMeans(PathsOf(Calls(ms)), ms[i], path, text);
  }

  lemma KeyMeans(paths: map<Text, Text>, m: Message, path: Text, text: Text)
    ensures KeyOf(paths, m) == Some(Key(path, text)) <==>
      && m.role == ToolResult && m.tool == Ascii("read") && !m.isError
      && m.callId in paths && paths[m.callId] == path && path != [] && TextOf(m) == text && text != []
  {
    hide TextOf;
  }

  lemma PathNonempty(ms: seq<Message>, id: Text, path: Text)
    ensures StandsForPath(ms, id, path) ==> path != []
  {
  }

  /** A successful read that repeats an earlier one is replaced by a reference to the first, exactly
      when that is shorter; everything else stays as it is. */
  lemma ReplacedExactly(stub: Template, ms: seq<Message>, i: nat)
    requires i < |ms|
    ensures forall path, text, first: nat | Repeats(ms, i, path, text, first) ::
      Deduped(stub, ms)[i] ==
        if ByteLength(stub(path, first)) < ByteLength(text) then ms[i].(content := Blocks([TextBlock(stub(path, first))])) else ms[i]
    ensures (forall path, text, first: nat :: !Repeats(ms, i, path, text, first)) ==> Deduped(stub, ms)[i] == ms[i]
  {
    hide StandsForPath, PathsOf, Calls, TextOf, KeyOf, ByteLength, FirstWith;
    var paths := PathsOf(Calls(ms));
    forall path, text, first: nat | Repeats(ms, i, path, text, first)
      ensures KeyOf(paths, ms[i]) == Some(Key(path, text)) && FirstWith(paths, ms, Key(path, text)) == first
    {
      KeysExactly(ms, i, path, text);
      KeysExactly(ms, first, path, text);
      var n := FirstWith(paths, ms, Key(path, text));
      if n < first { KeysExactly(ms, n, path, text); }
    }
    var key := KeyOf(paths, ms[i]);
    if key.Some? {
      var path, text := key.value.path, key.value.text;
      KeysExactly(ms, i, path, text);
      var n := FirstWith(paths, ms, key.value);
      if n < i {
        KeysExactly(ms, n, path, text);
        forall k | 0 <= k < n ensures !ReadOf(ms, k, path, text) { KeysExactly(ms, k, path, text); }
        assert Repeats(ms, i, path, text, n);
      }
    }
    LabelOfKey(paths, ms[i]);
  }

  lemma LabelOfKey(paths: map<Text, Text>, m: Message)
    ensures KeyOf(paths, m).Some? ==> m.callId in paths && paths[m.callId] == KeyOf(paths, m).value.path
  {
  }
}
