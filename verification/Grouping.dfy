/**
 Grouping the sections of a patch: by file, and within a file by consecutive sections
 with one tag, which become a stage of the plan (harness/extensions/hashline.ts).
 */
module Grouping {
  import opened Utf
  import opened Hunks
  import opened Staged

  /** A section with the key of its file. */
  datatype Item = Item(key: Text, tag: Text, hunks: seq<Hunk>)

  datatype Target = Target(key: Text, stages: seq<Stage>)

  /** The items of one file, in order. */
  function Only(items: seq<Item>, key: Text): seq<Item> {
    if items == [] then []
    else
      var last := items[|items| - 1];
      Only(items[..|items| - 1], key) + if last.key == key then [last] else []
  }

  /** Neighbours with one tag as one stage. */
  function Runs(items: seq<Item>): seq<Stage> {
    if items == [] then []
    else WithItem(Runs(items[..|items| - 1]), items[|items| - 1])
  }

  function WithItem(stages: seq<Stage>, item: Item): seq<Stage> {
    if stages != [] && stages[|stages| - 1].tag == item.tag then
      stages[|stages| - 1 := Stage(item.tag, stages[|stages| - 1].hunks + item.hunks)]
    else stages + [Stage(item.tag, item.hunks)]
  }

  predicate DistinctTags(stages: seq<Stage>) { forall i, j | 0 <= i < j < |stages| :: stages[i].tag != stages[j].tag }

  /** The files in the order of their first sections. */
  function Keys(items: seq<Item>): (r: seq<Text>)
    ensures forall k :: k in r <==> exists i | i in items :: i.key == k
    ensures forall i, j | 0 <= i < j < |r| :: r[i] != r[j]
  {
    if items == [] then []
    else
      var r, last := Keys(items[..|items| - 1]), items[|items| - 1];
      assert items == items[..|items| - 1] + [last];
      if last.key in r then r else r + [last.key]
  }

  /** No file comes back to a tag it has left. */
  ghost predicate Unambiguous(items: seq<Item>) { forall k :: DistinctTags(Runs(Only(items, k))) }

  /** What the targets should be: each file with the runs of its own sections. */
  function Grouped(items: seq<Item>): (r: seq<Target>)
    ensures |r| == |Keys(items)|
    ensures forall i | 0 <= i < |r| :: r[i] == Target(Keys(items)[i], Runs(Only(items, Keys(items)[i])))
  {
    seq(|Keys(items)|, i requires 0 <= i < |Keys(items)| => Target(Keys(items)[i], Runs(Only(items, Keys(items)[i]))))
  }

  lemma Snoc(items: seq<Item>, item: Item, k: Text)
    ensures Only(items + [item], k) == Only(items, k) + (if item.key == k then [item] else [])
    ensures Keys(items + [item]) == if item.key in Keys(items) then Keys(items) else Keys(items) + [item.key]
    ensures item.key == k ==> Runs(Only(items + [item], k)) == WithItem(Runs(Only(items, k)), item)
    ensures item.key != k ==> Runs(Only(items + [item], k)) == Runs(Only(items, k))
  {
    assert (items + [item])[..|items|] == items;
    if item.key == k {
      var own := Only(items, k);
      assert (own + [item])[..|own|] == own;
    } else {
      assert Only(items, k) + [] == Only(items, k);
    }
  }

  predicate Comes(stages: seq<Stage>, tag: Text) { exists s | s in stages :: s.tag == tag }

  lemma {:induction false} NothingOfOthers(items: seq<Item>, k: Text)
    requires k !in Keys(items)
    ensures Only(items, k) == []
  {
    if items != [] {
      var last := items[|items| - 1];
      assert items == items[..|items| - 1] + [last];
      assert last in items;
      NothingOfOthers(items[..|items| - 1], k);
    }
  }

  /** One more section keeps the tags apart unless it comes back to a tag that was left. */
  lemma StillDistinct(stages: seq<Stage>, item: Item)
    ensures DistinctTags(stages) && !(stages != [] && stages[|stages| - 1].tag == item.tag) && !Comes(stages, item.tag)
      ==> DistinctTags(WithItem(stages, item))
    ensures DistinctTags(stages) && stages != [] && stages[|stages| - 1].tag == item.tag ==> DistinctTags(WithItem(stages, item))
    ensures !(stages != [] && stages[|stages| - 1].tag == item.tag) && Comes(stages, item.tag) ==> !DistinctTags(WithItem(stages, item))
    ensures !DistinctTags(stages) ==> !DistinctTags(WithItem(stages, item))
  {
    var r := WithItem(stages, item);
    assert forall i | 0 <= i < |stages| :: r[i].tag == stages[i].tag;
    if Comes(stages, item.tag) && !(stages != [] && stages[|stages| - 1].tag == item.tag) {
      var s :| s in stages && s.tag == item.tag;
      var i :| 0 <= i < |stages| && stages[i] == s;
      assert r[i].tag == r[|stages|].tag;
    }
    if !DistinctTags(stages) {
      var i, j :| 0 <= i < j < |stages| && stages[i].tag == stages[j].tag;
      assert r[i].tag == r[j].tag;
    }
  }

  lemma {:induction false} AmbiguousStays(items: seq<Item>, n: nat)
    requires n <= |items| && !Unambiguous(items[..n])
    ensures !Unambiguous(items)
    decreases |items| - n
  {
    hide Only, Runs, WithItem, DistinctTags, Keys;
    if n == |items| {
      assert items[..n] == items;
    } else {
      var k :| !DistinctTags(Runs(Only(items[..n], k)));
      Snoc(items[..n], items[n], k);
      StillDistinct(Runs(Only(items[..n], k)), items[n]);
      assert items[..n + 1] == items[..n] + [items[n]];
      AmbiguousStays(items, n + 1);
    }
  }

  lemma NextUnambiguous(items: seq<Item>, item: Item)
    requires Unambiguous(items)
    ensures var stages := Runs(Only(items, item.key));
      Unambiguous(items + [item]) <==> (stages != [] && stages[|stages| - 1].tag == item.tag) || !Comes(stages, item.tag)
  {
    hide Only, Runs, WithItem, DistinctTags, Comes;
    forall k ensures DistinctTags(Runs(Only(items + [item], k))) <==>
      (k == item.key ==> DistinctTags(WithItem(Runs(Only(items, k)), item)))
    {
      Snoc(items, item, k);
    }
    StillDistinct(Runs(Only(items, item.key)), item);
    Snoc(items, item, item.key);
  }

  method GroupSections(items: seq<Item>) returns (r: Option<seq<Target>>)
    ensures r.Some? <==> Unambiguous(items)
    ensures r.Some? ==> r.value == Grouped(items)
  {
    hide Only, Runs, WithItem, Keys, Unambiguous, Comes, Grouped;
    var targets: seq<Target> := [];
    Nothing();
    for i := 0 to |items|
      invariant targets == Grouped(items[..i])
      invariant Unambiguous(items[..i])
    {
      var item := items[i];
      assert items[..i + 1] == items[..i] + [item];
      NextUnambiguous(items[..i], item);
      var n := FindTarget(targets, item.key);
      var stages := if n < |targets| then targets[n].stages else [];
      StagesOf(items[..i], item.key, n);
      if !(stages != [] && stages[|stages| - 1].tag == item.tag) && Comes(stages, item.tag) {
        AmbiguousStays(items, i + 1);
        return None;
      }
      NextGrouped(items[..i], item, n);
      targets := if n < |targets| then targets[n := Target(item.key, WithItem(stages, item))] else targets + [Target(item.key, WithItem(stages, item))];
    }
    assert items[..|items|] == items;
    r := Some(targets);
  }

  lemma Nothing()
    ensures Grouped([]) == [] && Unambiguous([])
  {
  }

  function FindTarget(targets: seq<Target>, key: Text): (n: nat)
    ensures n <= |targets|
    ensures n < |targets| ==> targets[n].key == key
    ensures forall i | 0 <= i < n :: targets[i].key != key
  {
    if targets == [] || targets[0].key == key then 0
    else
      var n := FindTarget(targets[1..], key);
      assert forall i | 0 < i < 1 + n :: targets[i] == targets[1..][i - 1];
      1 + n
  }

  lemma StagesOf(items: seq<Item>, key: Text, n: nat)
    requires n == FindTarget(Grouped(items), key)
    ensures n < |Grouped(items)| <==> key in Keys(items)
    ensures (if n < |Grouped(items)| then Grouped(items)[n].stages else []) == Runs(Only(items, key))
  {
    hide Runs, Only, Grouped, Keys;
    var keys := Keys(items);
    if n < |keys| { assert keys[n] in keys; }
    if key in keys {
      var i :| 0 <= i < |keys| && keys[i] == key;
    } else {
      NothingOfOthers(items, key);
      NoRuns();
    }
  }

  lemma NoRuns()
    ensures Runs([]) == []
  {
  }

  lemma NextGrouped(items: seq<Item>, item: Item, n: nat)
    requires n == FindTarget(Grouped(items), item.key)
    ensures var targets, stages := Grouped(items), if n < |Grouped(items)| then Grouped(items)[n].stages else [];
      var t := Target(item.key, WithItem(stages, item));
      Grouped(items + [item]) == if n < |targets| then targets[n := t] else targets + [t]
  {
    hide Runs, Only, Keys, Grouped, WithItem;
    StagesOf(items, item.key, n);
    Snoc(items, item, item.key);
    var keys, next := Keys(items), Grouped(items + [item]);
    forall i | 0 <= i < |keys| ensures next[i] == if i == n then Target(item.key, WithItem(Runs(Only(items, item.key)), item)) else Grouped(items)[i] {
      Snoc(items, item, keys[i]);
    }
  }

  // ---- Nothing is lost ----------------------------------------------------------------------------

  function AllHunks(items: seq<Item>): seq<Hunk> {
    if items == [] then [] else AllHunks(items[..|items| - 1]) + items[|items| - 1].hunks
  }

  function StageHunks(stages: seq<Stage>): seq<Hunk> {
    if stages == [] then [] else StageHunks(stages[..|stages| - 1]) + stages[|stages| - 1].hunks
  }

  /** The stages of a file hold the hunks of its sections, each once and in order, and every
      stage begins where the tag changes. */
  lemma {:induction false} RunsKeepHunks(items: seq<Item>)
    ensures StageHunks(Runs(items)) == AllHunks(items)
    ensures forall i | 0 < i < |Runs(items)| :: Runs(items)[i - 1].tag != Runs(items)[i].tag
    ensures items != [] ==> Runs(items) != [] && Runs(items)[|Runs(items)| - 1].tag == items[|items| - 1].tag
  {
    if items != [] {
      var before, item := Runs(items[..|items| - 1]), items[|items| - 1];
      RunsKeepHunks(items[..|items| - 1]);
      var r := WithItem(before, item);
      var n := |r| - 1;
      if n < |before| {
        assert r[..n] == before[..n];
        Assoc(StageHunks(before[..n]), before[n].hunks, item.hunks);
      } else {
        assert r[..n] == before;
      }
    }
  }
}
