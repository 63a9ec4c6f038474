/**
 The tracker of failure episodes, with the index and the counters that the episode
 log does without. Every operation takes the same step as the log, and the index and
 the counters always say what the log says.
 */
module FailureTracker {
  import opened Basics
  import opened Utf
  import opened Episodes
  import opened EpisodeFacts

  /** The active episodes in the order they were opened. */
  function View(active: map<Key, Episode>, order: seq<Key>): (r: seq<Episode>)
    requires forall k | k in order :: k in active
    ensures |r| == |order|
    ensures forall i | 0 <= i < |order| :: r[i] == active[order[i]]
  {
    seq(|order|, i requires 0 <= i < |order| => assert order[i] in order; active[order[i]])
  }

  predicate Indexed(active: map<Key, Episode>, order: seq<Key>, exposed: set<Key>) {
    && Distinct(order)
    && (forall k | k in order :: k in active)
    && (forall k | k in active :: k in order && active[k].key == k)
    && (forall k | k in exposed :: k in active)
    && (forall k | k in active :: k in exposed <==> Exposed(active[k]))
  }

  lemma Lookup(active: map<Key, Episode>, order: seq<Key>, exposed: set<Key>, k: Key)
    requires Indexed(active, order, exposed)
    ensures k in active <==> Find(View(active, order), k) < |order|
    ensures k in active ==> order[Find(View(active, order), k)] == k
  {
    var v := View(active, order);
    var n := Find(v, k);
    if k in active {
      var i :| 0 <= i < |order| && order[i] == k;
      assert v[..|v|] == v;
      assert v[i] in v && v[i].key == k;
    }
    if n < |order| {
      assert order[n] in order;
    }
  }

  lemma ViewUpdate(active: map<Key, Episode>, order: seq<Key>, exposed: set<Key>, n: nat, e: Episode)
    requires Indexed(active, order, exposed) && n < |order| && e.key == order[n]
    requires Exposed(active[order[n]]) ==> Exposed(e)
    ensures var k := order[n];
      var x := if Exposed(e) then exposed + {k} else exposed;
      Indexed(active[k := e], order, x) && View(active[k := e], order) == View(active, order)[n := e]
  {
  }

  lemma ViewAppend(active: map<Key, Episode>, order: seq<Key>, exposed: set<Key>, e: Episode)
    requires Indexed(active, order, exposed) && e.key !in active && !Exposed(e)
    ensures Indexed(active[e.key := e], order + [e.key], exposed)
    ensures View(active[e.key := e], order + [e.key]) == View(active, order) + [e]
  {
    var k := e.key;
    assert forall x | x in active[k := e] && x != k :: x in order;
  }

  lemma ViewRemove(active: map<Key, Episode>, order: seq<Key>, exposed: set<Key>, j: nat)
    requires Indexed(active, order, exposed) && j < |order|
    ensures Indexed(active - {order[j]}, order[..j] + order[j + 1..], exposed - {order[j]})
    ensures View(active - {order[j]}, order[..j] + order[j + 1..]) == View(active, order)[..j] + View(active, order)[j + 1..]
  {
    hide Exposed, Distinct;
    OrderWithout(order, j);
    IndexWithout(active, order, exposed, j);
    var rest := order[..j] + order[j + 1..];
    forall i | 0 <= i < |rest| ensures active[rest[i]] == View(active, order)[if i < j then i else i + 1] {
      assert rest[i] == order[if i < j then i else i + 1];
    }
  }

  lemma IndexWithout(active: map<Key, Episode>, order: seq<Key>, exposed: set<Key>, j: nat)
    requires Indexed(active, order, exposed) && j < |order|
    ensures Indexed(active - {order[j]}, order[..j] + order[j + 1..], exposed - {order[j]})
  {
    hide Exposed, Distinct;
    OrderWithout(order, j);
  }

  lemma OrderWithout(order: seq<Key>, j: nat)
    requires Distinct(order) && j < |order|
    ensures var rest := order[..j] + order[j + 1..];
      && Distinct(rest) && (forall x | x in rest :: x in order && x != order[j])
      && (forall x | x in order && x != order[j] :: x in rest)
  {
    var rest := order[..j] + order[j + 1..];
    forall i | 0 <= i < |rest| ensures rest[i] == order[if i < j then i else i + 1] {}
    forall x | x in order && x != order[j] ensures x in rest {
      var i :| 0 <= i < |order| && order[i] == x;
      assert rest[if i < j then i else i - 1] == x;
    }
  }

  datatype Counters = Counters(
    totalEpisodes: nat, totalFailures: nat, longestEpisode: nat,
    semanticFailureOverrun: nat, correlatedFailureOverrun: nat, settledWithoutRecovery: nat)

  predicate Counted(s: Log, n: Counters, completed: seq<Episode>) {
    && n.totalEpisodes == |s.active| + |s.closed|
    && n.totalFailures == Total(s, Count)
    && n.longestEpisode == Max(Longest(s.active), Longest(s.closed))
    && n.semanticFailureOverrun == s.semantic
    && n.correlatedFailureOverrun == s.correlated
    && n.settledWithoutRecovery == Sum(s.closed, SettledOnce)
    && completed == Last(s.closed, 64)
  }

  lemma ViewExposed(active: map<Key, Episode>, order: seq<Key>, exposed: set<Key>)
    requires Indexed(active, order, exposed)
    ensures AnyExposed(View(active, order)) <==> exposed != {}
  {
    var v := View(active, order);
    if AnyExposed(v) {
      var e :| e in v && Exposed(e);
      var i :| 0 <= i < |v| && v[i] == e;
      assert order[i] in order && order[i] in exposed;
    }
    if exposed != {} {
      var k :| k in exposed;
      var i :| 0 <= i < |order| && order[i] == k;
      assert v[i] in v;
    }
  }

  /** After every exposed episode was noted. */
  lemma ViewNoted(active: map<Key, Episode>, order: seq<Key>, exposed: set<Key>, after: map<Key, Episode>, c: Call, hit: bool)
    requires Indexed(active, order, exposed) && after.Keys == active.Keys
    requires forall k | k in active :: after[k] == Noted(active[k], c)
    requires hit <==> exists k | k in exposed :: OnTarget(active[k], c)
    ensures Indexed(after, order, exposed) && View(after, order) == AllNoted(View(active, order), c)
    ensures hit <==> AnyOnTarget(View(active, order), c)
  {
    hide Noted, OnTarget, Exposed;
    NotedIndexed(active, order, exposed, after, c);
    AnyHit(active, order, exposed, c, hit);
  }

  lemma NotedIndexed(active: map<Key, Episode>, order: seq<Key>, exposed: set<Key>, after: map<Key, Episode>, c: Call)
    requires Indexed(active, order, exposed) && after.Keys == active.Keys
    requires forall k | k in active :: after[k] == Noted(active[k], c)
    ensures Indexed(after, order, exposed) && View(after, order) == AllNoted(View(active, order), c)
  {
    hide Distinct;
    forall k | k in active ensures after[k].key == k && (Exposed(after[k]) <==> Exposed(active[k])) {}
    hide Exposed, Noted;
  }

  lemma AnyHit(active: map<Key, Episode>, order: seq<Key>, exposed: set<Key>, c: Call, hit: bool)
    requires Indexed(active, order, exposed)
    requires hit <==> exists k | k in exposed :: OnTarget(active[k], c)
    ensures hit <==> AnyOnTarget(View(active, order), c)
  {
    hide Distinct, OnTarget, Exposed;
    var v := View(active, order);
    if AnyOnTarget(v, c) {
      var e :| e in v && Exposed(e) && OnTarget(e, c);
      var i :| 0 <= i < |v| && v[i] == e;
      assert order[i] in order && order[i] in exposed;
    }
    if hit {
      var k :| k in exposed && OnTarget(active[k], c);
      var i :| 0 <= i < |order| && order[i] == k;
      assert v[i] in v;
    }
  }

  /** Recording a failure keeps the index in step with the log. */
  lemma ObserveIndexed(active: map<Key, Episode>, order: seq<Key>, exposed: set<Key>, f: Failure)
    requires Indexed(active, order, exposed)
    ensures var k, isNew, v := f.key, f.key !in active, View(active, order);
      var e := Recorded(if isNew then Opened(f) else active[k], f);
      var order' := if isNew then order + [k] else order;
      && Indexed(active[k := e], order', if e.tally.count == 2 then exposed + {k} else exposed)
      && (forall s: Log | s.active == v :: Step(s, Failed(f)) == s.(active := View(active[k := e], order')))
      && (isNew <==> Find(v, k) == |v|)
      && (!isNew ==> v[Find(v, k)] == active[k])
      && e in View(active[k := e], order')
  {
    hide View, Find, ScopeOf, AddVariant, Distinct;
    var k, v := f.key, View(active, order);
    Lookup(active, order, exposed, k);
    var n := Find(v, k);
    if k in active {
      ViewUpdate(active, order, exposed, n, Recorded(active[k], f));
    } else {
      var o := Opened(f);
      ViewAppend(active, order, exposed, o);
      ViewUpdate(active[k := o], order + [k], exposed, n, Recorded(o, f));
      assert active[k := o][k := Recorded(o, f)] == active[k := Recorded(o, f)];
    }
  }

  lemma StepAt(c: Closing, es: seq<Episode>, i: nat)
    requires i < |es|
    ensures IsClosedBy(c, es[i]) ==>
      Staying(c, es[..i + 1]) == Staying(c, es[..i]) && Leaving(c, es[..i + 1]) == Leaving(c, es[..i]) + [ClosedBy(c, es[i])]
    ensures !IsClosedBy(c, es[i]) ==>
      Staying(c, es[..i + 1]) == Staying(c, es[..i]) + [es[i]] && Leaving(c, es[..i + 1]) == Leaving(c, es[..i])
  {
    assert es[..i + 1][..i] == es[..i];
  }

  /** Pushing onto the bounded list and dropping its head keeps the last entries. */
  lemma LastSnoc<T>(s: seq<T>, x: T, n: nat)
    ensures var pushed := Last(s, n) + [x];
      Last(s + [x], n) == if |pushed| > n then pushed[1..] else pushed
  {
  }

  /** One episode of the walk that closes episodes, seen as a list. */
  lemma RemoveAt<T>(kept: seq<T>, x: T, rest: seq<T>)
    ensures var s := kept + [x] + rest; s[..|kept|] == kept && s[|kept|] == x && s[|kept| + 1..] == rest && s[|kept|..] == [x] + rest
  {
  }

  lemma IndexedExposed(active: map<Key, Episode>, order: seq<Key>, exposed: set<Key>)
    requires Indexed(active, order, exposed)
    ensures forall k | k in active :: k in exposed <==> Exposed(active[k])
    ensures forall k | k in exposed :: k in active
  {
  }

  /** Counts the call in every exposed episode; tells whether one of them is on its target. */
  method NoteExposed(active: map<Key, Episode>, exposed: set<Key>, c: Call) returns (r: map<Key, Episode>, correlated: bool)
    requires forall k | k in exposed :: k in active
    requires forall k | k in active :: k in exposed <==> Exposed(active[k])
    ensures r.Keys == active.Keys
    ensures forall k | k in active :: r[k] == Noted(active[k], c)
    ensures correlated <==> exists k | k in exposed :: OnTarget(active[k], c)
  {
    r, correlated := active, false;
    var pending := exposed;
    while pending != {}
      invariant pending <= exposed && r.Keys == active.Keys
      invariant forall k | k in active :: r[k] == if k in pending then active[k] else Noted(active[k], c)
      invariant correlated <==> exists k | k in exposed && k !in pending :: OnTarget(active[k], c)
      decreases |pending|
    {
      var k :| k in pending;
      var e := r[k];
      var onTarget := OnTarget(e, c);
      r := r[k := e.(tally := Tally(e.tally.count, e.tally.after + 1, e.tally.correlated + if onTarget then 1 else 0))];
      correlated := correlated || onTarget;
      pending := pending - {k};
    }
  }

  /** The fields of a tracker say what the log says. */
  ghost predicate Tracks(active: map<Key, Episode>, order: seq<Key>, exposed: set<Key>, n: Counters, completed: seq<Episode>, log: Log) {
    Indexed(active, order, exposed) && log.active == View(active, order) && Counted(log, n, completed)
  }

  lemma TracksNothing()
    ensures Tracks(map[], [], {}, Counters(0, 0, 0, 0, 0, 0), [], EMPTY)
  {
  }

  lemma TracksCall(active: map<Key, Episode>, order: seq<Key>, exposed: set<Key>, n: Counters, completed: seq<Episode>, log: Log,
                   c: Call, after: map<Key, Episode>, hit: bool)
    requires Tracks(active, order, exposed, n, completed, log) && exposed != {}
    requires after.Keys == active.Keys && forall k | k in active :: after[k] == Noted(active[k], c)
    requires hit <==> exists k | k in exposed :: OnTarget(active[k], c)
    ensures var n' := n.(
        semanticFailureOverrun := n.semanticFailureOverrun + 1,
        correlatedFailureOverrun := n.correlatedFailureOverrun + if hit then 1 else 0);
      Tracks(after, order, exposed, n', completed, Step(log, ToolCall(c)))
  {
    hide View, Counted, AllNoted, OnTarget, Indexed, AnyExposed, AnyOnTarget, Noted, Exposed;
    ViewExposed(active, order, exposed);
    ViewNoted(active, order, exposed, after, c, hit);
    OverrunsCounted(log, n, completed);
    CountedAfterNote(log, c, n, completed);
  }

  lemma CallIgnored(active: map<Key, Episode>, order: seq<Key>, exposed: set<Key>, n: Counters, completed: seq<Episode>, log: Log, c: Call)
    requires Tracks(active, order, exposed, n, completed, log) && exposed == {}
    ensures Step(log, ToolCall(c)) == log
  {
    ViewExposed(active, order, exposed);
    hide View, Counted, Indexed;
  }

  lemma TracksFailure(active: map<Key, Episode>, order: seq<Key>, exposed: set<Key>, n: Counters, completed: seq<Episode>, log: Log, f: Failure)
    requires Tracks(active, order, exposed, n, completed, log)
    ensures var isNew := f.key !in active;
      var e := Recorded(if isNew then Opened(f) else active[f.key], f);
      var n' := n.(
        totalEpisodes := n.totalEpisodes + if isNew then 1 else 0,
        totalFailures := n.totalFailures + 1,
        longestEpisode := Max(n.longestEpisode, e.tally.count));
      && Tracks(active[f.key := e], if isNew then order + [f.key] else order,
                if e.tally.count == 2 then exposed + {f.key} else exposed, n', completed, Step(log, Failed(f)))
      && e in Step(log, Failed(f)).active && e.key == f.key
      && (isNew <==> Find(log.active, f.key) == |log.active|)
  {
    ObserveIndexed(active, order, exposed, f);
    CountedAfterFailure(log, f, n, completed);
    hide View, Counted, Indexed, Find, Observe, Recorded, Opened, Max;
  }

  lemma TracksClosing(log: Log, n: Counters, completed: seq<Episode>, c: Closing,
                      active: map<Key, Episode>, order: seq<Key>, exposed: set<Key>, closed: seq<Episode>, settled: nat)
    requires Counted(log, n, completed)
    requires Indexed(active, order, exposed) && View(active, order) == Staying(c, log.active)
    requires closed == log.closed + Leaving(c, log.active) && settled == Sum(closed, SettledOnce)
    ensures Tracks(active, order, exposed, n.(settledWithoutRecovery := settled), Last(closed, MAX_COMPLETED), Step(log, Closes(c)))
  {
    CountedAfterClose(log, c, n, completed);
    hide View, Counted, Indexed, Staying, Leaving;
  }

  lemma IsTracked(active: map<Key, Episode>, order: seq<Key>, exposed: set<Key>, n: Counters, completed: seq<Episode>, log: Log)
    requires Tracks(active, order, exposed, n, completed, log)
    ensures Indexed(active, order, exposed) && log.active == View(active, order) && Counted(log, n, completed)
    ensures completed == Last(log.closed, MAX_COMPLETED) && n.settledWithoutRecovery == Sum(log.closed, SettledOnce)
  {
  }

  class FailureEpisodeTracker {
    var active: map<Key, Episode>
    var order: seq<Key>
    var exposed: set<Key>
    var completed: seq<Episode>
    var counters: Counters
    ghost var log: Log

    ghost predicate Valid()
      reads this
    {
      Tracks(active, order, exposed, counters, completed, log)
    }

    constructor ()
      ensures Valid() && log == EMPTY
    {
      active, order, exposed, completed, counters, log := map[], [], {}, [], Counters(0, 0, 0, 0, 0, 0), EMPTY;
      new;
      TracksNothing();
    }

    method Reset()
      modifies this
      ensures Valid() && log == Step(old(log), Event.Reset)
    {
      active, order, exposed, completed, counters, log := map[], [], {}, [], Counters(0, 0, 0, 0, 0, 0), EMPTY;
      TracksNothing();
    }

    method NoteToolCall(c: Call)
      requires Valid()
      modifies this
      ensures Valid() && log == Step(old(log), ToolCall(c))
    {
      hide Tracks, Indexed, View, Counted, Step, Noted, OnTarget, Exposed;
      if exposed == {} {
        CallIgnored(active, order, exposed, counters, completed, log, c);
        return;
      }
      IsTracked(active, order, exposed, counters, completed, log);
      IndexedExposed(active, order, exposed);
      var after, correlated := NoteExposed(active, exposed, c);
      TracksCall(active, order, exposed, counters, completed, log, c, after, correlated);
      active := after;
      counters := counters.(
        semanticFailureOverrun := counters.semanticFailureOverrun + 1,
        correlatedFailureOverrun := counters.correlatedFailureOverrun + if correlated then 1 else 0);
      log := Step(log, ToolCall(c));
    }

    method ObserveFailure(f: Failure) returns (episode: Episode, isNew: bool)
      requires Valid()
      modifies this
      ensures Valid() && log == Step(old(log), Failed(f))
      ensures isNew <==> Find(old(log).active, f.key) == |old(log).active|
      ensures episode in log.active && episode.key == f.key
    {
      hide View, Recorded, Opened, Counted, Find, Indexed, Step, Tracks;
      TracksFailure(active, order, exposed, counters, completed, log, f);
      isNew := f.key !in active;
      episode := Recorded(if isNew then Opened(f) else active[f.key], f);
      order := if isNew then order + [f.key] else order;
      active := active[f.key := episode];
      exposed := if episode.tally.count == 2 then exposed + {f.key} else exposed;
      counters := counters.(
        totalEpisodes := counters.totalEpisodes + if isNew then 1 else 0,
        totalFailures := counters.totalFailures + 1,
        longestEpisode := Max(counters.longestEpisode, episode.tally.count));
      log := Step(log, Failed(f));
    }

    /** Walks the active episodes in order and moves those the event closes. */
    method CloseEpisodes(c: Closing) returns (leaving: seq<Episode>)
      requires Valid()
      modifies this
      ensures Valid() && log == Step(old(log), Closes(c))
      ensures leaving == Leaving(c, old(log).active)
    {
      hide Tracks, Step, View, Indexed, Counted, Staying, Leaving, Last, Sum;
      IsTracked(active, order, exposed, counters, completed, log);
      ghost var was, before := counters, completed;
      var settled;
      active, order, exposed, completed, settled, leaving :=
        CloseAll(c, active, order, exposed, completed, counters.settledWithoutRecovery, log.closed);
      counters := counters.(settledWithoutRecovery := settled);
      TracksClosing(log, was, before, c, active, order, exposed, log.closed + leaving, settled);
      log := Step(log, Closes(c));
    }
  }

  /** The walk over the active episodes: each one the event closes is taken out of the
      map and the index and pushed onto the bounded list of completed ones. */
  method CloseAll(c: Closing, active0: map<Key, Episode>, order0: seq<Key>, exposed0: set<Key>, completed0: seq<Episode>,
                  settled0: nat, ghost closed: seq<Episode>)
    returns (active: map<Key, Episode>, order: seq<Key>, exposed: set<Key>, completed: seq<Episode>, settled: nat, leaving: seq<Episode>)
    requires Indexed(active0, order0, exposed0)
    requires completed0 == Last(closed, MAX_COMPLETED) && settled0 == Sum(closed, SettledOnce)
    ensures Indexed(active, order, exposed)
    ensures View(active, order) == Staying(c, View(active0, order0)) && leaving == Leaving(c, View(active0, order0))
    ensures completed == Last(closed + leaving, MAX_COMPLETED) && settled == Sum(closed + leaving, SettledOnce)
  {
    active, order, exposed, completed, settled, leaving := active0, order0, exposed0, completed0, settled0, [];
    ghost var es, i := View(active, order), 0;
    var j := 0;
    WalkStart(c, es, closed);
    hide View, Indexed, Staying, Leaving, IsClosedBy, ClosedBy, Last, Sum;
    while j < |order|
      invariant i <= |es| && Indexed(active, order, exposed)
      invariant View(active, order) == Staying(c, es[..i]) + es[i..] && j == |Staying(c, es[..i])|
      invariant leaving == Leaving(c, es[..i])
      invariant completed == Last(closed + leaving, MAX_COMPLETED) && settled == Sum(closed + leaving, SettledOnce)
      decreases |order| - j
    {
      WalkStep(c, es, i, View(active, order));
      StepAt(c, es, i);
      var key := order[j];
      ViewAt(active, order, j);
      var episode := active[key];
      if IsClosedBy(c, episode) {
        var gone := ClosedBy(c, episode);
        ViewRemove(active, order, exposed, j);
        active, order, exposed := active - {key}, order[..j] + order[j + 1..], exposed - {key};
        completed, settled := PushCompleted(c, episode, completed, settled, closed + leaving);
        Assoc(closed, leaving, [gone]);
        leaving := leaving + [gone];
      } else {
        j := j + 1;
      }
      i := i + 1;
    }
    WalkEnd(c, es, i, View(active, order));
  }

  method PushCompleted(c: Closing, e: Episode, completed0: seq<Episode>, settled0: nat, ghost closed: seq<Episode>)
    returns (completed: seq<Episode>, settled: nat)
    requires completed0 == Last(closed, MAX_COMPLETED) && settled0 == Sum(closed, SettledOnce)
    ensures completed == Last(closed + [ClosedBy(c, e)], MAX_COMPLETED)
    ensures settled == Sum(closed + [ClosedBy(c, e)], SettledOnce)
  {
    LastSnoc(closed, ClosedBy(c, e), MAX_COMPLETED);
    SumSnoc(closed, ClosedBy(c, e), SettledOnce);
    SettledCount(c, e);
    completed := completed0 + [ClosedBy(c, e)];
    if |completed| > MAX_COMPLETED { completed := completed[1..]; }
    settled := if c.Settling? then settled0 + 1 else settled0;
  }

  lemma SettledCount(c: Closing, e: Episode)
    ensures SettledOnce(ClosedBy(c, e)) == if c.Settling? then 1 else 0
  {
  }

  lemma WalkStart(c: Closing, es: seq<Episode>, closed: seq<Episode>)
    ensures Staying(c, es[..0]) == [] && Leaving(c, es[..0]) == [] && es[0..] == es && [] + es == es && closed + [] == closed
  {
  }

  lemma WalkEnd(c: Closing, es: seq<Episode>, i: nat, v: seq<Episode>)
    requires i <= |es| && v == Staying(c, es[..i]) + es[i..] && |v| <= |Staying(c, es[..i])|
    ensures es[..i] == es && v == Staying(c, es[..i])
  {
  }

  lemma CountedAfterClose(s: Log, c: Closing, n: Counters, completed: seq<Episode>)
    requires Counted(s, n, completed)
    ensures var t := Close(s, c);
      Counted(t, n.(settledWithoutRecovery := Sum(t.closed, SettledOnce)), Last(t.closed, MAX_COMPLETED))
    ensures n.settledWithoutRecovery == Sum(s.closed, SettledOnce) && completed == Last(s.closed, MAX_COMPLETED)
  {
    CloseTotal(s, c, Count);
    CloseKeepsLongest(c, s.active);
    SumConcat(s.closed, Leaving(c, s.active), Count);
    hide Staying, Leaving, Longest, Sum;
  }

  lemma ViewAt(active: map<Key, Episode>, order: seq<Key>, j: nat)
    requires (forall k | k in order :: k in active) && j < |order|
    ensures order[j] in active && active[order[j]] == View(active, order)[j]
  {
    assert order[j] in order;
  }

  lemma WalkStep(c: Closing, es: seq<Episode>, i: nat, v: seq<Episode>)
    requires i <= |es| && v == Staying(c, es[..i]) + es[i..] && |Staying(c, es[..i])| < |v|
    ensures i < |es| && v[|Staying(c, es[..i])|] == es[i]
    ensures var kept := Staying(c, es[..i]);
      v[..|kept|] + v[|kept| + 1..] == kept + es[i + 1..] && v == kept + [es[i]] + es[i + 1..]
  {
  }

  lemma OverrunsCounted(s: Log, n: Counters, completed: seq<Episode>)
    requires Counted(s, n, completed)
    ensures n.semanticFailureOverrun == s.semantic && n.correlatedFailureOverrun == s.correlated
  {
  }

  lemma CountedAfterNote(s: Log, c: Call, n: Counters, completed: seq<Episode>)
    requires Counted(s, n, completed)
    ensures var t := NoteCall(s, c);
      Counted(t, n.(semanticFailureOverrun := t.semantic, correlatedFailureOverrun := t.correlated), completed)
  {
    NotedSums(s.active, c);
  }

  lemma CountedAfterFailure(s: Log, f: Failure, n: Counters, completed: seq<Episode>)
    requires Counted(s, n, completed)
    ensures var t, i := Observe(s, f), Find(s.active, f.key);
      var e := Recorded(if i < |s.active| then s.active[i] else Opened(f), f);
      Counted(t, n.(
        totalEpisodes := n.totalEpisodes + if i < |s.active| then 0 else 1,
        totalFailures := n.totalFailures + 1,
        longestEpisode := Max(n.longestEpisode, e.tally.count)), completed)
  {
    ObserveTotals(s, f);
    var i := Find(s.active, f.key);
    if i < |s.active| {
      SumUpdate(s.active, i, Recorded(s.active[i], f), Count);
    } else {
      SumSnoc(s.active, Recorded(Opened(f), f), Count);
    }
  }
}
