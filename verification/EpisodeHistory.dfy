/**
 The story of one kind of failure on one target, told from the events alone: since when it
 is open, how often it failed, which calls came after the second failure, and what ends it.
 In every run the log holds exactly the open stories.
 */
module EpisodeHistory {
  import opened Utf
  import opened Episodes
  import opened EpisodeFacts

  /** The open story of a key; the evidence is the latest verifier's, and of the ways it was
      called the first sixteen different ones are kept. */
  datatype Story = Story(failures: nat, callsAfter: nat, ownCallsAfter: nat, scope: Scope, verifier: Option<Text>, ways: seq<Text>)

  /** What a failure says about how it can be seen to be over: by the project's gate or by the
      verifier that failed, else by a success on the same target if a check failed there. */
  function ScopeSeen(f: Failure): Scope {
    match f.verifier
    case Some(_) => if f.gate == NoGate then SameVerifier else ExactProjectGate
    case None =>
      if f.key.class_ == VerificationAssertion || f.key.class_ == CompileOrLint then SameTarget else NoScope
  }

  /** A success ends a story: verified exactly, under the gate or of unknown class; by the very
      verifier; the provider answering again; or on its own family and target, where that is
      evidence. */
  predicate EndedBy(k: Key, scope: Scope, verifier: Option<Text>, ok: Success, kind: RecoveryKind) {
    || (ok.exact && (scope == ExactProjectGate || k.class_ == Unknown))
    || (scope == SameVerifier && ok.verifier.Some? && verifier == ok.verifier)
    || (kind == ProviderFirstToken && k.class_ == Provider)
    || (k.family == ok.family && k.target == ok.target
        && (scope == SameTarget || k.class_ == SchemaValidation || k.class_ == PolicyRejection || k.class_ == Permission
            || k.class_ == NotFound || k.class_ == CommandMissing || k.class_ == EditConflict))
  }

  predicate Ends(k: Key, story: Story, c: Closing) {
    match c
    case Recovering(ok, kind) => EndedBy(k, story.scope, story.verifier, ok, kind)
    case Abandoning(family, target) => k.family == family && k.target == target
    case Settling => true
    case Clearing => true
  }

  /** A call counts once the story has a second failure. */
  function CalledOn(k: Key, s: Story, c: Call): Story {
    if s.failures < 2 then s
    else
      var own := k.family == c.family && k.target == c.target && k.item == c.item;
      s.(callsAfter := s.callsAfter + 1, ownCallsAfter := s.ownCallsAfter + if own then 1 else 0)
  }

  function Begun(f: Failure): Story { Story(1, 0, 0, ScopeSeen(f), f.verifier, [f.variant]) }

  function FailedAgain(s: Story, f: Failure): Story {
    var t := s.(failures := s.failures + 1, ways := if |s.ways| == 16 || f.variant in s.ways then s.ways else s.ways + [f.variant]);
    if f.verifier.Some? then t.(scope := ScopeSeen(f), verifier := f.verifier) else t
  }

  /** The story of a key after some events, if one is open. */
  function Told(events: seq<Event>, k: Key): Option<Story> {
    if events == [] then None
    else
      var before := Told(events[..|events| - 1], k);
      match events[|events| - 1]
      case Reset => None
      case ToolCall(c) =>
        if before.None? then None else Some(CalledOn(k, before.value, c))
      case Failed(f) =>
        if f.key != k then before
        else Some(if before.None? then Begun(f) else FailedAgain(before.value, f))
      case Closes(c) => if before.Some? && Ends(k, before.value, c) then None else before
  }

  function StoryOf(e: Episode): Story {
    Story(e.tally.count, e.tally.after, e.tally.correlated, e.evidence.scope, e.evidence.verifier, e.variants)
  }

  /** The log holds this of a key, and nothing else. */
  ghost predicate Holds(es: seq<Episode>, k: Key, story: Option<Story>) {
    && (forall e | e in es && e.key == k :: story == Some(StoryOf(e)))
    && (story.Some? ==> exists e :: e in es && e.key == k)
  }

  lemma NotedHolds(es: seq<Episode>, k: Key, story: Option<Story>, c: Call)
    requires Holds(es, k, story)
    ensures Holds(AllNoted(es, c), k, if story.None? then None else Some(CalledOn(k, story.value, c)))
  {
    hide Noted;
    var r := AllNoted(es, c);
    forall e | e in r && e.key == k ensures story.Some? && StoryOf(e) == CalledOn(k, story.value, c) {
      var i :| 0 <= i < |r| && r[i] == e;
      assert es[i] in es;
      NotedStory(es[i], c);
    }
    if story.Some? {
      var e :| e in es && e.key == k;
      var i :| 0 <= i < |es| && es[i] == e;
      NotedStory(e, c);
      assert r[i] in r;
    }
  }

  lemma NotedStory(e: Episode, c: Call)
    ensures Noted(e, c).key == e.key && StoryOf(Noted(e, c)) == CalledOn(e.key, StoryOf(e), c)
  {
  }

  lemma NoneNoted(es: seq<Episode>, k: Key, story: Option<Story>)
    requires Holds(es, k, story) && !AnyExposed(es)
    ensures story.Some? ==> story.value.failures < 2
  {
    if story.Some? {
      var e :| e in es && e.key == k;
      assert !Exposed(e);
    }
  }

  lemma OtherHolds(es: seq<Episode>, k: Key, story: Option<Story>, es': seq<Episode>)
    requires Holds(es, k, story)
    requires forall e: Episode | e.key == k :: e in es' <==> e in es
    ensures Holds(es', k, story)
  {
    if story.Some? {
      var e :| e in es && e.key == k;
      assert e in es';
    }
  }

  /** What happens to the story when the episode at one place is written anew. */
  lemma RewrittenHolds(es: seq<Episode>, n: nat, e: Episode, k: Key, story: Option<Story>)
    requires n < |es| && DistinctKeys(es) && e.key == es[n].key && Holds(es, k, story)
    ensures Holds(es[n := e], k, if e.key == k then Some(StoryOf(e)) else story)
    ensures e.key == k ==> story == Some(StoryOf(es[n]))
  {
    var r := es[n := e];
    assert es[n] in es && r[n] in r;
    assert forall i | 0 <= i < |es| && i != n :: es[i].key != es[n].key;
    if e.key == k {
      OnlyAt(r, n);
    } else {
      assert es == es[..n] + [es[n]] + es[n + 1..] && r == es[..n] + [e] + es[n + 1..];
      OtherHolds(es, k, story, r);
    }
  }

  lemma AddedHolds(es: seq<Episode>, e: Episode, k: Key, story: Option<Story>)
    requires (forall x | x in es :: x.key != e.key) && Holds(es, k, story)
    ensures Holds(es + [e], k, if e.key == k then Some(StoryOf(e)) else story)
    ensures e.key == k ==> story == None
  {
    assert (es + [e])[|es|] == e;
    if e.key != k { OtherHolds(es, k, story, es + [e]); }
  }

  lemma ObservedHolds(s: Log, k: Key, story: Option<Story>, f: Failure)
    requires DistinctKeys(s.active) && Holds(s.active, k, story) && forall e | e in s.active :: |e.variants| <= 16
    ensures Holds(Observe(s, f).active, k,
      if f.key != k then story else Some(if story.None? then Begun(f) else FailedAgain(story.value, f)))
  {
    hide Recorded, Opened, FailedAgain, Holds, DistinctKeys, StoryOf;
    var n, es := Find(s.active, f.key), s.active;
    if n < |es| {
      assert es[n] in es;
      RecordedStory(es[n], f);
      RewrittenHolds(es, n, Recorded(es[n], f), k, story);
    } else {
      assert es[..n] == es;
      OpenedStory(f);
      AddedHolds(es, Recorded(Opened(f), f), k, story);
    }
  }

  lemma RecordedStory(e: Episode, f: Failure)
    requires |e.variants| <= 16
    ensures Recorded(e, f).key == e.key && StoryOf(Recorded(e, f)) == FailedAgain(StoryOf(e), f)
  {
  }

  lemma OpenedStory(f: Failure)
    ensures StoryOf(Recorded(Opened(f), f)) == Begun(f) && Recorded(Opened(f), f).key == f.key
  {
  }

  lemma OnlyAt(es: seq<Episode>, n: nat)
    requires n < |es| && forall i | 0 <= i < |es| && i != n :: es[i].key != es[n].key
    ensures forall e | e in es && e.key == es[n].key :: e == es[n]
  {
  }

  lemma ClosedExactly(k: Key, e: Episode, c: Closing)
    requires e.key == k
    ensures IsClosedBy(c, e) <==> Ends(k, StoryOf(e), c)
  {
  }

  lemma {:induction false} StayingIs(c: Closing, es: seq<Episode>)
    ensures forall e :: e in Staying(c, es) <==> e in es && !IsClosedBy(c, e)
  {
    if es != [] {
      StayingIs(c, es[..|es| - 1]);
      assert es == es[..|es| - 1] + [es[|es| - 1]];
    }
  }

  lemma ClosingHolds(es: seq<Episode>, k: Key, story: Option<Story>, c: Closing)
    requires Holds(es, k, story)
    ensures Holds(Staying(c, es), k, if story.Some? && Ends(k, story.value, c) then None else story)
  {
    hide Staying, IsClosedBy, Ends;
    StayingIs(c, es);
    forall e | e in es && e.key == k ensures IsClosedBy(c, e) <==> Ends(k, story.value, c) { ClosedExactly(k, e, c); }
    if story.Some? {
      var e :| e in es && e.key == k;
      if !Ends(k, story.value, c) { assert e in Staying(c, es); }
    }
  }

  /** In every run the log holds the open story of each key, and no other. */
  lemma {:induction false} LogTellsTheStory(events: seq<Event>, k: Key)
    ensures Holds(Run(events).active, k, Told(events, k))
  {
    hide Holds, Inv, Observe, NoteCall, Close, Ends;
    if events == [] {
      NothingHeld(k);
    } else {
      var n := |events| - 1;
      var before := Run(events[..n]);
      LogTellsTheStory(events[..n], k);
      RunInv(events[..n]);
      DistinctActive(before);
      match events[n]
      case Reset => NothingHeld(k);
      case ToolCall(c) => CallHolds(before, k, Told(events[..n], k), c);
      case Failed(f) => ObservedHolds(before, k, Told(events[..n], k), f);
      case Closes(c) => CloseHolds(before, k, Told(events[..n], k), c);
    }
  }

  lemma DistinctActive(s: Log)
    requires Inv(s)
    ensures DistinctKeys(s.active) && AllActive(s.active) && forall e | e in s.active :: |e.variants| <= 16
  {
    hide Sum, NoneActive;
  }

  lemma NothingHeld(k: Key)
    ensures Holds([], k, None)
  {
  }

  lemma CallHolds(s: Log, k: Key, story: Option<Story>, c: Call)
    requires Holds(s.active, k, story)
    ensures Holds(NoteCall(s, c).active, k, if story.None? then None else Some(CalledOn(k, story.value, c)))
  {
    hide Holds;
    if AnyExposed(s.active) { NotedHolds(s.active, k, story, c); } else { NoneNoted(s.active, k, story); }
  }

  lemma CloseHolds(s: Log, k: Key, story: Option<Story>, c: Closing)
    requires Holds(s.active, k, story)
    ensures Holds(Close(s, c).active, k, if story.Some? && Ends(k, story.value, c) then None else story)
  {
    ClosingHolds(s.active, k, story, c);
  }

  // ---- What closing leaves behind --------------------------------------------------------

  /** How an ended story is written down: a verified success by the gate before all else, an
      abandoned one without a recovery. */
  function Outcome(k: Key, scope: Scope, c: Closing): (Status, Option<RecoveryKind>) {
    match c
    case Recovering(ok, kind) =>
      (Recovered, Some(if ok.exact && (scope == ExactProjectGate || k.class_ == Unknown) then ExactGate else kind))
    case Abandoning(_, _) => (Abandoned, None)
    case Settling => (Settled, None)
    case Clearing => (Recovered, Some(ManualResume))
  }

  /** An event that closes takes out of the active episodes exactly those whose stories it
      ends, leaves all others as they were, and puts nothing else among the closed ones. */
  lemma ClosesExactly(events: seq<Event>, c: Closing, e: Episode)
    requires e in Run(events).active
    ensures var s, t := Run(events), Run(events + [Closes(c)]);
      && (e in t.active <==> !Ends(e.key, StoryOf(e), c))
      && s.closed <= t.closed
      && (var (status, recovery) := Outcome(e.key, e.evidence.scope, c);
          e.(status := status, recovery := recovery) in t.closed[|s.closed|..] <==> Ends(e.key, StoryOf(e), c))
  {
    hide Ends, IsClosedBy, ClosedBy, Staying, Leaving;
    var s := Run(events);
    assert (events + [Closes(c)])[..|events|] == events;
    RunInv(events);
    StayingIs(c, s.active);
    ClosedExactly(e.key, e, c);
    LeavingIs(c, s.active, e);
    DistinctActive(s);
    OutcomeIs(c, e);
    assert Run(events + [Closes(c)]).closed[|s.closed|..] == Leaving(c, s.active);
  }

  lemma OutcomeIs(c: Closing, e: Episode)
    requires e.recovery.None?
    ensures var (status, recovery) := Outcome(e.key, e.evidence.scope, c);
      ClosedBy(c, e) == e.(status := status, recovery := recovery)
  {
  }

  lemma {:induction false} LeavingHas(c: Closing, es: seq<Episode>, e: Episode)
    requires e in es && IsClosedBy(c, e)
    ensures ClosedBy(c, e) in Leaving(c, es)
  {
    var n := |es| - 1;
    if es[n] != e {
      assert es == es[..n] + [es[n]];
      LeavingHas(c, es[..n], e);
    }
  }

  lemma LeavingIs(c: Closing, es: seq<Episode>, e: Episode)
    requires e in es && DistinctKeys(es)
    ensures ClosedBy(c, e) in Leaving(c, es) <==> IsClosedBy(c, e)
  {
    if IsClosedBy(c, e) {
      LeavingHas(c, es, e);
    } else if ClosedBy(c, e) in Leaving(c, es) {
      ClosedFrom(c, es);
      assert IsLeaver(c, es, ClosedBy(c, e));
      var o :| o in es && IsClosedBy(c, o) && ClosedBy(c, o) == ClosedBy(c, e);
      SameKey(c, o, e);
      SameEpisode(es, o, e);
    }
  }

  lemma SameKey(c: Closing, a: Episode, b: Episode)
    requires ClosedBy(c, a) == ClosedBy(c, b)
    ensures a.key == b.key
  {
  }

  lemma SameEpisode(es: seq<Episode>, a: Episode, b: Episode)
    requires DistinctKeys(es) && a in es && b in es && a.key == b.key
    ensures a == b
  {
  }

  // ---- Runs ---------------------------------------------------------------------------------

  /** No event of these is a reset or ends the story of the key as it then stands. */
  predicate NothingEnds(events: seq<Event>, more: seq<Event>, k: Key) {
    forall i | 0 <= i < |more| ::
      && !more[i].Reset?
      && (more[i].Closes? ==> var story := Told(events + more[..i], k); story.Some? ==> !Ends(k, story.value, more[i].closing))
  }

  /** A failure stays active, and the failures behind it are counted, until something ends its
      story or resets the log. */
  lemma {:induction false} FailureStaysActive(events: seq<Event>, more: seq<Event>, k: Key)
    requires Told(events, k).Some? && NothingEnds(events, more, k)
    ensures Told(events + more, k).Some? && Told(events + more, k).value.failures >= Told(events, k).value.failures
    ensures exists e :: e in Run(events + more).active && e.key == k
  {
    hide Ends, ScopeSeen, Run, StoryOf;
    LogTellsTheStory(events + more, k);
    if more == [] {
      assert events + more == events;
    } else {
      var n, all := |more| - 1, events + more;
      assert all[..|all| - 1] == events + more[..n] && all[|all| - 1] == more[n];
      forall i | 0 <= i < n ensures more[..n][i] == more[i] && more[..n][..i] == more[..i] {}
      FailureStaysActive(events, more[..n], k);
    }
  }

  /** Some open story has a second failure, on the target of the call where that is asked. */
  ghost predicate Repeated(events: seq<Event>) { exists k :: Told(events, k).Some? && Told(events, k).value.failures >= 2 }

  ghost predicate RepeatedFor(events: seq<Event>, c: Call) {
    exists k :: Told(events, k).Some? && Told(events, k).value.failures >= 2
      && k.family == c.family && k.target == c.target && k.item == c.item
  }

  /** The calls made while something had failed twice and was not over; and those among them on
      the target of such a failure. */
  ghost function CallsMeanwhile(events: seq<Event>): (nat, nat) {
    if events == [] || events[|events| - 1].Reset? then (0, 0)
    else
      var before, e := events[..|events| - 1], events[|events| - 1];
      var (all, own) := CallsMeanwhile(before);
      if e.ToolCall? then (all + (if Repeated(before) then 1 else 0), own + (if RepeatedFor(before, e.call) then 1 else 0))
      else (all, own)
  }

  /** The two overrun counters count those calls. */
  lemma {:induction false} OverrunsExactly(events: seq<Event>)
    ensures (Run(events).semantic, Run(events).correlated) == CallsMeanwhile(events)
  {
    if events != [] {
      var n := |events| - 1;
      OverrunsExactly(events[..n]);
      hide Told, Repeated, RepeatedFor, Staying, Leaving, AnyExposed, AnyOnTarget, Recorded, Opened;
      if events[n].ToolCall? { ExposedIsRepeated(events[..n], events[n].call); }
    }
  }

  lemma ExposedIsRepeated(events: seq<Event>, c: Call)
    ensures AnyExposed(Run(events).active) <==> Repeated(events)
    ensures AnyOnTarget(Run(events).active, c) <==> RepeatedFor(events, c)
    ensures AnyOnTarget(Run(events).active, c) ==> AnyExposed(Run(events).active)
  {
    hide Run, Told, Holds;
    var es := Run(events).active;
    forall k ensures Holds(es, k, Told(events, k)) { LogTellsTheStory(events, k); }
    forall e | e in es ensures Told(events, e.key) == Some(StoryOf(e)) { HeldStory(es, e, Told(events, e.key)); }
    forall k | Told(events, k).Some? ensures exists e :: e in es && e.key == k { StoryHeld(es, k, Told(events, k)); }
  }

  lemma HeldStory(es: seq<Episode>, e: Episode, story: Option<Story>)
    requires e in es && Holds(es, e.key, story)
    ensures story == Some(StoryOf(e))
  {
  }

  lemma StoryHeld(es: seq<Episode>, k: Key, story: Option<Story>)
    requires Holds(es, k, story) && story.Some?
    ensures exists e :: e in es && e.key == k
  {
  }
}
