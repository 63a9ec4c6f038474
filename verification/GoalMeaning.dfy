/**
 What each operation makes of a goal, and which goals it refuses, told from the user's side:
 the status it leaves, what it records, and that it changes nothing else.
 */
module GoalMeaning {
  import opened Basics
  import opened Utf
  import opened GoalText
  import opened Spaces
  import opened Goals

  /** The goal with another status, and a history that says so: its last 32 entries. */
  ghost predicate WentTo(g: Goal, n: Goal, to: Status) {
    n.status == to && exists reason :: n.history == LastOnes(g.history + [Transition(g.status, to, reason)])
  }

  function LastOnes(h: seq<Transition>): seq<Transition> { if |h| > 32 then h[|h| - 32..] else h }

  /** Beyond status and history nothing has changed. */
  predicate RestSame(g: Goal, n: Goal) { n == g.(status := n.status, history := n.history) }

  /** Refused because the goal is not in a state for it; not because the copy is invalid. */
  predicate NotNow(r: Result<Goal>) { r.Err? && r.error != Rejected }

  lemma MovedWentTo(g: Goal, to: Status, reason: Text)
    ensures g.status != to ==> WentTo(g, Moved(g, to, reason), to)
    ensures RestSame(g, Moved(g, to, reason)) && Moved(g, to, reason).status == to
  {
    hide Clean;
    if g.status != to { assert Moved(g, to, reason).history == LastOnes(g.history + [Transition(g.status, to, Clean(reason, 500))]); }
  }

  /** A proposed goal is accepted and then active. */
  lemma AcceptMeans(valid: Validator, g: Goal)
    ensures var r := Apply(valid, g, Accepting);
      && (NotNow(r) <==> g.status != Proposed)
      && (r.Ok? ==> WentTo(g, r.value, Active) && RestSame(g, r.value) && valid(r.value))
  {
    hide Clean, Moved, WentTo, Ascii;
    MovedWentTo(g, Active, Ascii("user accepted skill proposal"));
  }

  lemma PauseMeans(valid: Validator, g: Goal)
    ensures var r := Apply(valid, g, Pausing);
      && (NotNow(r) <==> g.status != Active && g.status != Blocked)
      && (r.Ok? ==> WentTo(g, r.value, Paused) && RestSame(g, r.value) && valid(r.value))
  {
    hide Clean, Moved, WentTo, Ascii;
    MovedWentTo(g, Paused, Ascii("goal paused by user"));
  }

  lemma CancelMeans(valid: Validator, g: Goal)
    ensures var r := Apply(valid, g, Cancelling);
      && (NotNow(r) <==> g.status == Complete || g.status == Cancelled)
      && (r.Ok? ==> WentTo(g, r.value, Cancelled) && RestSame(g, r.value) && valid(r.value))
  {
    hide Clean, Moved, WentTo, Ascii;
    MovedWentTo(g, Cancelled, Ascii("goal cancelled by user"));
  }

  /** Resuming an active goal declines the pending proposal; any other goal becomes active and is
      no longer blocked. */
  lemma ResumeMeans(valid: Validator, g: Goal)
    ensures var r := Apply(valid, g, Resuming);
      && (NotNow(r) <==> g.status == Proposed || g.status == Complete || g.status == Cancelled || (g.status == Active && g.proposal.None?))
      && (r.Ok? && g.status == Active ==> r.value == g.(proposal := None))
      && (r.Ok? && g.status != Active ==> WentTo(g.(blocked := None), r.value, Active))
      && (r.Ok? && g.status != Active ==> RestSame(g.(blocked := None), r.value))
      && (r.Ok? ==> valid(r.value))
  {
    hide Clean, Moved, WentTo, Ascii;
    MovedWentTo(g, Active, Ascii("goal resumed by user"));
    if g.status != Active { MovedUnblocked(g, Active, Ascii("goal resumed by user")); }
  }

  /** Entries that say something, cleaned, each once and at most sixteen. */
  predicate Shown(ts: seq<Text>, shown: seq<Text>) { Distinct(shown) && Listed(ts, shown) }

  /** Entries that say something, cleaned, at most sixteen. */
  predicate Listed(ts: seq<Text>, shown: seq<Text>) {
    && |shown| <= 16
    && (forall t | t in shown :: t != [] && exists s | s in ts :: Clean(s, 500) == t)
    && (|shown| < 16 ==> forall s | s in ts && Clean(s, 500) != [] :: Clean(s, 500) in shown)
  }

  lemma MovedUnblocked(g: Goal, to: Status, reason: Text)
    requires WentTo(g, Moved(g, to, reason), to) && RestSame(g, Moved(g, to, reason))
    ensures var n := Moved(g, to, reason).(blocked := None);
      WentTo(g.(blocked := None), n, to) && RestSame(g.(blocked := None), n)
  {
    hide Clean;
  }

  lemma {:induction false} NonEmptyDistinct(ts: seq<Text>)
    requires Distinct(ts)
    ensures Distinct(NonEmpty(ts))
  {
    if ts != [] {
      forall i, j | 0 <= i < j < |ts[1..]| ensures ts[1..][i] != ts[1..][j] { assert ts[i + 1] != ts[j + 1]; }
      NonEmptyDistinct(ts[1..]);
      var rest := NonEmpty(ts[1..]);
      forall i | 0 <= i < |rest| ensures rest[i] != ts[0] {
        assert rest[i] in rest && rest[i] in ts[1..];
        var k :| 0 <= k < |ts[1..]| && ts[1..][k] == rest[i];
        assert ts[0] != ts[k + 1];
      }
    }
  }

  lemma FilteredShown(ts: seq<Text>)
    ensures Shown(ts, FilteredEvidence(ts))
  {
    hide Clean;
    var all := CleanAll(ts, MAX_SHORT);
    var kept := NonEmpty(Dedupe(all));
    NonEmptyDistinct(Dedupe(all));
    forall s | s in ts ensures Clean(s, 500) in all {
      var i :| 0 <= i < |ts| && ts[i] == s;
      assert all[i] in all;
    }
    forall t | t in all ensures exists s | s in ts :: Clean(s, 500) == t {
      var i :| 0 <= i < |all| && all[i] == t;
      assert ts[i] in ts;
    }
    var shown := FilteredEvidence(ts);
    forall t | t in shown ensures t in kept {}
    assert |shown| < 16 ==> shown == kept;
  }

  lemma TakenListed(ts: seq<Text>)
    ensures Listed(ts, Take(NonEmpty(CleanAll(ts, MAX_SHORT)), MAX_LIST))
  {
    hide Clean;
    var all := CleanAll(ts, MAX_SHORT);
    var kept := NonEmpty(all);
    forall s | s in ts ensures Clean(s, 500) in all {
      var i :| 0 <= i < |ts| && ts[i] == s;
      assert all[i] in all;
    }
    forall t | t in all ensures exists s | s in ts :: Clean(s, 500) == t {
      var i :| 0 <= i < |all| && all[i] == t;
      assert ts[i] in ts;
    }
    var shown := Take(kept, MAX_LIST);
    forall t | t in shown ensures t in kept {}
    assert |shown| < 16 ==> shown == kept;
  }

  /** A block records its reason, its evidence and what would lift it, and stops the goal. */
  lemma BlockMeans(valid: Validator, g: Goal, reason: Text, evidence: seq<Text>, unblock: Text)
    ensures var r := Apply(valid, g, Blocking(reason, evidence, unblock));
      && (NotNow(r) <==> g.status != Active || Clean(reason, 500) == [] || Clean(unblock, 500) == [])
      && (r.Ok? ==> r.value.status == Blocked && valid(r.value))
      && (r.Ok? ==> exists shown :: Shown(evidence, shown) && r.value.blocked == Some(Block(Clean(reason, 500), shown, Clean(unblock, 500)))
                                   && Latest(g.outcome.evidence + shown, r.value.outcome.evidence))
      && (r.Ok? ==> Latest(g.outcome.risks + [Clean(reason, 500)], r.value.outcome.risks))
      && (r.Ok? ==> r.value.outcome.(risks := [], evidence := []) == g.outcome.(risks := [], evidence := []))
      && (r.Ok? ==> r.value.criteria == g.criteria && r.value.id == g.id && r.value.proposal == g.proposal)
      && (r.Ok? ==> (g.status != Blocked ==> WentTo(g, r.value, Blocked)))
      && (r.Ok? && |g.outcome.risks| <= 16 ==> Clean(reason, 500) in r.value.outcome.risks)
  {
    hide Clean, FilteredEvidence;
    FilteredShown(evidence);
    LatestIs(g.outcome.evidence + FilteredEvidence(evidence));
    LatestIs(g.outcome.risks + [Clean(reason, 500)]);
    hide Shown, Latest;
    var why := Clean(reason, MAX_SHORT);
    if |g.outcome.risks| <= 16 { RecentLast(g.outcome.risks, why); }
    MovedWentTo(g, Blocked, why);
    hide Moved, WentTo;
  }

  lemma {:induction false} DedupeShorter(ts: seq<Text>)
    ensures |Dedupe(ts)| <= |ts|
  {
    if ts != [] { DedupeShorter(ts[..|ts| - 1]); }
  }

  /** What is added to at most sixteen entries is among the last sixteen then. */
  lemma RecentLast(ts: seq<Text>, t: Text)
    requires |ts| <= 16
    ensures t in Last(Dedupe(ts + [t]), MAX_LIST)
  {
    DedupeNext(ts, t);
    DedupeShorter(ts);
    hide Dedupe;
    var d := Dedupe(ts);
    if t !in ts {
      assert (d + [t])[|d|] == t;
      var kept := Last(d + [t], MAX_LIST);
      assert kept[|kept| - 1] == t;
    }
  }

  lemma DedupeNext(ts: seq<Text>, t: Text)
    ensures Dedupe(ts + [t]) == if t in ts then Dedupe(ts) else Dedupe(ts) + [t]
  {
    assert (ts + [t])[..|ts|] == ts;
  }

  // ---- Updates -----------------------------------------------------------------------------

  predicate DistinctIds(cs: seq<Criterion>) { forall i, j | 0 <= i < j < |cs| :: cs[i].id != cs[j].id }

  /** An update names a criterion of the goal; a required one is not deferred, and one that is
      met comes with evidence that says something. */
  predicate Allowed(cs: seq<Criterion>, u: CriterionUpdate) {
    exists c | c in cs ::
      && c.id == u.id
      && !(c.required && u.status == Deferred)
      && (u.status == Met ==> u.evidence.Some? && exists t | t in u.evidence.value :: Nonblank(t))
  }

  /** What the updates make of one criterion: its status and evidence are those given last. */
  function After(c: Criterion, us: seq<CriterionUpdate>): Criterion {
    if us == [] then c
    else
      var before, u := After(c, us[..|us| - 1]), us[|us| - 1];
      if u.id != c.id then before
      else Criterion(c.id, c.text, c.required, u.status, if u.evidence.Some? then Evidence(u.evidence.value) else before.evidence)
  }

  lemma {:induction false} AfterKeeps(c: Criterion, us: seq<CriterionUpdate>)
    ensures After(c, us).id == c.id && After(c, us).text == c.text && After(c, us).required == c.required
  {
    if us != [] { AfterKeeps(c, us[..|us| - 1]); }
  }

  function AllAfter(cs: seq<Criterion>, us: seq<CriterionUpdate>): (r: seq<Criterion>)
    ensures |r| == |cs| && forall i | 0 <= i < |cs| :: r[i] == After(cs[i], us)
  {
    seq(|cs|, i requires 0 <= i < |cs| => After(cs[i], us))
  }

  lemma {:induction false} FindIs(cs: seq<Criterion>, id: Text)
    ensures Find(cs, id).None? <==> forall c | c in cs :: c.id != id
  {
    if cs != [] {
      FindIs(cs[..|cs| - 1], id);
      assert cs == cs[..|cs| - 1] + [cs[|cs| - 1]];
    }
  }

  lemma SameAllowed(cs: seq<Criterion>, ds: seq<Criterion>, u: CriterionUpdate)
    requires |cs| == |ds| && forall i | 0 <= i < |cs| :: ds[i].id == cs[i].id && ds[i].required == cs[i].required
    ensures Allowed(cs, u) <==> Allowed(ds, u)
  {
    if Allowed(cs, u) {
      var c :| c in cs && c.id == u.id && !(c.required && u.status == Deferred)
        && (u.status == Met ==> u.evidence.Some? && exists t | t in u.evidence.value :: Nonblank(t));
      var i :| 0 <= i < |cs| && cs[i] == c;
      assert ds[i] in ds;
    }
    if Allowed(ds, u) {
      var c :| c in ds && c.id == u.id && !(c.required && u.status == Deferred)
        && (u.status == Met ==> u.evidence.Some? && exists t | t in u.evidence.value :: Nonblank(t));
      var i :| 0 <= i < |ds| && ds[i] == c;
      assert cs[i] in cs;
    }
  }

  lemma OneUpdate(cs: seq<Criterion>, u: CriterionUpdate)
    requires DistinctIds(cs)
    ensures UpdateOne(cs, u).Ok? <==> Allowed(cs, u)
    ensures UpdateOne(cs, u).Err? ==> UpdateOne(cs, u).error != Rejected
    ensures UpdateOne(cs, u).Ok? ==>
      && |UpdateOne(cs, u).value| == |cs|
      && forall i | 0 <= i < |cs| :: UpdateOne(cs, u).value[i] ==
           if cs[i].id != u.id then cs[i]
           else Criterion(cs[i].id, cs[i].text, cs[i].required, u.status, if u.evidence.Some? then Evidence(u.evidence.value) else cs[i].evidence)
  {
    hide Evidence, Nonblank;
    FindIs(cs, u.id);
    var n := Find(cs, u.id);
    if n.Some? {
      assert cs[n.value] in cs;
      forall i | 0 <= i < |cs| && cs[i].id == u.id ensures i == n.value {}
    }
  }

  /** Updates are taken exactly when each of them is allowed, and then every criterion has the
      status and the evidence it was given last; criteria nobody named are as they were. */
  lemma {:induction false} UpdatesMean(cs: seq<Criterion>, us: seq<CriterionUpdate>)
    requires DistinctIds(cs)
    ensures UpdateAll(cs, us).Ok? <==> forall u | u in us :: Allowed(cs, u)
    ensures UpdateAll(cs, us).Err? ==> UpdateAll(cs, us).error != Rejected
    ensures UpdateAll(cs, us).Ok? ==> UpdateAll(cs, us).value == AllAfter(cs, us)
  {
    hide Allowed, UpdateOne, Evidence;
    if us == [] {
      assert AllAfter(cs, us) == cs;
    } else {
      var n := |us| - 1;
      UpdatesMean(cs, us[..n]);
      assert us == us[..n] + [us[n]];
      var before := AllAfter(cs, us[..n]);
      forall i | 0 <= i < |cs| ensures before[i].id == cs[i].id && before[i].required == cs[i].required && before[i].text == cs[i].text {
        AfterKeeps(cs[i], us[..n]);
      }
      SameAllowed(cs, before, us[n]);
      OneUpdate(before, us[n]);
    }
  }

  /** An update changes an active goal's criteria as its updates say, withdraws the pending
      proposal, and leaves status, history and block alone. */
  lemma UpdateMeans(valid: Validator, g: Goal, us: seq<CriterionUpdate>, progress: seq<Text>, risks: Option<seq<Text>>)
    requires DistinctIds(g.criteria)
    ensures var r := Apply(valid, g, Updating(us, progress, risks));
      && (NotNow(r) <==> g.status != Active || exists u | u in us :: !Allowed(g.criteria, u))
      && (r.Ok? ==>
            && r.value.criteria == AllAfter(g.criteria, us) && r.value.proposal == None && valid(r.value)
            && r.value.id == g.id && r.value.status == g.status && r.value.history == g.history && r.value.blocked == g.blocked
            && Listed(if risks.Some? then risks.value else g.outcome.risks, r.value.outcome.risks)
            && Recent(g.outcome.evidence + CleanAll(progress, 500), r.value.outcome.evidence)
            && r.value.outcome.(risks := [], evidence := []) == g.outcome.(risks := [], evidence := []))
  {
    hide Clean, UpdateAll, AllAfter, Allowed, NonEmpty;
    UpdatesMean(g.criteria, us);
    TakenListed(if risks.Some? then risks.value else g.outcome.risks);
    RecentIs(g.outcome.evidence + CleanAll(progress, 500));
    hide Listed, Recent;
  }

  /** At most sixteen different entries, all there are if fewer. */
  predicate Latest(all: seq<Text>, kept: seq<Text>) {
    && |kept| <= 16 && Distinct(kept)
    && (forall t | t in kept :: t in all)
    && (|kept| < 16 ==> forall t | t in all :: t in kept)
  }

  lemma LatestIs(all: seq<Text>)
    ensures Latest(all, Last(Dedupe(all), MAX_LIST))
  {
    var kept := Last(Dedupe(all), MAX_LIST);
    forall t | t in kept ensures t in Dedupe(all) {}
    assert |kept| < 16 ==> kept == Dedupe(all);
  }

  /** At most sixteen different entries that are not empty, all there are if fewer. */
  predicate Recent(all: seq<Text>, kept: seq<Text>) {
    && |kept| <= 16 && Distinct(kept)
    && (forall t | t in kept :: t != [] && t in all)
    && (|kept| < 16 ==> forall t | t in all && t != [] :: t in kept)
  }

  lemma RecentIs(all: seq<Text>)
    ensures Recent(all, Last(NonEmpty(Dedupe(all)), MAX_LIST))
  {
    NonEmptyDistinct(Dedupe(all));
    var ts := NonEmpty(Dedupe(all));
    var kept := Last(ts, MAX_LIST);
    forall t | t in kept ensures t in ts {}
    assert |kept| < 16 ==> kept == ts;
  }

  lemma {:induction false} NonEmptyConcat(a: seq<Text>, b: seq<Text>)
    ensures NonEmpty(a + b) == NonEmpty(a) + NonEmpty(b)
  {
    if a == [] {
      assert a + b == b;
    } else {
      assert (a + b)[1..] == a[1..] + b;
      NonEmptyConcat(a[1..], b);
    }
  }

  lemma {:induction false} DedupeNew(a: seq<Text>, b: seq<Text>)
    requires Distinct(b) && forall t | t in b :: t !in a
    ensures Dedupe(a + b) == Dedupe(a) + b
  {
    hide Dedupe;
    if b == [] {
      assert a + b == a && Dedupe(a) + b == Dedupe(a);
    } else {
      var front, last := b[..|b| - 1], b[|b| - 1];
      LastIsNew(b);
      hide Distinct;
      DedupeNew(a, front);
      SnocNew(a, front, last);
      Snoc(a, b);
      Snoc(Dedupe(a), b);
    }
  }

  lemma SnocNew(a: seq<Text>, b: seq<Text>, t: Text)
    requires t !in a && t !in b
    ensures Dedupe(a + b + [t]) == Dedupe(a + b) + [t]
  {
    DedupeNext(a + b, t);
  }

  lemma Snoc<T>(a: seq<T>, b: seq<T>)
    requires b != []
    ensures a + b[..|b| - 1] + [b[|b| - 1]] == a + b
  {
  }

  lemma LastIsNew(b: seq<Text>)
    requires Distinct(b) && b != []
    ensures var front, last := b[..|b| - 1], b[|b| - 1];
      Distinct(front) && last !in front && last in b && forall t | t in front :: t in b
  {
  }

  lemma {:induction false} NonEmptyAll(b: seq<Text>)
    requires forall t | t in b :: t != []
    ensures NonEmpty(b) == b
  {
    if b != [] {
      forall t | t in b[1..] ensures t in b {}
      NonEmptyAll(b[1..]);
      assert b[0] in b && b == [b[0]] + b[1..];
    }
  }

  /** Up to sixteen new pieces of progress are the last evidence of the updated goal. */
  lemma NewProgressStays(valid: Validator, g: Goal, us: seq<CriterionUpdate>, progress: seq<Text>, risks: Option<seq<Text>>)
    requires var shown := CleanAll(progress, 500); Distinct(shown) && |shown| <= 16 && forall t | t in shown :: t != [] && t !in g.outcome.evidence
    ensures var r := Apply(valid, g, Updating(us, progress, risks));
      r.Ok? ==> EndsWith(r.value.outcome.evidence, CleanAll(progress, 500))
  {
    hide CleanAll, UpdateAll, NonEmpty, Dedupe, EndsWith, Distinct, Last, Take;
    NewStays(g.outcome.evidence, CleanAll(progress, 500));
  }

  lemma NewStays(a: seq<Text>, b: seq<Text>)
    requires Distinct(b) && |b| <= MAX_LIST && forall t | t in b :: t != [] && t !in a
    ensures EndsWith(Last(NonEmpty(Dedupe(a + b)), MAX_LIST), b)
  {
    DedupeNew(a, b);
    NonEmptyConcat(Dedupe(a), b);
    NonEmptyAll(b);
    hide NonEmpty, Dedupe;
    var kept := NonEmpty(Dedupe(a));
    var r := Last(kept + b, MAX_LIST);
    assert r[|r| - |b|..] == b;
  }

  // ---- Settlements ------------------------------------------------------------------------------

  /** What a settlement needs: something delivered, a confidence between 0 and 1, evidence, and
      every required criterion met with evidence; a whole one needs all criteria met, a partial
      one every optional criterion settled and a rationale for what is deferred. */
  predicate Deserved(cs: seq<Criterion>, o: Outcome, all: bool) {
    && Nonblank(o.delivered)
    && o.confidence.Finite? && 0.0 <= o.confidence.value <= 1.0
    && (exists t | t in o.evidence :: Nonblank(t))
    && (forall c | c in cs && c.required :: c.status == Met && c.evidence != [])
    && if all then forall c | c in cs :: c.status == Met
       else
         && (forall c | c in cs && !c.required :: c.status != CriterionStatus.Open)
         && ((exists c | c in cs :: c.status == Deferred) ==> o.deferred != [])
  }

  lemma ObjectionExactly(cs: seq<Criterion>, o: Outcome, all: bool)
    ensures Objection(cs, o, all).None? <==> Deserved(cs, o, all)
    ensures Objection(cs, o, all).Some? ==> Objection(cs, o, all).value != Rejected
  {
    CleanNonblank(o.delivered, MAX_TEXT);
    hide Clean, Nonblank;
  }

  /** What settling leaves: the status, the outcome as it was given, cleaned, and no proposal. */
  lemma SettleMeans(valid: Validator, g: Goal, o: Outcome, all: bool)
    ensures var r := Settle(valid, g, o, all);
      && (NotNow(r) <==> g.status != Active || !Deserved(g.criteria, o, all))
      && (r.Ok? ==>
            && r.value.status == (if all then Complete else Accepted8020) && r.value.proposal == None && valid(r.value)
            && r.value.criteria == g.criteria && r.value.id == g.id && r.value.blocked == g.blocked
            && r.value.outcome.delivered == Clean(o.delivered, 2000) && r.value.outcome.confidence == o.confidence
            && Shown(o.evidence, r.value.outcome.evidence) && Listed(o.risks, r.value.outcome.risks)
            && |r.value.outcome.deferred| == Min(|o.deferred|, 16)
            && (forall i | 0 <= i < |r.value.outcome.deferred| ::
                  r.value.outcome.deferred[i] ==
                  DeferredItem(Clean(o.deferred[i].value, 500), Clean(o.deferred[i].risk, 500), Clean(o.deferred[i].rationale, 2000)))
            && r.value.outcome.verification == (if o.verification.Some? then o.verification else g.outcome.verification))
  {
    hide Clean, Objection, Deserved, NonEmpty, FilteredEvidence, Moved;
    ObjectionExactly(g.criteria, o, all);
    FilteredShown(o.evidence);
    TakenListed(o.risks);
    hide Listed;
    MovedWentTo(g, if all then Complete else Accepted8020, if all then COMPLETION else ACCEPTANCE);
    hide Shown, WentTo;
  }

  /** What a settlement would record, with some verification. */
  predicate Proposes(settled: Result<Goal>, p: Outcome) {
    && settled.Ok?
    && p.(verification := settled.value.outcome.verification) == settled.value.outcome
    && p.verification == Some(match settled.value.outcome.verification case Some(v) => v case None => Unknown)
  }

  /** The model settles a goal whole, or only proposes to settle it in part; the user accepts the
      proposal as it stands. */
  lemma ProposalsMean(valid: Validator, g: Goal, o: Outcome)
    ensures Apply(valid, g, Settling(o, true)) == Settle(valid, g, o, true)
    ensures var r := Apply(valid, g, Settling(o, false));
      && (NotNow(r) <==> NotNow(Settle(valid, g, o, false)))
      && (r.Ok? ==> r.value.status == Active && r.value.proposal.Some? && r.value == g.(proposal := r.value.proposal))
      && (r.Ok? ==> Proposes(Settle(valid, g, o, false), r.value.proposal.value))
    ensures NotNow(Apply(valid, g, AcceptingSettlement)) <==>
      g.status != Active || g.proposal.None? || !Deserved(g.criteria, g.proposal.value, false)
    ensures g.status == Active && g.proposal.Some? ==>
      Apply(valid, g, AcceptingSettlement) == Settle(valid, g.(proposal := None), g.proposal.value, false)
  {
    hide Clean, Settle, Deserved;
    SettleMeans(valid, g, o, false);
    if g.proposal.Some? { SettleMeans(valid, g.(proposal := None), g.proposal.value, false); }
    hide Shown;
  }

  lemma {:induction false} UpdateNeverRejects(cs: seq<Criterion>, us: seq<CriterionUpdate>)
    ensures UpdateAll(cs, us).Err? ==> UpdateAll(cs, us).error != Rejected
  {
    hide Evidence;
    if us != [] { UpdateNeverRejects(cs, us[..|us| - 1]); }
  }

  /** Beyond the refusals above, only the validator can refuse. */
  lemma OnlyTheValidatorRejects(valid: Validator, g: Goal, op: Operation)
    ensures Apply(valid, g, op) == Err(Rejected) ==> exists n :: !valid(n)
  {
    hide Clean, Moved, FilteredEvidence, Recorded, Objection, NonEmpty, Dedupe, UpdateAll;
    if op.Settling? { ObjectionExactly(g.criteria, op.outcome, op.all); }
    if op.AcceptingSettlement? && g.proposal.Some? { ObjectionExactly(g.criteria, g.proposal.value, false); }
    if op.Updating? { UpdateNeverRejects(g.criteria, op.updates); }
  }

  // ---- Creation ---------------------------------------------------------------------------------

  lemma {:induction false} OpenedAt(cs: seq<NewCriterion>, i: nat)
    requires i < |cs|
    ensures OpenedAll(cs)[i] == Criterion(cs[i].id, Clean(cs[i].text, 2000), cs[i].required, CriterionStatus.Open, [])
  {
    hide Clean;
    if i > 0 { OpenedAt(cs[1..], i - 1); }
  }

  /** A new goal has the status asked for, nothing behind it, and every criterion open; without
      criteria it has one, which is required. */
  lemma CreateMeans(valid: Validator, id: Text, objective: Text, criteria: seq<NewCriterion>, status: Status)
    requires status.Active? || status.Proposed?
    ensures var r := Create(valid, id, objective, criteria, status);
      && (NotNow(r) <==> ByteLength(Trim(objective)) > 2000 || !Nonblank(objective))
      && (r.Ok? ==>
            && r.value.id == id && r.value.status == status && r.value.history == [] && r.value.blocked == None && r.value.proposal == None
            && valid(r.value) && |r.value.criteria| == (if criteria == [] then 1 else |criteria|))
      && (r.Ok? && criteria == [] ==> r.value.criteria[0].required && r.value.criteria[0].status == CriterionStatus.Open)
      && (r.Ok? ==> forall i | 0 <= i < |criteria| ::
            r.value.criteria[i] == Criterion(criteria[i].id, Clean(criteria[i].text, 2000), criteria[i].required, CriterionStatus.Open, []))
  {
    CleanNonblank(objective, MAX_TEXT);
    hide Clean, Nonblank, ByteLength, Trim, OpenedAll;
    forall i | 0 <= i < |criteria|
      ensures OpenedAll(criteria)[i] == Criterion(criteria[i].id, Clean(criteria[i].text, 2000), criteria[i].required, CriterionStatus.Open, [])
    {
      OpenedAt(criteria, i);
    }
    OpenedAt([DEFAULT_CRITERION], 0);
  }
}
