/**
 The versions of a file that a plan goes through, from the bytes that were read to the bytes to
 write. Each stage is made for one version, named by its tag; the first that is not stops the
 plan.
 */
module Trails {
  import opened Utf
  import opened Lines
  import opened Hunks
  import opened Apply
  import opened Staged

  datatype Version = Version(doc: Document, bytes: Bytes)

  /** A stage leads from one version to the next: it names the one it was made for, its hunks
      apply, and what they leave can be written and is not too large. */
  ghost predicate Leads(env: Env, v: Version, stage: Stage, next: Version) {
    && AllValid(stage.hunks)
    && stage.tag == env.fileTag(v.bytes)
    && Apply.Apply(v.doc, stage.hunks).Ok? && Apply.Apply(v.doc, stage.hunks).value.document == next.doc
    && Serialize(next.doc) == Ok(next.bytes) && |next.bytes| <= env.maxBytes
  }

  /** Why a stage does not lead on from a version, the first reason first. */
  ghost predicate Complains(env: Env, v: Version, stage: Stage, e: PlanError) {
    && AllValid(stage.hunks)
    && if stage.tag != env.fileTag(v.bytes) then e == StaleTag
       else if Apply.Apply(v.doc, stage.hunks).Err? then e == Refused(Apply.Apply(v.doc, stage.hunks).error)
       else
         var next := Apply.Apply(v.doc, stage.hunks).value.document;
         if Serialize(next).Err? then e == Unwritable(Serialize(next).error)
         else e == TooLarge && |Serialize(next).value| > env.maxBytes
  }

  /** Versions from `v` on, one stage after the other. */
  ghost predicate IsTrail(env: Env, v: Version, stages: seq<Stage>, trail: seq<Version>) {
    && 1 <= |trail| <= |stages| + 1 && trail[0] == v
    && forall k | 0 <= k < |trail| - 1 :: Leads(env, trail[k], stages[k], trail[k + 1])
  }

  /** All stages lead on, and the last version has these bytes. */
  ghost predicate EndsIn(env: Env, v: Version, stages: seq<Stage>, bytes: Bytes) {
    exists trail: seq<Version> :: IsTrail(env, v, stages, trail) && |trail| == |stages| + 1 && trail[|stages|].bytes == bytes
  }

  /** Some stage is the first that does not lead on, and this is why. */
  ghost predicate StopsWith(env: Env, v: Version, stages: seq<Stage>, e: PlanError) {
    exists trail: seq<Version> :: IsTrail(env, v, stages, trail) && 0 < |trail| <= |stages| && Complains(env, trail[|trail| - 1], stages[|trail| - 1], e)
  }

  /** There is one trail of each length. */
  lemma {:induction false} TrailsAgree(env: Env, v: Version, stages: seq<Stage>, a: seq<Version>, b: seq<Version>, k: nat)
    requires IsTrail(env, v, stages, a) && IsTrail(env, v, stages, b) && k < |a| && k < |b|
    ensures a[k] == b[k]
  {
    hide Leads, IsTrail;
    TrailAt(env, v, stages, a, k);
    TrailAt(env, v, stages, b, k);
    if k > 0 {
      TrailsAgree(env, v, stages, a, b, k - 1);
      LeadsOnce(env, a[k - 1], stages[k - 1], a[k], b[k]);
    }
  }

  lemma TrailAt(env: Env, v: Version, stages: seq<Stage>, t: seq<Version>, k: nat)
    requires IsTrail(env, v, stages, t) && k < |t|
    ensures k <= |stages| && t[0] == v && (k > 0 ==> Leads(env, t[k - 1], stages[k - 1], t[k]))
  {
    hide Leads;
    if k > 0 { assert Leads(env, t[k - 1], stages[k - 1], t[k - 1 + 1]); }
  }

  lemma LeadsOnce(env: Env, v: Version, stage: Stage, a: Version, b: Version)
    requires Leads(env, v, stage, a) && Leads(env, v, stage, b)
    ensures a == b
  {
    hide Apply.Apply, Serialize;
  }

  lemma TrailFurther(env: Env, v: Version, stages: seq<Stage>, next: Version, rest: seq<Version>)
    requires stages != [] && Leads(env, v, stages[0], next) && IsTrail(env, next, stages[1..], rest)
    ensures IsTrail(env, v, stages, [v] + rest)
  {
    hide Leads;
    var trail := [v] + rest;
    forall k | 0 <= k < |trail| - 1 ensures Leads(env, trail[k], stages[k], trail[k + 1]) {
      if k > 0 { assert stages[1..][k - 1] == stages[k] && Leads(env, rest[k - 1], stages[1..][k - 1], rest[k]); }
    }
  }

  lemma OneStage(env: Env, v: Version, stage: Stage)
    requires AllValid(stage.hunks)
    ensures match StageResult(env, v.doc, v.bytes, stage)
      case Ok((doc, bytes)) => Leads(env, v, stage, Version(doc, bytes))
      case Err(e) => Complains(env, v, stage, e)
  {
    hide Apply.Apply, Serialize;
  }

  /** Chaining in memory follows the trail: to its end, or to the stage that stops it. */
  lemma {:induction false} InMemoryFollows(env: Env, v: Version, stages: seq<Stage>)
    requires ValidStages(stages)
    ensures match InMemory(env, v.doc, v.bytes, stages)
      case Ok(b) => EndsIn(env, v, stages, b)
      case Err(e) => StopsWith(env, v, stages, e)
    decreases |stages|
  {
    hide StageResult, Leads, Complains, IsTrail, EndsIn, StopsWith;
    Beginning(env, v, stages);
    if stages != [] {
      assert stages[0] in stages && forall s | s in stages[1..] :: s in stages;
      OneStage(env, v, stages[0]);
      match StageResult(env, v.doc, v.bytes, stages[0])
      case Err(e) =>
      case Ok((doc, bytes)) =>
        var next := Version(doc, bytes);
        InMemoryFollows(env, next, stages[1..]);
        match InMemory(env, doc, bytes, stages[1..])
        case Ok(b) => EndsFurther(env, v, stages, next, b);
        case Err(e) => StopsFurther(env, v, stages, next, e);
    }
  }

  lemma Beginning(env: Env, v: Version, stages: seq<Stage>)
    ensures stages == [] ==> EndsIn(env, v, stages, v.bytes)
    ensures stages != [] ==> forall e | Complains(env, v, stages[0], e) :: StopsWith(env, v, stages, e)
  {
    hide Leads, Complains;
    assert IsTrail(env, v, stages, [v]);
    forall e | stages != [] && Complains(env, v, stages[0], e) ensures StopsWith(env, v, stages, e) {
      assert Complains(env, [v][|[v]| - 1], stages[|[v]| - 1], e);
    }
  }

  lemma EndsFurther(env: Env, v: Version, stages: seq<Stage>, next: Version, b: Bytes)
    requires stages != [] && Leads(env, v, stages[0], next) && EndsIn(env, next, stages[1..], b)
    ensures EndsIn(env, v, stages, b)
  {
    hide Leads, IsTrail;
    var rest: seq<Version> :| IsTrail(env, next, stages[1..], rest) && |rest| == |stages| && rest[|stages| - 1].bytes == b;
    TrailFurther(env, v, stages, next, rest);
    assert ([v] + rest)[|stages|].bytes == b;
  }

  lemma StopsFurther(env: Env, v: Version, stages: seq<Stage>, next: Version, e: PlanError)
    requires stages != [] && Leads(env, v, stages[0], next) && StopsWith(env, next, stages[1..], e)
    ensures StopsWith(env, v, stages, e)
  {
    hide Leads, IsTrail, Complains;
    var rest: seq<Version> :| IsTrail(env, next, stages[1..], rest) && 0 < |rest| <= |stages| - 1
      && Complains(env, rest[|rest| - 1], stages[1..][|rest| - 1], e);
    TrailFurther(env, v, stages, next, rest);
    assert ([v] + rest)[|rest|] == rest[|rest| - 1];
  }

  /** A plan cannot both end and stop, and ends or stops in one way only. */
  lemma EndsOrStops(env: Env, v: Version, stages: seq<Stage>, b: Bytes, b': Bytes, e: PlanError, e': PlanError)
    ensures EndsIn(env, v, stages, b) && EndsIn(env, v, stages, b') ==> b == b'
    ensures !(EndsIn(env, v, stages, b) && StopsWith(env, v, stages, e))
    ensures StopsWith(env, v, stages, e) && StopsWith(env, v, stages, e') ==> e == e'
  {
    hide Leads, Complains, IsTrail;
    if EndsIn(env, v, stages, b) && EndsIn(env, v, stages, b') {
      var t: seq<Version> :| IsTrail(env, v, stages, t) && |t| == |stages| + 1 && t[|stages|].bytes == b;
      var t': seq<Version> :| IsTrail(env, v, stages, t') && |t'| == |stages| + 1 && t'[|stages|].bytes == b';
      TrailsAgree(env, v, stages, t, t', |stages|);
    }
    if EndsIn(env, v, stages, b) && StopsWith(env, v, stages, e) {
      var t: seq<Version> :| IsTrail(env, v, stages, t) && |t| == |stages| + 1 && t[|stages|].bytes == b;
      var t': seq<Version> :| IsTrail(env, v, stages, t') && 0 < |t'| <= |stages| && Complains(env, t'[|t'| - 1], stages[|t'| - 1], e);
      NoFurther(env, v, stages, t, t', e);
    }
    if StopsWith(env, v, stages, e) && StopsWith(env, v, stages, e') {
      var t: seq<Version> :| IsTrail(env, v, stages, t) && 0 < |t| <= |stages| && Complains(env, t[|t| - 1], stages[|t| - 1], e);
      var t': seq<Version> :| IsTrail(env, v, stages, t') && 0 < |t'| <= |stages| && Complains(env, t'[|t'| - 1], stages[|t'| - 1], e');
      NoFurther(env, v, stages, t, t', e');
      NoFurther(env, v, stages, t', t, e);
      TrailsAgree(env, v, stages, t, t', |t| - 1);
      OneComplaint(env, t[|t| - 1], stages[|t| - 1], e, e');
    }
  }

  lemma OneComplaint(env: Env, v: Version, stage: Stage, e: PlanError, e': PlanError)
    requires Complains(env, v, stage, e) && Complains(env, v, stage, e')
    ensures e == e'
  {
  }

  lemma LeadsOrComplains(env: Env, v: Version, stage: Stage, next: Version, e: PlanError)
    ensures !(Leads(env, v, stage, next) && Complains(env, v, stage, e))
  {
    hide Apply.Apply, Serialize;
  }

  /** No trail leads past a stage that complains. */
  lemma NoFurther(env: Env, v: Version, stages: seq<Stage>, t: seq<Version>, stopped: seq<Version>, e: PlanError)
    requires IsTrail(env, v, stages, t) && IsTrail(env, v, stages, stopped)
    requires 0 < |stopped| <= |stages| && Complains(env, stopped[|stopped| - 1], stages[|stopped| - 1], e)
    ensures |t| <= |stopped|
  {
    hide Leads, Complains;
    var k := |stopped| - 1;
    if k + 1 < |t| {
      TrailsAgree(env, v, stages, t, stopped, k);
      LeadsOrComplains(env, t[k], stages[k], t[k + 1], e);
    }
  }
}
