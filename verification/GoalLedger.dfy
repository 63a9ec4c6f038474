/**
 The file that holds a project's goals: at most 64, in the order they were last
 written, of which at most one is not terminal and then is the current one.
 */
module GoalLedger {
  import opened Basics
  import opened Utf
  import opened Goals

  datatype Ledger = Ledger(current: Option<Text>, goals: seq<Goal>)

  const MAX_GOALS: nat := 64

  predicate DistinctIds(gs: seq<Goal>) { forall i, j | 0 <= i < j < |gs| :: gs[i].id != gs[j].id }

  /** Every goal that can still change is the current one. */
  predicate OpenIsCurrent(l: Ledger) { forall g | g in l.goals :: !Terminal(g.status) ==> l.current == Some(g.id) }

  predicate CurrentIsOpen(l: Ledger) {
    l.current.Some? ==> exists g | g in l.goals :: g.id == l.current.value && !Terminal(g.status)
  }

  /** The validator's rules on the list of goals; identity and byte caps aside. */
  predicate ValidLedger(l: Ledger) { |l.goals| <= MAX_GOALS && DistinctIds(l.goals) && OpenIsCurrent(l) && CurrentIsOpen(l) }

  const NO_LEDGER: Ledger := Ledger(None, [])

  function Without(gs: seq<Goal>, id: Text): (r: seq<Goal>)
    ensures forall g :: g in r <==> g in gs && g.id != id
    ensures |r| <= |gs|
  {
    if gs == [] then []
    else
      var last := gs[|gs| - 1];
      var rest := Without(gs[..|gs| - 1], id);
      assert gs == gs[..|gs| - 1] + [last];
      if last.id == id then rest else rest + [last]
  }

  function LastOnes(gs: seq<Goal>): seq<Goal> { Last(gs, MAX_GOALS) }

  function Written(prior: Ledger, g: Goal): Ledger {
    var current := if Terminal(g.status) then None else Some(g.id);
    var kept := if prior.current == Some(g.id) then None else prior.current;
    Ledger(if current.Some? then current else kept, LastOnes(Without(prior.goals, g.id) + [g]))
  }

  function Write(prior: Ledger, g: Goal): Option<Ledger> {
    var l := Written(prior, g);
    if ValidLedger(l) then Some(l) else None
  }

  /** The goals a write takes out of the ledger without replacing them. */
  predicate Loses(prior: Ledger, g: Goal, lost: Goal) {
    lost in prior.goals && lost.id != g.id && lost !in Written(prior, g).goals
  }

  lemma {:induction false} WithoutNothing(gs: seq<Goal>, id: Text)
    requires forall g | g in gs :: g.id != id
    ensures Without(gs, id) == gs
  {
    if gs != [] {
      WithoutNothing(gs[..|gs| - 1], id);
      assert gs == gs[..|gs| - 1] + [gs[|gs| - 1]];
      assert gs[|gs| - 1] in gs;
    }
  }

  lemma {:induction false} WithoutOne(gs: seq<Goal>, id: Text)
    requires exists g | g in gs :: g.id == id
    ensures |Without(gs, id)| < |gs|
  {
    if gs[|gs| - 1].id != id {
      var g :| g in gs && g.id == id;
      assert gs == gs[..|gs| - 1] + [gs[|gs| - 1]];
      assert g in gs[..|gs| - 1];
      WithoutOne(gs[..|gs| - 1], id);
    }
  }

  predicate IsNew(prior: Ledger, g: Goal) { forall x | x in prior.goals :: x.id != g.id }

  /** A write takes out the oldest goal, and only when the ledger is full and the goal is new. */
  lemma WhatIsLost(prior: Ledger, g: Goal, lost: Goal)
    requires |prior.goals| <= 64 && DistinctIds(prior.goals)
    ensures Loses(prior, g, lost) <==> IsNew(prior, g) && |prior.goals| == 64 && lost == prior.goals[0]
  {
    var kept := Without(prior.goals, g.id);
    if IsNew(prior, g) {
      WithoutNothing(prior.goals, g.id);
      var all := prior.goals + [g];
      if |prior.goals| == MAX_GOALS {
        assert LastOnes(all) == prior.goals[1..] + [g];
        assert prior.goals == [prior.goals[0]] + prior.goals[1..];
        assert prior.goals[0] in prior.goals;
      }
    } else {
      WithoutOne(prior.goals, g.id);
      assert LastOnes(kept + [g]) == kept + [g];
    }
  }

  /** Writing the current goal, or any goal while none is current, loses only terminal goals. */
  lemma OrdinaryWritesLoseOnlyTerminalGoals(prior: Ledger, g: Goal, lost: Goal)
    requires ValidLedger(prior) && (prior.current.None? || prior.current == Some(g.id))
    requires Loses(prior, g, lost)
    ensures Terminal(lost.status)
  {
    WhatIsLost(prior, g, lost);
  }

  /** Exactly when an accepted write loses a goal that is not finished: a new unfinished goal
      is written to a full ledger whose oldest entry is the current goal. */
  lemma UnfinishedGoalLostExactly(prior: Ledger, g: Goal)
    requires ValidLedger(prior)
    ensures (Write(prior, g).Some? && exists lost :: Loses(prior, g, lost) && !Terminal(lost.status)) <==>
      (!Terminal(g.status) && IsNew(prior, g) && |prior.goals| == 64 && prior.current == Some(prior.goals[0].id))
  {
    hide Without, LastOnes;
    if Write(prior, g).Some? && exists lost :: Loses(prior, g, lost) && !Terminal(lost.status) {
      var lost :| Loses(prior, g, lost) && !Terminal(lost.status);
      WhatIsLost(prior, g, lost);
      CurrentGone(prior, g);
    }
    if !Terminal(g.status) && IsNew(prior, g) && |prior.goals| == MAX_GOALS && prior.current == Some(prior.goals[0].id) {
      OldestIsOpen(prior);
      WhatIsLost(prior, g, prior.goals[0]);
      LossIsAccepted(prior, g);
    }
  }

  lemma OldestIsOpen(prior: Ledger)
    requires ValidLedger(prior) && prior.goals != [] && prior.current == Some(prior.goals[0].id)
    ensures !Terminal(prior.goals[0].status)
  {
    var g :| g in prior.goals && g.id == prior.current.value && !Terminal(g.status);
    var i :| 0 <= i < |prior.goals| && prior.goals[i] == g;
  }

  lemma NewInFull(prior: Ledger, g: Goal)
    requires IsNew(prior, g) && |prior.goals| == MAX_GOALS
    ensures Written(prior, g).goals == prior.goals[1..] + [g]
  {
    WithoutNothing(prior.goals, g.id);
  }

  lemma CurrentGone(prior: Ledger, g: Goal)
    requires ValidLedger(prior) && IsNew(prior, g) && |prior.goals| == MAX_GOALS && prior.current == Some(prior.goals[0].id)
    requires Write(prior, g).Some?
    ensures !Terminal(g.status)
  {
    NewInFull(prior, g);
    hide Without, LastOnes;
    assert prior.goals[0] in prior.goals;
    forall x | x in prior.goals[1..] ensures x.id != prior.goals[0].id {
      var i :| 0 <= i < |prior.goals[1..]| && prior.goals[1..][i] == x;
      assert prior.goals[i + 1] == x;
    }
  }

  lemma LossIsAccepted(prior: Ledger, g: Goal)
    requires ValidLedger(prior) && IsNew(prior, g) && |prior.goals| == MAX_GOALS && prior.current == Some(prior.goals[0].id)
    requires !Terminal(g.status)
    ensures Write(prior, g).Some?
  {
    NewInFull(prior, g);
    hide Without, LastOnes;
    var l := Written(prior, g);
    assert prior.goals == [prior.goals[0]] + prior.goals[1..];
    forall x | x in l.goals ensures !Terminal(x.status) ==> l.current == Some(x.id) {
      if x != g {
        assert x in prior.goals[1..];
        var i :| 0 <= i < |prior.goals[1..]| && prior.goals[1..][i] == x;
        assert prior.goals[i + 1] == x && x in prior.goals;
      }
    }
    assert g in l.goals;
    forall i, j | 0 <= i < j < |l.goals| ensures l.goals[i].id != l.goals[j].id {
      if j == |l.goals| - 1 { assert prior.goals[i + 1] in prior.goals; }
    }
  }
}
