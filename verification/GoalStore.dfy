/**
 The two ways into the goal ledger. A mutation hands the current goal to a command and
 writes what comes back; every command and tool goes this way. A direct write takes any
 goal, and only it can take out a goal that is not finished.
 */
module GoalStore {
  import opened Utf
  import opened GoalText
  import opened Goals
  import opened GoalLedger

  function Existing(gs: seq<Goal>, id: Text): (r: Option<Goal>)
    ensures r.Some? ==> r.value in gs && r.value.id == id
    ensures r.None? ==> forall g | g in gs :: g.id != id
  {
    if gs == [] then None else if gs[0].id == id then Some(gs[0]) else Existing(gs[1..], id)
  }

  function Current(l: Ledger): Option<Goal> { if l.current.None? then None else Existing(l.goals, l.current.value) }

  // ---- Mutations ---------------------------------------------------------------------------

  /** The commands and tools; `Clear` is the only one that does not write a single goal. */
  datatype Mutation =
    | Start(id: Text, objective: Text, criteria: seq<NewCriterion>, proposed: bool)
    | Operate(op: Operation)
    | ClearGoal

  /** What the ledger's own byte cap allows is a parameter, as the goals' validator is. */
  type Room = Ledger -> bool

  function Saved(room: Room, l: Ledger, g: Goal): Ledger {
    match Write(l, g)
    case Some(next) => if room(next) then next else l
    case None => l
  }

  function Replaced(gs: seq<Goal>, g: Goal): (r: seq<Goal>)
    ensures |r| == |gs|
    ensures forall i | 0 <= i < |gs| :: r[i] == if gs[i].id == g.id then g else gs[i]
  {
    seq(|gs|, i requires 0 <= i < |gs| => if gs[i].id == g.id then g else gs[i])
  }

  /** The ledger after a mutation; a refused one leaves it as it was. */
  function Mutate(valid: Validator, room: Room, l: Ledger, m: Mutation): Ledger {
    var current := Current(l);
    match m
    case Start(id, objective, criteria, proposed) =>
      if current.Some? && !Terminal(current.value.status) then l
      else
        (match Create(valid, id, objective, criteria, if proposed then Proposed else Active)
         case Ok(g) => Saved(room, l, g)
         case Err(_) => l)
    case Operate(op) =>
      if current.None? then l
      else
        (match Apply(valid, current.value, op)
         case Ok(g) => Saved(room, l, g)
         case Err(_) => l)
    case ClearGoal =>
      if current.None? || current.value.status.Cancelled? then l.(current := None)
      else
        (match Move(valid, current.value, Cancelled, Ascii("goal cleared"))
         case Ok(g) => Ledger(None, Replaced(l.goals, g))
         case Err(_) => l)
  }

  function Run(valid: Validator, room: Room, ms: seq<Mutation>): Ledger {
    if ms == [] then NO_LEDGER else Mutate(valid, room, Run(valid, room, ms[..|ms| - 1]), ms[|ms| - 1])
  }

  predicate Holds(l: Ledger, id: Text) { exists g | g in l.goals :: g.id == id }

  predicate Finished(l: Ledger, id: Text) { exists g | g in l.goals :: g.id == id && Terminal(g.status) }

  lemma ApplyKeepsId(valid: Validator, g: Goal, op: Operation)
    ensures Apply(valid, g, op).Ok? ==> Apply(valid, g, op).value.id == g.id
  {
    hide Objection, Recorded, UpdateAll, Clean;
  }

  lemma OnlyWithId(l: Ledger, g: Goal)
    requires DistinctIds(l.goals) && g in l.goals
    ensures forall x | x in l.goals && x.id == g.id :: x == g
  {
  }

  /** In a valid ledger a goal that is not terminal is the one a mutation is given. */
  lemma OpenIsGiven(l: Ledger, g: Goal)
    requires ValidLedger(l) && g in l.goals && !Terminal(g.status)
    ensures Current(l) == Some(g)
  {
    OnlyWithId(l, g);
  }

  /** What a mutation is given is not terminal. */
  lemma GivenIsOpen(l: Ledger)
    requires ValidLedger(l)
    ensures Current(l).Some? <==> l.current.Some?
    ensures Current(l).Some? ==> !Terminal(Current(l).value.status)
  {
    if l.current.Some? {
      var g :| g in l.goals && g.id == l.current.value && !Terminal(g.status);
      OnlyWithId(l, g);
    }
  }

  lemma ClearedValid(l: Ledger, g: Goal)
    requires ValidLedger(l) && Current(l).Some? && g.id == Current(l).value.id && g.status.Cancelled?
    ensures ValidLedger(Ledger(None, Replaced(l.goals, g)))
  {
    hide Existing;
    var gs := Replaced(l.goals, g);
    forall x | x in gs ensures Terminal(x.status) {
      var i :| 0 <= i < |gs| && gs[i] == x;
      assert l.goals[i] in l.goals;
    }
    forall i, j | 0 <= i < j < |gs| ensures gs[i].id != gs[j].id {}
  }

  lemma MutateValid(valid: Validator, room: Room, l: Ledger, m: Mutation)
    requires ValidLedger(l)
    ensures ValidLedger(Mutate(valid, room, l, m))
  {
    hide ValidLedger, Apply, Create, Written, Current;
    GivenIsOpen(l);
    if m.ClearGoal? && Current(l).Some? {
      var moved := Move(valid, Current(l).value, Cancelled, Ascii("goal cleared"));
      if moved.Ok? { ClearedValid(l, moved.value); }
    }
  }

  lemma WrittenHasIt(l: Ledger, g: Goal)
    ensures g in Written(l, g).goals
  {
    var all := Without(l.goals, g.id) + [g];
    assert LastOnes(all)[|LastOnes(all)| - 1] == g;
  }

  /** A mutation takes no goal out of the ledger unless it is terminal. */
  lemma MutateKeepsOpen(valid: Validator, room: Room, l: Ledger, m: Mutation, x: Goal)
    requires ValidLedger(l) && x in l.goals && !Terminal(x.status)
    ensures Holds(Mutate(valid, room, l, m), x.id)
  {
    hide ValidLedger, Apply, Create, Written;
    OpenIsGiven(l, x);
    match m
    case Start(_, _, _, _) =>
    case Operate(op) =>
      ApplyKeepsId(valid, x, op);
      var next := Apply(valid, x, op);
      if next.Ok? { WrittenHasIt(l, next.value); }
    case ClearGoal =>
      var i :| 0 <= i < |l.goals| && l.goals[i] == x;
      var moved := Move(valid, x, Cancelled, Ascii("goal cleared"));
      if moved.Ok? { assert Replaced(l.goals, moved.value)[i].id == x.id; }
  }

  lemma {:induction false} RunValid(valid: Validator, room: Room, ms: seq<Mutation>)
    ensures ValidLedger(Run(valid, room, ms))
  {
    hide ValidLedger, Mutate;
    if ms == [] {
      NothingValid();
    } else {
      RunValid(valid, room, ms[..|ms| - 1]);
      MutateValid(valid, room, Run(valid, room, ms[..|ms| - 1]), ms[|ms| - 1]);
    }
  }

  lemma NothingValid()
    ensures ValidLedger(NO_LEDGER)
  {
  }

  /** Whatever commands and tools do, in any order and with any refusals, a goal goes missing
      from the ledger only after it was finished. */
  lemma {:induction false} OnlyFinishedGoalsGoMissing(valid: Validator, room: Room, before: seq<Mutation>, more: seq<Mutation>, id: Text)
    requires Holds(Run(valid, room, before), id)
    ensures Holds(Run(valid, room, before + more), id)
      || exists k :: 0 <= k <= |more| && Finished(Run(valid, room, before + more[..k]), id)
  {
    hide Run, Mutate, Finished, Holds;
    if more == [] {
      assert before + more == before;
    } else {
      var n := |more| - 1;
      var earlier := before + more[..n];
      OnlyFinishedGoalsGoMissing(valid, room, before, more[..n], id);
      if Holds(Run(valid, room, earlier), id) {
        MutationKeeps(valid, room, earlier, more[n], id);
        assert earlier + [more[n]] == before + more;
      } else {
        var k :| 0 <= k <= n && Finished(Run(valid, room, before + more[..n][..k]), id);
        assert more[..n][..k] == more[..k];
      }
    }
  }

  lemma MutationKeeps(valid: Validator, room: Room, ms: seq<Mutation>, m: Mutation, id: Text)
    requires Holds(Run(valid, room, ms), id)
    ensures Holds(Run(valid, room, ms + [m]), id) || Finished(Run(valid, room, ms), id)
  {
    hide Mutate, ValidLedger;
    assert (ms + [m])[..|ms|] == ms;
    RunValid(valid, room, ms);
    var x :| x in Run(valid, room, ms).goals && x.id == id;
    if !Terminal(x.status) { MutateKeepsOpen(valid, room, Run(valid, room, ms), m, x); }
  }

  // ---- What a valid goal is ----------------------------------------------------------------

  const MAX_CRITERIA: nat := 24

  predicate IsIdUnit(u: Unit) { 48 <= u <= 57 || 97 <= u <= 102 || u == 45 }

  predicate IsCriterionUnit(u: Unit) { 48 <= u <= 58 || 65 <= u <= 90 || 97 <= u <= 122 || u == 45 || u == 46 || u == 95 }

  const GOAL_PREFIX: Text := Ascii("goal-")

  predicate IsGoalId(t: Text) {
    GOAL_PREFIX <= t && 13 <= |t| <= 85 && forall i | 5 <= i < |t| :: IsIdUnit(t[i])
  }

  predicate IsCriterionId(t: Text) { 1 <= |t| <= 64 && forall u | u in t :: IsCriterionUnit(u) }

  predicate ShortTexts(ts: seq<Text>) { |ts| <= MAX_LIST && forall t | t in ts :: ByteLength(t) <= MAX_SHORT }

  predicate ValidCriterion(c: Criterion) {
    IsCriterionId(c.id) && c.text != [] && ByteLength(c.text) <= MAX_TEXT && ShortTexts(c.evidence)
  }

  predicate ValidBlock(b: Block) {
    && b.reason != [] && ByteLength(b.reason) <= MAX_SHORT && ShortTexts(b.evidence)
    && b.unblock != [] && ByteLength(b.unblock) <= MAX_SHORT
  }

  /** An outcome may still lack a confidence; a proposed one may not, nor may it be empty. */
  predicate ValidOutcome(o: Outcome, proposed: bool) {
    && (proposed ==> o.delivered != [] && o.evidence != [] && o.verification.Some?)
    && ByteLength(o.delivered) <= MAX_TEXT && (o.confidence.Finite? || proposed ==> InUnit(o.confidence))
    && ShortTexts(o.risks) && ShortTexts(o.evidence) && |o.deferred| <= MAX_LIST
    && forall d | d in o.deferred :: ByteLength(d.value) <= MAX_SHORT && ByteLength(d.risk) <= MAX_SHORT && ByteLength(d.rationale) <= MAX_TEXT
  }

  /** The validator's rules on what of a goal is modelled. */
  predicate ValidGoal(g: Goal) {
    && IsGoalId(g.id)
    && 1 <= |g.criteria| <= MAX_CRITERIA && (forall c | c in g.criteria :: ValidCriterion(c))
    && (forall i, j | 0 <= i < j < |g.criteria| :: g.criteria[i].id != g.criteria[j].id)
    && (g.blocked.Some? ==> ValidBlock(g.blocked.value))
    && (g.proposal.Some? ==> ValidOutcome(g.proposal.value, true)) && ValidOutcome(g.outcome, false)
    && |g.history| <= MAX_HISTORY && forall t | t in g.history :: ByteLength(t.reason) <= MAX_SHORT
  }

  // ---- Direct writes -----------------------------------------------------------------------

  /** A direct write must name the goal it replaces as the caller read it, unless it changes
      nothing; a new goal needs no more than to be valid. */
  function WriteGoal(valid: Validator, l: Ledger, g: Goal, expected: Option<Goal>): Option<Ledger> {
    var existing := Existing(l.goals, g.id);
    if expected.Some? && existing != expected then None
    else if existing.Some? && existing.value != g && expected.None? then None
    else if !valid(g) then None
    else Write(l, g)
  }

  /** New goals written one after another; nothing once a write is refused. */
  function WriteAll(valid: Validator, l: Ledger, gs: seq<Goal>): Option<Ledger> {
    if gs == [] then Some(l)
    else
      var before := WriteAll(valid, l, gs[..|gs| - 1]);
      if before.None? then None else WriteGoal(valid, before.value, gs[|gs| - 1], None)
  }

  function NumberedId(k: nat): (t: Text)
    requires k <= MAX_GOALS
    ensures |t| == 13 && t[11] == 48 + k / 10 && t[12] == 48 + k % 10
    ensures IsGoalId(t)
  {
    GOAL_PREFIX + Ascii("000000") + [48 + k / 10, 48 + k % 10]
  }

  const TASK: Criterion := Criterion(Ascii("criterion-1"), Ascii("Done"), true, Open, [])

  function Numbered(k: nat, status: Status): Goal
    requires k <= MAX_GOALS
  {
    Goal(NumberedId(k), [TASK], status, None, None, NO_OUTCOME, [])
  }

  lemma {:induction false} ShortBytes(t: Text)
    ensures ByteLength(t) <= 4 * |t|
  {
    hide BytesOf, Scalar;
    if t != [] { ShortBytes(t[FirstUnits(t)..]); }
  }

  lemma NumberedIsValid(k: nat, status: Status)
    requires k <= MAX_GOALS
    ensures ValidGoal(Numbered(k, status))
  {
    hide ByteLength;
    ShortBytes(TASK.text);
    ShortBytes([]);
  }

  /** An open goal, then cancelled ones. */
  function OneOpen(n: nat): (r: seq<Goal>)
    requires n < MAX_GOALS
    ensures |r| == n + 1
    ensures forall k | 0 <= k <= n :: r[k] == Numbered(k, if k == 0 then Active else Cancelled)
  {
    seq(n + 1, k requires 0 <= k <= n => Numbered(k, if k == 0 then Active else Cancelled))
  }

  lemma NumbersDiffer(i: nat, j: nat)
    requires i < j <= MAX_GOALS
    ensures NumberedId(i) != NumberedId(j)
  {
  }

  lemma OneOpenIsValid(n: nat)
    requires n < MAX_GOALS
    ensures ValidLedger(Ledger(Some(NumberedId(0)), OneOpen(n)))
  {
    hide NumberedId;
    var gs := OneOpen(n);
    assert gs[0] in gs;
    forall i, j | 0 <= i < j < |gs| ensures gs[i].id != gs[j].id { NumbersDiffer(i, j); }
  }

  lemma NumberIsNew(n: nat, k: nat)
    requires n < MAX_GOALS && n < k <= MAX_GOALS
    ensures forall g | g in OneOpen(n) :: g.id != NumberedId(k)
  {
    hide NumberedId;
    forall i | 0 <= i <= n ensures OneOpen(n)[i].id != NumberedId(k) { NumbersDiffer(i, k); }
  }

  lemma {:induction false} Filling(n: nat)
    requires n < MAX_GOALS
    ensures WriteAll(ValidGoal, NO_LEDGER, OneOpen(n)) == Some(Ledger(Some(NumberedId(0)), OneOpen(n)))
  {
    hide Without, LastOnes, ValidLedger, ValidGoal, NumberedId, WriteGoal;
    var gs := OneOpen(n);
    if n == 0 {
      FirstWrite();
    } else {
      Filling(n - 1);
      assert gs[..n] == OneOpen(n - 1);
      NextWrite(n);
    }
  }

  lemma FirstWrite()
    ensures WriteGoal(ValidGoal, NO_LEDGER, Numbered(0, Active), None) == Some(Ledger(Some(NumberedId(0)), OneOpen(0)))
    ensures OneOpen(0)[..0] == [] && WriteAll(ValidGoal, NO_LEDGER, []) == Some(NO_LEDGER)
  {
    hide ValidLedger, ValidGoal, NumberedId;
    OneOpenIsValid(0);
    NumberedIsValid(0, Active);
    assert [] + [Numbered(0, Active)] == OneOpen(0);
  }

  lemma NextWrite(n: nat)
    requires 0 < n < MAX_GOALS
    ensures WriteGoal(ValidGoal, Ledger(Some(NumberedId(0)), OneOpen(n - 1)), Numbered(n, Cancelled), None)
      == Some(Ledger(Some(NumberedId(0)), OneOpen(n)))
  {
    hide ValidLedger, ValidGoal, Written, Existing, NumberedId;
    OneOpenIsValid(n);
    NumberedIsValid(n, Cancelled);
    NumberIsNew(n - 1, n);
    NextWritten(n);
  }

  lemma NextWritten(n: nat)
    requires 0 < n < MAX_GOALS
    ensures Written(Ledger(Some(NumberedId(0)), OneOpen(n - 1)), Numbered(n, Cancelled)) == Ledger(Some(NumberedId(0)), OneOpen(n))
  {
    hide NumberedId, Without;
    NumberIsNew(n - 1, n);
    NumbersDiffer(0, n);
    WithoutNothing(OneOpen(n - 1), NumberedId(n));
    assert OneOpen(n - 1) + [Numbered(n, Cancelled)] == OneOpen(n);
  }

  /** From no ledger at all, 64 accepted direct writes of valid goals fill one whose oldest goal
      is still open; the next new goal is accepted, and the open goal is gone. */
  lemma OpenGoalLost() returns (full: Ledger, g: Goal, lost: Goal)
    ensures WriteAll(ValidGoal, NO_LEDGER, full.goals) == Some(full)
    ensures WriteGoal(ValidGoal, full, g, None).Some? && Loses(full, g, lost) && lost.status.Active?
  {
    hide WriteAll, Write, Loses, LastOnes, Without, ValidGoal, NumberedId;
    var n := MAX_GOALS - 1;
    full, g, lost := Ledger(Some(NumberedId(0)), OneOpen(n)), Numbered(MAX_GOALS, Active), Numbered(0, Active);
    Filling(n);
    OneOpenIsValid(n);
    NumberIsNew(n, MAX_GOALS);
    NumberedIsValid(MAX_GOALS, Active);
    assert full.goals[0] == lost;
    LossIsAccepted(full, g);
    WhatIsLost(full, g, lost);
  }
}
