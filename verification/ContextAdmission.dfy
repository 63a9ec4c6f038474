/**
 The admission extension: handlers that change its variables and the reservation
 ledger. Each takes exactly the step of the state machine.
 */
module ContextAdmission {
  import opened Basics
  import opened Utf
  import opened Reservations
  import opened Admission

  class Extension {
    const ledger: ContextReservationLedger
    var serving: Serving
    var outputAllowance: Option<int>
    var seen: Seen
    var recovery: Recovery
    var activeReservations: set<Text>
    // The accounting of the admitted request the allowance was taken from.
    ghost var admitted: Option<Accounting>

    ghost function View(): State
      reads this, ledger
    {
      State(serving, Capacity(outputAllowance, admitted), seen, recovery, Holdings(activeReservations, ledger.reservations))
    }

    constructor ()
      ensures View() == START && fresh(ledger)
    {
      ledger := new ContextReservationLedger();
      serving, outputAllowance, admitted := Serving(None, None), None, None;
      seen, recovery, activeReservations := Seen(None, 0), Recovery(None, {}), {};
    }

    method SyncEpoch(p: Option<Profile>)
      modifies this, ledger
      ensures View() == Sync(old(View()), p)
    {
      hide Only, Find, Remove;
      if p.None? {
        outputAllowance, admitted := None, None;
        serving := serving.(epoch := None);
        ledger.Reset(None);
      } else if serving.epoch != Some(p.value.epoch) {
        recovery := recovery.(pending := None);
        outputAllowance, admitted := None, None;
        seen := seen.(overflow := None);
        ledger.Reset(Some(p.value.epoch));
        activeReservations := {};
        serving := serving.(epoch := Some(p.value.epoch));
      }
    }

    method ReserveOutput(id: Text, tokens: Num) returns (r: ReservationResult)
      modifies this, ledger
      ensures (View(), r) == ReserveStep(old(View()), id, tokens)
    {
      hide Sync, Reserving;
      if serving.profile.None? { return Refused(Unavailable); }
      var p := serving.profile.value;
      SyncEpoch(Some(p));
      if p.safeInput.None? || outputAllowance.None? { return Refused(Unavailable); }
      r := ledger.Reserve(id, p.epoch, tokens, Finite(outputAllowance.value as real));
      if r.Reserved? { activeReservations := activeReservations + {id}; }
    }

    method ReleaseOutput(id: Text)
      modifies this, ledger
      ensures View() == Step(old(View()), Release(id))
    {
      hide Remove, Find;
      if id !in activeReservations { return; }
      activeReservations := activeReservations - {id};
      ledger.Release(id);
    }

    method OnSessionStart(p: Option<Profile>)
      modifies this, ledger
      ensures View() == Step(old(View()), SessionStart(p))
    {
      hide Sync;
      recovery := Recovery(None, {});
      ledger.Reset(None);
      activeReservations := {};
      seen := seen.(generation := 0);
      serving := Serving(p, None);
      SyncEpoch(p);
    }

    method OnModelSelect(p: Option<Profile>)
      modifies this, ledger
      ensures View() == Step(old(View()), ModelSelect(p))
    {
      hide Sync;
      serving := serving.(profile := p);
      SyncEpoch(p);
    }

    method OnSessionCompact()
      modifies this
      ensures View() == Step(old(View()), SessionCompact)
    {
      seen := seen.(generation := seen.generation + 1);
      outputAllowance, admitted := None, None;
    }

    /** No payload stands for one that could not be serialized. */
    method BeforeProviderRequest(enabled: bool, p: Option<Profile>, payload: Option<Payload>, u: Option<Usage>)
      returns (aborted: bool)
      modifies this, ledger
      ensures View() == Step(old(View()), Request(enabled, p, payload, u))
      ensures enabled && !aborted ==> View().capacity.admitted.Some?
    {
      hide Sync, Account, Sum, Count, Remembered, CapacityOf, Observed;
      if !enabled { return false; }
      recovery := recovery.(pending := None);
      if p.None? { return true; }
      serving := serving.(profile := p);
      SyncEpoch(p);
      if payload.None? { return true; }
      var reserved, _ := ledger.Snapshot(p.value.epoch);
      ghost var synced := View();
      var o := ObservedUsage(p.value, u);
      var a := Account(p.value, payload.value, o, seen.generation, reserved);
      assert a == AccountFor(synced, p.value, payload.value, u);
      UpdateOverflow(p.value, a, u);
      aborted := SetAllowance(a);
      if a.verdict.AggregateOver? || a.verdict.ObservedOver? {
        recovery := recovery.(pending := Some(RecoveryKey(p.value.epoch, a.digest)));
      }
    }

    method ObservedUsage(p: Profile, u: Option<Usage>) returns (o: Option<Observation>)
      ensures o == Observed(View(), p, u)
    {
      o := if Usable(u) then Some(Observation(u.value.tokens, u.value.window, p.epoch, seen.generation)) else seen.overflow;
    }

    method UpdateOverflow(p: Profile, a: Accounting, u: Option<Usage>)
      modifies this`seen
      ensures seen == Remembered(old(View()), p, a, u)
    {
      if !Usable(u) { return; }
      if a.relation.Over? && a.observed.Some? {
        var w := if a.observedWindow.Some? then a.observedWindow.value else if a.budget.window.Some? then a.budget.window.value else 0;
        seen := seen.(overflow := Some(Observation(Finite(a.observed.value as real), Some(Finite(w as real)), p.epoch, seen.generation)));
      } else if a.relation.Within? {
        seen := seen.(overflow := None);
      }
    }

    method SetAllowance(a: Accounting) returns (aborted: bool)
      modifies this`outputAllowance, this`admitted
      ensures Capacity(outputAllowance, admitted) == CapacityOf(a) && aborted == !a.verdict.Admitted?
      ensures !aborted ==> admitted.Some?
    {
      aborted := !a.verdict.Admitted?;
      outputAllowance := Some(if aborted then 0 else Max(0, a.Remaining() + a.reserved));
      admitted := if aborted then None else Some(a);
    }

    method OnAgentSettled(enabled: bool, canCompact: bool, leased: bool) returns (compacts: bool)
      modifies this, ledger
      ensures (View(), compacts) == SettleStep(old(View()), enabled, canCompact, leased)
    {
      ledger.Reset(None);
      activeReservations := {};
      if recovery.pending.None? { return false; }
      var key := recovery.pending.value;
      if key in recovery.attempted || serving.epoch != Some(key.epoch) || !enabled { return false; }
      if !canCompact || |recovery.attempted| >= MAX_ATTEMPTS { return false; }
      if !leased { return false; }
      recovery := Recovery(None, recovery.attempted + {key});
      return true;
    }

    method OnRecoveryFinished(epoch: Option<Epoch>)
      modifies this
      ensures View() == Step(old(View()), RecoveryFinished(epoch))
    {
      if epoch == serving.epoch { outputAllowance, admitted := None, None; }
    }

    method OnSessionShutdown()
      modifies this, ledger
      ensures View() == Step(old(View()), SessionShutdown)
    {
      ledger.Reset(None);
      activeReservations := {};
      serving := Serving(None, None);
    }
  }
}
