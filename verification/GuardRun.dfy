// One run of the guard process: baseline, publication, waiting for the signal
// to clean up, and the restore at the end.
module GuardRun {
  import opened Wrappers
  import opened CommandRegistry
  import opened OwnershipLedger
  import opened RegistryGuard

  datatype Status = BaselineReady | PublishedReady | Failed | Restored

  datatype RunEvent = StatusWritten(status: Status) | RestoreCalled | RestoreReturned(ok: bool)

  // What the run meets: the ledger at each read, the clean-up signal at each look (nothing if the look itself
  // fails), which status writes fail, which pauses are interrupted, and after how many looks each deadline has
  // passed.
  datatype Surroundings = Surroundings(
    ledger: nat -> Ledger, cleanup: nat -> Option<bool>, writeFails: nat -> bool, interrupted: nat -> bool,
    publishPolls: nat, lifetimePolls: nat)

  ghost predicate NoRestoreIn(events: seq<RunEvent>) {
    forall i :: 0 <= i < |events| ==> events[i].StatusWritten? && events[i].status != Restored
  }

  // Either the baseline was never captured and nothing was restored, or restore was called once, at the end,
  // and "restored" follows only its successful return.
  ghost predicate GoodEvents(events: seq<RunEvent>, captured: bool, success: bool) {
    if !captured then NoRestoreIn(events) && !success
    else
      exists before, ok, after ::
        && events == before + [RestoreCalled, RestoreReturned(ok)] + after
        && NoRestoreIn(before)
        && after <= (if ok then [StatusWritten(Restored)] else [StatusWritten(Failed)])
        && (success ==> ok && after == [StatusWritten(Restored)])
  }

  ghost predicate EndsRestored(events: seq<RunEvent>) {
    events != [] && events[|events| - 1] == StatusWritten(Restored)
  }

  class Run {
    const guard: Guard
    const around: Surroundings
    var ledgerReads: nat
    var looks: nat
    var writes: nat
    var pauses: nat
    ghost var events: seq<RunEvent>
    // for each status that was to be written, whether it was true at that moment
    ghost var claims: seq<bool>
    // whether a look at the registries broke unexpectedly
    ghost var lookBroke: bool

    constructor (guard: Guard, around: Surroundings)
      ensures this.guard == guard && this.around == around && events == [] && claims == []
      ensures looks == 0 && pauses == 0 && !lookBroke
    {
      this.guard, this.around, lookBroke := guard, around, false;
      ledgerReads, looks, writes, pauses := 0, 0, 0, 0;
      events, claims := [], [];
    }

    // What a status says of the guard at this moment.
    ghost predicate Says(status: Status)
      reads this, guard, guard.api
    {
      match status
      case BaselineReady => Captures(guard.api.log, guard.tracked, guard.baselineGuild, guard.baselineGlobal)
      case PublishedReady => guard.LooksPublished()
      case Failed => true
      case Restored => events != [] && events[|events| - 1] == RestoreReturned(true)
    }

    ghost predicate AllTrue()
      reads this`claims
    {
      forall i :: 0 <= i < |claims| ==> claims[i]
    }

    method WriteStatus(status: Status) returns (ok: bool)
      modifies this`events, this`claims, this`writes
      ensures events == if ok then old(events) + [StatusWritten(status)] else old(events)
      ensures claims == old(claims) + [old(Says(status))]
      ensures ok == !around.writeFails(old(writes))
    {
      ok := !around.writeFails(writes);
      writes := writes + 1;
      claims := claims + [Says(status)];
      if ok {
        events := events + [StatusWritten(status)];
      }
    }

    // The clean-up signal was seen.
    ghost predicate Signalled()
      reads this`looks
    {
      exists n :: 0 <= n < looks && around.cleanup(n) == Some(true)
    }

    // A look for the signal failed, a pause was interrupted or a look at the registries broke.
    ghost predicate Disturbed()
      reads this`looks, this`pauses, this`lookBroke
    {
      || (exists n :: 0 <= n < looks && around.cleanup(n) == None)
      || (exists n :: 0 <= n < pauses && around.interrupted(n))
      || lookBroke
    }

    method CleanupRequested() returns (yes: Option<bool>)
      modifies this`looks
      ensures looks == old(looks) + 1 && yes == around.cleanup(old(looks))
      ensures Signalled() <==> old(Signalled()) || yes == Some(true)
      ensures Disturbed() <==> old(Disturbed()) || yes == None
    {
      yes := around.cleanup(looks);
      looks := looks + 1;
    }

    method Pause() returns (interrupted: bool)
      modifies this`pauses
      ensures pauses == old(pauses) + 1 && interrupted == around.interrupted(old(pauses))
      ensures Disturbed() <==> old(Disturbed()) || interrupted
    {
      interrupted := around.interrupted(pauses);
      pauses := pauses + 1;
    }

    // Nothing has been deleted since `base`, and no restore has begun.
    ghost predicate OnlyWatching(base: seq<Call>)
      reads this, guard.api
    {
      && base <= guard.api.log
      && (forall i :: |base| <= i < |guard.api.log| ==> !guard.api.log[i].Delete?)
      && NoRestoreIn(events) && AllTrue()
    }

    // Baseline and publication; the failure that ended it early, if any.
    method Publish() returns (failure: Option<Failure>)
      requires OnlyWatching(guard.api.log) && !guard.baselineCaptured
      modifies this, guard, guard.api
      ensures OnlyWatching(old(guard.api.log))
      ensures guard.baselineCaptured || failure.Some?
      ensures failure == None ==> guard.postManaged != [] || Signalled()
    {
      var captured := guard.CaptureBaseline(around.ledger(ledgerReads));
      ledgerReads := ledgerReads + 1;
      if captured.Failure? {
        return Some(captured.error);
      }
      var wrote := WriteStatus(BaselineReady);
      if !wrote {
        return Some(Unexpected);
      }
      failure := WaitForPublication();
    }

    // One look at the publication.
    method LookOnce(ghost base: seq<Call>) returns (published: Result<bool, Failure>)
      requires OnlyWatching(base)
      modifies this`ledgerReads, this`lookBroke, guard.api,
               guard`tracked, guard`currentOwned, guard`recoveryRequired, guard`postManaged
      ensures OnlyWatching(base)
      ensures published == Success(true) ==> guard.LooksPublished()
      ensures published != Success(true) ==> guard.postManaged == old(guard.postManaged)
      ensures lookBroke <==> old(lookBroke) || published == Failure(Unexpected)
    {
      published := guard.CapturePublished(around.ledger(ledgerReads));
      ledgerReads := ledgerReads + 1;
      lookBroke := lookBroke || published == Failure(Unexpected);
    }

    // Watching until everything is published, the clean-up signal or the deadline.
    method WaitForPublication() returns (failure: Option<Failure>)
      requires OnlyWatching(guard.api.log) && guard.baselineCaptured
      modifies this, guard, guard.api
      ensures OnlyWatching(old(guard.api.log)) && guard.baselineCaptured
      ensures failure == None ==> guard.postManaged != [] || Signalled()
    {
      ghost var base := guard.api.log;
      var polls := 0;
      while guard.postManaged == []
        invariant OnlyWatching(base) && guard.baselineCaptured && polls <= around.publishPolls
        decreases around.publishPolls - polls
      {
        var published := LookOnce(base);
        if published.Failure? {
          return Some(published.error);
        }
        if published.value {
          var wrote := WriteStatus(PublishedReady);
          return if wrote then None else Some(Unexpected);
        }
        var cleanup := CleanupRequested();
        if cleanup == None {
          return Some(Unexpected);
        }
        if cleanup.value {
          return None;
        }
        if polls >= around.publishPolls {
          return Some(PublishTimeout);
        }
        var interrupted := Pause();
        if interrupted {
          return Some(Unexpected);
        }
        polls := polls + 1;
      }
      return None;
    }

    // Watching until the clean-up signal or the end of the lifetime.
    method WaitForCleanup(failed: bool) returns (interrupted: bool)
      requires OnlyWatching(guard.api.log) && guard.baselineCaptured
      modifies this, guard, guard.api
      ensures OnlyWatching(old(guard.api.log)) && guard.baselineCaptured
      ensures if interrupted then Disturbed() else Signalled() || pauses >= old(pauses) + around.lifetimePolls
      ensures old(guard.postManaged) != [] ==> guard.postManaged != []
      ensures old(Signalled()) ==> Signalled()
    {
      ghost var base := guard.api.log;
      var polls, validationFailed := 0, failed;
      while true
        invariant OnlyWatching(base) && guard.baselineCaptured && polls <= around.lifetimePolls
        invariant pauses == old(pauses) + polls && (old(Signalled()) ==> Signalled())
        invariant old(guard.postManaged) != [] ==> guard.postManaged != []
        decreases around.lifetimePolls - polls
      {
        var cleanup := CleanupRequested();
        if cleanup == None {
          return true;
        }
        if cleanup.value {
          return false;
        }
        if polls >= around.lifetimePolls {
          if !validationFailed {
            var wrote := WriteStatus(Failed);
          }
          return false;
        }
        interrupted, validationFailed := Watch(validationFailed, base);
        if interrupted {
          return true;
        }
        polls := polls + 1;
      }
    }

    // One look at the publication meanwhile, and a pause; the guard's own failures are only noted.
    method Watch(failed: bool, ghost base: seq<Call>) returns (interrupted: bool, validationFailed: bool)
      requires OnlyWatching(base)
      modifies this`ledgerReads, this`lookBroke, this`pauses, guard.api,
               guard`tracked, guard`currentOwned, guard`recoveryRequired, guard`postManaged
      ensures OnlyWatching(base) && pauses <= old(pauses) + 1
      ensures interrupted ==> Disturbed()
      ensures !interrupted ==> pauses == old(pauses) + 1
      ensures old(guard.postManaged) != [] ==> guard.postManaged != []
    {
      var published := LookOnce(base);
      validationFailed := failed || published.Failure?;
      if published == Failure(Unexpected) {
        return true, validationFailed;
      }
      interrupted := Pause();
    }

    method RestoreOnce() returns (restored: Result<(), Failure>)
      modifies this`ledgerReads, this`events, guard`tracked, guard`currentOwned, guard`recoveryRequired, guard.api
      ensures old(guard.api.log) <= guard.api.log
      ensures Clean(guard.api.log, |old(guard.api.log)|, guard.tracked, guard.tracked.Keys)
      ensures events == old(events) + [RestoreCalled, RestoreReturned(restored.Success?)]
      ensures restored.Success? ==> EndsAtBaseline(guard.api.log, guard.baselineGuild, guard.baselineGlobal)
      ensures Quiet(guard.api.world) && Orderly(old(guard.api.guild), guard.tracked) ==>
                around.ledger(old(ledgerReads)).Unforeseen? || NoneOwned(guard.api.guild, guard.tracked)
    {
      ghost var guild := guard.api.guild;
      events := events + [RestoreCalled];
      restored := guard.Restore(around.ledger(ledgerReads));
      ledgerReads := ledgerReads + 1;
      events := events + [RestoreReturned(restored.Success?)];
      if Orderly(guild, guard.tracked) {
        OwnedAreGone(guild, guard.tracked);
      }
    }

    // The restore at the end and the status that reports it.
    method RestoreAndReport() returns (failure: Option<Failure>)
      requires OnlyWatching(guard.api.log) && guard.baselineCaptured
      modifies this, guard`tracked, guard`currentOwned, guard`recoveryRequired, guard.api
      ensures looks == old(looks) && pauses == old(pauses) && lookBroke == old(lookBroke)
      ensures old(guard.api.log) <= guard.api.log
      ensures Clean(guard.api.log, |old(guard.api.log)|, guard.tracked, guard.tracked.Keys)
      ensures GoodEvents(events, true, failure == None) && guard.baselineCaptured && AllTrue()
      ensures !around.writeFails(old(writes)) ==> events != [] && events[|events| - 1].StatusWritten?
      ensures failure == None <==> EndsRestored(events)
      ensures failure == None ==> EndsAtBaseline(guard.api.log, guard.baselineGuild, guard.baselineGlobal)
      ensures Quiet(guard.api.world) && Orderly(old(guard.api.guild), guard.tracked) ==>
                around.ledger(old(ledgerReads)).Unforeseen? || NoneOwned(guard.api.guild, guard.tracked)
      ensures failure == None ==> guard.baselineGuild == old(guard.baselineGuild)
    {
      ghost var before := events;
      var restored := RestoreOnce();
      var wrote := WriteStatus(if restored.Success? then Restored else Failed);
      EventsAreGood(before, restored.Success?, wrote);
      assert events == AfterRestore(before, restored.Success?, wrote);
      return if restored.Failure? then Some(restored.error) else if wrote then None else Some(Unexpected);
    }

    // Whatever others do to the registries, whatever fails, and wherever the run is interrupted: nothing is deleted
    // before the restore, each delete in it is safe and the only one of its id, and the restore happens exactly
    // once if the baseline was captured and not at all otherwise. After a reported restore only an unexpected first
    // failure, which an interruption is too, is still passed on; the guard's own failures are not.
    method Execute() returns (r: Result<(), Failure>, ghost first: Option<Failure>)
      requires !guard.baselineCaptured && guard.postManaged == [] && events == [] && claims == []
      modifies this, guard, guard.api
      ensures old(guard.api.log) <= guard.api.log
      ensures Clean(guard.api.log, |old(guard.api.log)|, guard.tracked, guard.tracked.Keys)
      ensures GoodEvents(events, guard.baselineCaptured, r.Success?)
      ensures AllTrue()
      ensures (forall n :: !around.writeFails(n)) ==> events != [] && events[|events| - 1].StatusWritten?
      ensures guard.baselineCaptured ==> (r.Success? <==> EndsRestored(events) && first != Some(Unexpected))
      ensures !guard.baselineCaptured ==> first.Some? && r == Failure(first.value)
      ensures EndsRestored(events) ==> EndsAtBaseline(guard.api.log, guard.baselineGuild, guard.baselineGlobal)
      // without a failure something was published or the signal came, and nothing is restored before its time
      ensures first == None ==> guard.postManaged != [] || Signalled()
      ensures guard.baselineCaptured ==> Signalled() || Disturbed() || pauses >= around.lifetimePolls
    {
      ghost var base := guard.api.log;
      var failure := Publish();
      first := failure;
      if failure.Some? {
        var wrote := WriteStatus(Failed);
        if !guard.baselineCaptured {
          return Failure(failure.value), first;
        }
      }
      var interrupted := WaitForCleanup(failure.Some?);
      if failure == None && interrupted {
        failure := Some(Unexpected);
      }
      first := failure;
      ghost var watched := guard.api.log;
      var restoreFailure := RestoreAndReport();
      CleanFrom(watched, guard.api.log, |base|, guard.tracked, guard.tracked.Keys, guard.tracked.Keys);
      if restoreFailure.Some? {
        return Failure(restoreFailure.value), first;
      }
      if failure == Some(Unexpected) {
        FailedAfterAll(events);
        return Failure(Unexpected), first;
      }
      return Success(()), first;
    }
  }

  // The events of a run up to its end: the restore and, if it could be written, the status that reports it.
  function AfterRestore(before: seq<RunEvent>, ok: bool, wrote: bool): seq<RunEvent> {
    before + [RestoreCalled, RestoreReturned(ok)]
      + (if wrote then [StatusWritten(if ok then Restored else Failed)] else [])
  }

  lemma EventsAreGood(before: seq<RunEvent>, ok: bool, wrote: bool)
    requires NoRestoreIn(before)
    ensures GoodEvents(AfterRestore(before, ok, wrote), true, ok && wrote)
    ensures EndsRestored(AfterRestore(before, ok, wrote)) <==> ok && wrote
  {
    var after := if wrote then [StatusWritten(if ok then Restored else Failed)] else [];
    assert AfterRestore(before, ok, wrote) == before + [RestoreCalled, RestoreReturned(ok)] + after;
  }

  lemma FailedAfterAll(events: seq<RunEvent>)
    requires GoodEvents(events, true, true)
    ensures GoodEvents(events, true, false)
  {
  }
}
