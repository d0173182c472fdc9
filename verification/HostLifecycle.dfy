// Starting Docker for a measurement on a shared host and putting the host back
// as it was: Docker's state, and the graphics card idle as before.
module HostLifecycle {
  import opened Wrappers
  import opened HostAnswers
  import opened HostReadings

  // ---------- the host ----------

  class Host {
    var step: nat
    ghost var log: seq<Command>
    const world: World

    method DockerStateNow() returns (r: Option<DockerState>)
      modifies this
      ensures log == old(log) + [Probe(r)] && r == world.docker(old(step)) && step == old(step) + 1
    {
      r := world.docker(step);
      step := step + 1;
      log := log + [Probe(r)];
    }

    method GpuReading() returns (r: Option<Reading>)
      modifies this
      ensures log == old(log) + [Gpu(r)] && r == ReadingAt(world, old(step)) && step == old(step) + 1
      ensures r.Some? ==> r.value.Plausible()
    {
      r := world.gpu(step);
      if r.Some? && !r.value.Plausible() {
        r := None;
      }
      step := step + 1;
      log := log + [Gpu(r)];
    }

    method RunningContainers() returns (r: Option<nat>)
      modifies this
      ensures log == old(log) + [Containers(r)] && r == world.containers(old(step)) && step == old(step) + 1
    {
      r := world.containers(step);
      step := step + 1;
      log := log + [Containers(r)];
    }

    method StartDesktop() returns (ok: bool)
      modifies this
      ensures log == old(log) + [Start(ok)] && ok == world.startOk(old(step)) && step == old(step) + 1
    {
      ok := world.startOk(step);
      step := step + 1;
      log := log + [Start(ok)];
    }

    method StopDesktop() returns (ok: bool)
      modifies this
      ensures log == old(log) + [Stop(ok)] && ok == world.stopOk(old(step)) && step == old(step) + 1
    {
      ok := world.stopOk(step);
      step := step + 1;
      log := log + [Stop(ok)];
    }
  }

  // ---------- what the commands may be ----------

  // A part of the log that only looks.
  ghost predicate OnlyLooks(log: seq<Command>, from: nat) {
    forall i :: from <= i < |log| ==> !log[i].Start? && !log[i].Stop?
  }

  // Docker is started at most once, right after three agreeing readings were taken as the baseline.
  ghost predicate StartsSafely(log: seq<Command>, initial: Option<bool>, baseline: Option<Baseline>, attempted: bool) {
    && (forall i :: 0 <= i < |log| && log[i].Start? ==>
          attempted && initial == Some(false) && baseline.Some? && BaselineSeen(log[..i], baseline.value))
    && (forall i, j :: 0 <= i < j < |log| ==> !(log[i].Start? && log[j].Start?))
    && (attempted ==> exists i :: 0 <= i < |log| && log[i].Start?)
  }

  // Docker is stopped only on a host where it was off and this guard has tried to start it, and each time
  // directly after a listing that shows no container.
  ghost predicate StopsSafely(log: seq<Command>, initial: Option<bool>) {
    forall i :: 0 <= i < |log| && log[i].Stop? ==>
      && initial == Some(false)
      && i > 0 && log[i - 1] == Containers(Some(0))
      && exists j :: 0 <= j < i && log[j].Start?
  }

  // A Stop is among the commands from place `from` on.
  ghost predicate StopSent(log: seq<Command>, from: nat) {
    exists i :: from <= i < |log| && log[i].Stop?
  }

  lemma LooksSendNoStop(before: seq<Command>, log: seq<Command>, from: nat)
    requires from <= |before| && before <= log && OnlyLooks(log, |before|)
    ensures StopSent(log, from) <==> StopSent(before, from)
  {
    if i :| from <= i < |before| && before[i].Stop? {
      assert log[i].Stop?;
    }
    if i :| from <= i < |log| && log[i].Stop? {
      assert before[i].Stop?;
    }
  }

  lemma OneLookMore(before: seq<Command>, log: seq<Command>, from: nat)
    requires |log| == |before| + 1 && before <= log && OnlyLooks(log, |before|) && from <= |before|
    ensures log[..|log| - 1] == before && (StopSent(log, from) <==> StopSent(before, from))
  {
    LooksSendNoStop(before, log, from);
  }

  lemma StopCountsLater(before: seq<Command>, log: seq<Command>, from: nat)
    requires from <= |before| && before <= log && OnlyLooks(before, from)
    ensures StopSent(log, from) <==> StopSent(log, |before|)
  {
    assert forall j :: from <= j < |before| ==> log[j] == before[j];
  }

  // The last command is the one that a restore failed at.
  predicate Shows(log: seq<Command>, f: Failure, initial: Option<bool>) {
    && log != []
    && var last := log[|log| - 1];
       match f
       case ProbeFailed => last.Probe? && !Stable(last.state)
       case StateChanged => last.Probe? && last.state.Some? && last.state != Some(DockerAs(initial == Some(true)))
       case StartTimeout => last.Probe? && last.state.Some? && last.state != Some(Running)
       case StopTimeout => last.Probe? && last.state.Some? && last.state != Some(Stopped)
       case TelemetryFailed => last == Gpu(None)
       case RestoreTimeout => last.Gpu? && last.reading.Some?
       case ListingFailed => last == Containers(None)
       case NotEmpty => last.Containers? && last.count.Some? && last.count.value != 0
       case StopFailed => last == Stop(false)
       case _ => false
  }

  // Whether Docker was seen to run, if the answer is a stable state.
  function SeenRunning(c: Command): Option<bool> {
    if c.Probe? && Stable(c.state) then Some(c.state == Some(Running)) else None
  }

  // The end of a clean run: three readings that match the baseline, Docker found as it was at first,
  // and no container if it runs.
  ghost predicate EndsClean(log: seq<Command>, initial: bool, baseline: Baseline, readings: seq<Reading>) {
    if initial then
      && |log| >= 2 && log[|log| - 1] == Containers(Some(0)) && log[|log| - 2] == Probe(Some(Running))
      && RestoredSeen(log[..|log| - 2], baseline, readings)
    else
      && |log| >= 1 && log[|log| - 1] == Probe(Some(Stopped))
      && RestoredSeen(log[..|log| - 1], baseline, readings)
  }

  lemma LookingStaysSafe(before: seq<Command>, log: seq<Command>, initial: Option<bool>, baseline: Option<Baseline>,
                         attempted: bool)
    requires before <= log && OnlyLooks(log, |before|)
    requires StartsSafely(before, initial, baseline, attempted) && StopsSafely(before, initial)
    ensures StartsSafely(log, initial, baseline, attempted) && StopsSafely(log, initial)
  {
    forall i | 0 <= i < |log| && log[i].Start?
      ensures attempted && initial == Some(false) && baseline.Some? && BaselineSeen(log[..i], baseline.value)
    {
      assert before[i].Start? && log[..i] == before[..i];
    }
    if attempted {
      var i :| 0 <= i < |before| && before[i].Start?;
      assert log[i].Start?;
    }
    forall i | 0 <= i < |log| && log[i].Stop?
      ensures initial == Some(false) && i > 0 && log[i - 1] == Containers(Some(0))
              && exists j :: 0 <= j < i && log[j].Start?
    {
      assert before[i].Stop?;
      var j :| 0 <= j < i && before[j].Start?;
      assert log[j].Start?;
    }
  }

  lemma StopStaysSafe(log: seq<Command>, ok: bool, initial: Option<bool>, baseline: Option<Baseline>)
    requires StartsSafely(log, initial, baseline, true) && StopsSafely(log, initial)
    requires initial == Some(false) && log != [] && log[|log| - 1] == Containers(Some(0))
    ensures StartsSafely(log + [Stop(ok)], initial, baseline, true) && StopsSafely(log + [Stop(ok)], initial)
  {
    var more := log + [Stop(ok)];
    var s :| 0 <= s < |log| && log[s].Start?;
    assert more[s].Start?;
    forall i | 0 <= i < |more| && more[i].Start?
      ensures BaselineSeen(more[..i], baseline.value)
    {
      assert log[i].Start? && more[..i] == log[..i];
    }
    forall i | 0 <= i < |more| && more[i].Stop?
      ensures i > 0 && more[i - 1] == Containers(Some(0)) && exists j :: 0 <= j < i && more[j].Start?
    {
      if i < |log| {
        var j :| 0 <= j < i && log[j].Start?;
        assert more[j].Start?;
      }
    }
  }

  lemma StartStaysSafe(log: seq<Command>, ok: bool, baseline: Baseline)
    requires StartsSafely(log, Some(false), Some(baseline), false) && StopsSafely(log, Some(false))
    requires BaselineSeen(log, baseline)
    ensures var more := log + [Start(ok)];
            StartsSafely(more, Some(false), Some(baseline), true) && StopsSafely(more, Some(false))
  {
    var more := log + [Start(ok)];
    assert more[..|log|] == log && more[|log|].Start?;
    assert forall i :: 0 <= i < |log| ==> !log[i].Start?;
    assert forall i :: 0 <= i < |log| ==> !log[i].Stop?;
  }

  // ---------- the guard ----------

  datatype Evidence = Evidence(
    dockerInitial: bool, dockerFinal: bool, startedByRun: bool, model: nat,
    baselineFree: real, postFreeMin: real, total: real, maxUtilization: real,
    stableObservations: nat, runningContainers: nat)

  datatype RestoreReport = RestoreReport(clean: bool, code: Option<Failure>, finalRunning: Option<bool>,
                                         gpuRestored: bool)

  // Evidence of a host that is as it was: Docker's state, the card below its limits, and no container.
  predicate IsClean(e: Evidence, initial: bool, b: Baseline, started: bool) {
    && e.dockerInitial == initial && e.dockerFinal == initial
    && e.startedByRun == started && e.model == b.model && e.baselineFree == b.free && e.total == b.total
    && e.maxUtilization <= 10.0 && e.stableObservations == 3 && e.runningContainers == 0
  }

  function CleanEvidence(initial: bool, b: Baseline, started: bool, post: seq<Reading>): Evidence
    requires |post| == OBSERVATIONS
  {
    Evidence(initial, initial, started, b.model, b.free, Min(post[0].free, Min(post[1].free, post[2].free)), b.total,
             Max(post[0].utilization, Max(post[1].utilization, post[2].utilization)), |post|, 0)
  }

  // The evidence is what the last commands show.
  ghost predicate IsShown(e: Evidence, log: seq<Command>, initial: bool, b: Baseline, started: bool) {
    && IsClean(e, initial, b, started)
    && exists post :: EndsClean(log, initial, b, post) && e == CleanEvidence(initial, b, started, post)
  }

  // The finish begun with command `s`: the evidence is what the last commands show, a failure is what the last one
  // shows, and Docker is told to stop exactly if it was off at first and runs with nothing in it.
  ghost predicate Finished(w: World, s: nat, before: seq<Command>, log: seq<Command>, initial: bool, b: Baseline,
                           started: bool, r: Result<Evidence, Failure>)
  {
    && (r.Success? <==> FinishesWell(w, s, initial, b))
    && (StopSent(log, |before|) <==> StopsAtFinish(w, s, initial))
    && match r
       case Success(e) => IsShown(e, log, initial, b, started)
       case Failure(f) =>
         && FinishAt(w, s, initial, b).result == Failure(f)
         && (Shows(log, f, Some(initial)) || (f == StateChanged && log == before + [Probe(Some(Stopped))]))
  }

  // A restore after a failure, begun with command `s`: a clean report means a clean end; any other names the failure
  // that undoing and checking came to, which the last command before the closing look shows.
  ghost predicate Reports(w: World, s: nat, log: seq<Command>, initial: bool, b: Baseline, attempted: bool,
                          report: RestoreReport)
  {
    match TriedAt(w, s, initial, attempted, b).result
    case Success(readings) =>
      report == RestoreReport(true, None, Some(initial), true) && EndsClean(log, initial, b, readings)
    case Failure(f) =>
      && report == RestoreReport(false, Some(f), report.finalRunning, false)
      && |log| >= 2 && Shows(log[..|log| - 1], f, Some(initial))
      && SeenRunning(log[|log| - 1]) == report.finalRunning
  }

  class Lifecycle {
    const host: Host
    var initialRunning: Option<bool>
    var baseline: Option<Baseline>
    var prepared: bool
    var startAttempted: bool
    var startedByGuard: bool
    var stopAttempted: bool
    var stoppedByGuard: bool
    var finalEvidence: Option<Evidence>

    // Kept by every method whatever the host answers: the log of all commands is safe, and the flags
    // say which of them have been sent.
    ghost predicate Valid()
      reads this`initialRunning, this`baseline, this`prepared, this`startAttempted, this`startedByGuard,
            this`finalEvidence, host`log
    {
      && StartsSafely(host.log, initialRunning, baseline, startAttempted)
      && StopsSafely(host.log, initialRunning)
      && (baseline.Some? ==> initialRunning.Some? && BaselineWasSeen(host.log, baseline.value))
      && (prepared ==> baseline.Some?)
      && (startAttempted ==> prepared)
      && (prepared && initialRunning == Some(false) ==> startAttempted)
      && (finalEvidence.Some? ==> prepared && EvidenceIsClean(finalEvidence.value))
    }

    predicate EvidenceIsClean(e: Evidence)
      reads this`initialRunning, this`baseline, this`startedByGuard
    {
      initialRunning.Some? && baseline.Some? && IsClean(e, initialRunning.value, baseline.value, startedByGuard)
    }

    // The command log has grown, and the part of the state that decides what may be sent is the same.
    twostate predicate OnlyLooked()
      reads this, host
    {
      && old(host.log) <= host.log && OnlyLooks(host.log, |old(host.log)|)
      && initialRunning == old(initialRunning) && baseline == old(baseline) && prepared == old(prepared)
      && startAttempted == old(startAttempted) && startedByGuard == old(startedByGuard)
      && stopAttempted == old(stopAttempted) && stoppedByGuard == old(stoppedByGuard)
      && finalEvidence == old(finalEvidence)
    }

    twostate lemma LookingKeepsValid()
      requires OnlyLooked()
      ensures old(Valid()) ==> Valid()
    {
      if old(Valid()) {
        LookingStaysSafe(old(host.log), host.log, initialRunning, baseline, startAttempted);
        if baseline.Some? {
          SeenStays(old(host.log), host.log, baseline.value);
        }
      }
    }

    constructor (host: Host)
      requires host.log == []
      ensures Valid() && this.host == host && initialRunning == None
    {
      this.host := host;
      initialRunning, baseline := None, None;
      prepared, startAttempted, startedByGuard := false, false, false;
      stopAttempted, stoppedByGuard, finalEvidence := false, false, None;
    }

    // Whether Docker runs; anything but a stable state is a failure.
    method DockerRunning() returns (r: Result<bool, Failure>)
      modifies host
      ensures Looked(r, host.step) == ProbeAt(host.world, old(host.step))
      ensures OnlyLooked() && (old(Valid()) ==> Valid())
      ensures r.Success? ==> host.log == old(host.log) + [Probe(Some(DockerAs(r.value)))]
      ensures |host.log| == |old(host.log)| + 1
              && SeenRunning(host.log[|host.log| - 1]) == if r.Success? then Some(r.value) else None
      ensures r.Failure? ==> Shows(host.log, r.error, initialRunning)
    {
      var state := host.DockerStateNow();
      LookingKeepsValid();
      if state != Some(Running) && state != Some(Stopped) {
        return Failure(ProbeFailed);
      }
      return Success(state == Some(Running));
    }

    method WaitForDocker(expectedRunning: bool) returns (r: Result<(), Failure>)
      modifies host
      ensures Looked(r, host.step) ==
              WaitAt(host.world, old(host.step), expectedRunning, host.world.patience(old(host.step)))
      ensures OnlyLooked() && (old(Valid()) ==> Valid())
      ensures r.Success? ==> |host.log| > |old(host.log)|
                             && host.log[|host.log| - 1] == Probe(Some(DockerAs(expectedRunning)))
      ensures r.Failure? ==> Shows(host.log, r.error, initialRunning)
    {
      var patience := host.world.patience(host.step);
      ghost var whole := WaitAt(host.world, host.step, expectedRunning, patience);
      while true
        invariant OnlyLooked()
        invariant whole == WaitAt(host.world, host.step, expectedRunning, patience)
        decreases patience
      {
        var state := host.DockerStateNow();
        LookingKeepsValid();
        if state == None {
          return Failure(ProbeFailed);
        }
        if state.value == DockerAs(expectedRunning) {
          return Success(());
        }
        if patience == 0 {
          return Failure(if expectedRunning then StartTimeout else StopTimeout);
        }
        patience := patience - 1;
      }
    }

    // Takes one more reading: it joins the ones collected, or the collection starts over.
    method Collect(consecutive: seq<Reading>) returns (r: Result<seq<Reading>, Failure>)
      requires |consecutive| < OBSERVATIONS && Agree(consecutive) && JustRead(host.log, consecutive)
      modifies host
      ensures OnlyLooked() && host.step == old(host.step) + 1
      ensures ReadingAt(host.world, old(host.step)) == None <==> r.Failure?
      ensures r.Failure? ==> r.error == TelemetryFailed
      ensures r.Success? ==> r.value == Collected(consecutive, ReadingAt(host.world, old(host.step)).value)
      ensures r.Success? ==> |r.value| <= OBSERVATIONS && Agree(r.value) && JustRead(host.log, r.value)
    {
      ghost var before := host.log;
      var reading := host.GpuReading();
      if reading == None {
        return Failure(TelemetryFailed);
      }
      var value := reading.value;
      ReadOneMore(before, consecutive, value);
      FitsExactly(consecutive, value);
      var agrees := CandidateAgrees(consecutive, value);
      if agrees {
        return Success(consecutive + [value]);
      }
      return Success(if value.utilization <= MAX_UTILIZATION then [value] else []);
    }

    // One turn of taking a baseline that was begun with command `from`.
    method CollectTurn(consecutive: seq<Reading>, ghost from: nat) returns (r: Result<seq<Reading>, Failure>)
      requires from <= host.step && NotYet(host.world, from, host.step - from)
      requires consecutive == HeldAfter(host.world, from, host.step - from) && JustRead(host.log, consecutive)
      modifies host
      ensures OnlyLooked() && host.step == old(host.step) + 1
      ensures r.Failure? <==> ReadingAt(host.world, old(host.step)) == None
      ensures r.Failure? ==> r.error == TelemetryFailed
      ensures r.Success? ==> r.value == HeldAfter(host.world, from, host.step - from) && JustRead(host.log, r.value)
      ensures r.Success? ==> |r.value| <= OBSERVATIONS
      ensures r.Success? && |r.value| == OBSERVATIONS ==> TakenAfter(host.world, from, host.step - from)
      ensures r.Success? && |r.value| < OBSERVATIONS ==> NotYet(host.world, from, host.step - from)
    {
      ghost var n := host.step - from;
      assert |HeldAfter(host.world, from, n)| < OBSERVATIONS;
      HeldAgree(host.world, from, n);
      r := Collect(consecutive);
      if r.Success? {
        NextIsHeld(host.world, from, n, ReadingAt(host.world, from + n).value, r.value);
      }
    }

    // One turn, and the result if it is the last.
    method BaselineTurn(consecutive: seq<Reading>, patience: nat, ghost from: nat)
      returns (more: seq<Reading>, over: Option<Result<Baseline, Failure>>)
      requires from <= host.step && NotYet(host.world, from, host.step - from)
      requires consecutive == HeldAfter(host.world, from, host.step - from) && JustRead(host.log, consecutive)
      requires patience + host.step - from == host.world.patience(from)
      modifies host
      ensures OnlyLooked() && host.step == old(host.step) + 1
      ensures over.Some? ==> BaselineDue(host.world, from, host.world.patience(from), Looked(over.value, host.step))
      ensures over.Some? && over.value.Success? ==> BaselineSeen(host.log, over.value.value)
      ensures over == None ==>
                && patience > 0 && NotYet(host.world, from, host.step - from)
                && more == HeldAfter(host.world, from, host.step - from) && JustRead(host.log, more)
    {
      ghost var n, wait := host.step - from, host.world.patience(from);
      more := [];
      var collected := CollectTurn(consecutive, from);
      if collected.Failure? {
        DueOnFailure(host.world, from, wait, n);
        return more, Some(Failure(collected.error));
      }
      more := collected.value;
      if |more| == OBSERVATIONS {
        DueOnThree(host.world, from, wait, n, host.log, more);
        return more, Some(Success(BaselineOfThree(more)));
      }
      if patience == 0 {
        DueOnDeadline(host.world, from, n);
        return more, Some(Failure(BaselineUnstable));
      }
      return more, None;
    }

    // Reads the card until three readings in a row agree and are idle.
    method CaptureBaseline() returns (r: Result<Baseline, Failure>)
      modifies host
      ensures BaselineDue(host.world, old(host.step), host.world.patience(old(host.step)), Looked(r, host.step))
      ensures OnlyLooked()
      ensures r.Success? ==> BaselineSeen(host.log, r.value)
    {
      ghost var from := host.step;
      var patience: nat := host.world.patience(host.step);
      var consecutive: seq<Reading> := [];
      while true
        invariant OnlyLooked()
        invariant from <= host.step && patience + host.step - from == host.world.patience(from)
        invariant NotYet(host.world, from, host.step - from)
        invariant consecutive == HeldAfter(host.world, from, host.step - from) && JustRead(host.log, consecutive)
        decreases patience
      {
        var over;
        consecutive, over := BaselineTurn(consecutive, patience, from);
        if over.Some? {
          return over.value;
        }
        patience := patience - 1;
      }
    }

    // Reads the card until three readings in a row match the baseline.
    method WaitForGpuRestore() returns (r: Result<seq<Reading>, Failure>)
      requires baseline.Some?
      modifies host
      ensures Looked(r, host.step) ==
              RestoredAt(host.world, old(host.step), baseline.value, [], host.world.patience(old(host.step)))
      ensures OnlyLooked()
      ensures r.Success? ==> RestoredSeen(host.log, baseline.value, r.value)
      ensures r.Failure? ==> Shows(host.log, r.error, initialRunning)
    {
      var patience := host.world.patience(host.step);
      var consecutive: seq<Reading> := [];
      ghost var whole := RestoredAt(host.world, host.step, baseline.value, [], patience);
      while true
        invariant OnlyLooked()
        invariant whole == RestoredAt(host.world, host.step, baseline.value, consecutive, patience)
        invariant |consecutive| < OBSERVATIONS && JustRead(host.log, consecutive)
        invariant forall x :: x in consecutive ==> Matches(x, baseline.value)
        decreases patience
      {
        var reading := host.GpuReading();
        if reading == None {
          return Failure(TelemetryFailed);
        }
        if Matches(reading.value, baseline.value) {
          consecutive := consecutive + [reading.value];
          if |consecutive| == OBSERVATIONS {
            return Success(consecutive);
          }
        } else {
          consecutive := [];
        }
        if patience == 0 {
          return Failure(RestoreTimeout);
        }
        patience := patience - 1;
      }
    }

    method RequireNoContainers() returns (r: Result<(), Failure>)
      modifies host
      ensures Looked(r, host.step) == EmptyAt(host.world, old(host.step))
      ensures OnlyLooked() && (old(Valid()) ==> Valid())
      ensures r.Success? ==> host.log == old(host.log) + [Containers(Some(0))]
      ensures r.Failure? ==> Shows(host.log, r.error, initialRunning)
    {
      var count := host.RunningContainers();
      LookingKeepsValid();
      if count == None {
        return Failure(ListingFailed);
      }
      if count.value != 0 {
        return Failure(NotEmpty);
      }
      return Success(());
    }

    // ---------- the public operations ----------

    // It succeeds exactly on the answers that prepare the host, and Docker is started exactly if it was off and a
    // baseline was taken.
    method Prepare() returns (r: Result<(), Failure>)
      requires Valid()
      modifies this, host
      ensures Valid() && old(host.log) <= host.log
      ensures old(prepared || initialRunning.Some?) ==> r == Failure(AlreadyPrepared) && host.log == old(host.log)
      ensures old(!prepared && initialRunning == None) ==>
                && PrepareDue(host.world, old(host.step), Looked(r, host.step))
                && (r.Success? <==> PreparesWell(host.world, old(host.step)))
                && (startAttempted <==> StartsDocker(host.world, old(host.step)))
      ensures r.Success? ==> prepared && (initialRunning == Some(false) ==> startAttempted && startedByGuard)
    {
      if prepared || initialRunning.Some? {
        return Failure(AlreadyPrepared);
      }
      ghost var from := host.step;
      var running := DockerRunning();
      LookingStaysSafe(old(host.log), host.log, None, None, false);
      NothingSent(host.log, None);
      if running.Failure? {
        return Failure(running.error);
      }
      initialRunning := Some(running.value);
      NothingSent(host.log, initialRunning);
      ghost var captured;
      r, captured := CaptureAndStart();
      PreparedIsDue(host.world, from, running.value, captured, Looked(r, host.step));
    }

    method CaptureAndStart() returns (r: Result<(), Failure>, ghost captured: Looked<Baseline>)
      requires initialRunning.Some? && baseline == None && finalEvidence == None && !prepared && !startAttempted
      requires StartsSafely(host.log, initialRunning, None, false) && StopsSafely(host.log, initialRunning)
      modifies this, host
      ensures Valid() && old(host.log) <= host.log && initialRunning == old(initialRunning)
      ensures PreparedWith(host.world, old(host.step), initialRunning.value, captured, Looked(r, host.step))
      ensures startAttempted <==> initialRunning == Some(false) && captured.result.Success?
      ensures r.Success? ==> prepared && (initialRunning == Some(false) ==> startAttempted && startedByGuard)
    {
      ghost var probed := host.log;
      var reading := CaptureBaseline();
      captured := Looked(reading, host.step);
      LookingStaysSafe(probed, host.log, initialRunning, None, false);
      NothingSent(host.log, initialRunning);
      if reading.Failure? {
        r := Failure(reading.error);
        return;
      }
      baseline := Some(reading.value);
      prepared := true;
      assert host.log[..|host.log|] == host.log;
      if !initialRunning.value {
        r := StartDocker();
        return;
      }
      r := Success(());
    }

    method StartDocker() returns (r: Result<(), Failure>)
      requires initialRunning == Some(false) && baseline.Some? && prepared && !startAttempted && finalEvidence == None
      requires StartsSafely(host.log, initialRunning, baseline, false) && StopsSafely(host.log, initialRunning)
      requires BaselineSeen(host.log, baseline.value)
      modifies this, host
      ensures Valid() && old(host.log) <= host.log
      ensures initialRunning == old(initialRunning) && baseline == old(baseline) && prepared && startAttempted
      ensures r.Success? ==> startedByGuard
      ensures Looked(r, host.step) == StartAt(host.world, old(host.step))
    {
      var ok := SendStart();
      if !ok {
        return Failure(StartFailed);
      }
      r := WaitForDocker(true);
      if r.Success? {
        startedByGuard := true;
      }
    }

    method SendStart() returns (ok: bool)
      requires initialRunning == Some(false) && baseline.Some? && prepared && !startAttempted && finalEvidence == None
      requires StartsSafely(host.log, initialRunning, baseline, false) && StopsSafely(host.log, initialRunning)
      requires BaselineSeen(host.log, baseline.value)
      modifies this`startAttempted, host
      ensures Valid() && old(host.log) <= host.log && startAttempted
      ensures ok == host.world.startOk(old(host.step)) && host.step == old(host.step) + 1
    {
      startAttempted := true;
      StartStaysSafe(host.log, true, baseline.value);
      StartStaysSafe(host.log, false, baseline.value);
      assert host.log[..|host.log|] == host.log;
      ok := host.StartDesktop();
      SeenStays(old(host.log), host.log, baseline.value);
    }

    // Sent only directly after a listing that shows no container.
    method StopDocker() returns (r: Result<(), Failure>)
      requires Valid() && initialRunning == Some(false) && startAttempted
      requires host.log != [] && host.log[|host.log| - 1] == Containers(Some(0))
      modifies this`stopAttempted, this`stoppedByGuard, host
      ensures Valid() && old(host.log) < host.log && host.log[|old(host.log)|].Stop?
      ensures r.Success? ==> host.log[|host.log| - 1] == Probe(Some(Stopped))
      ensures Looked(r, host.step) == StopSentAt(host.world, old(host.step))
      ensures r.Failure? ==> Shows(host.log, r.error, initialRunning)
    {
      stopAttempted := true;
      r := StopAndWait();
      if r.Success? {
        stoppedByGuard := true;
      }
    }

    method StopAndWait() returns (r: Result<(), Failure>)
      requires Valid() && initialRunning == Some(false) && startAttempted
      requires host.log != [] && host.log[|host.log| - 1] == Containers(Some(0))
      modifies host
      ensures Valid() && old(host.log) < host.log && host.log[|old(host.log)|].Stop?
      ensures r.Success? ==> host.log[|host.log| - 1] == Probe(Some(Stopped))
      ensures Looked(r, host.step) == StopSentAt(host.world, old(host.step))
      ensures r.Failure? ==> Shows(host.log, r.error, initialRunning)
    {
      var ok := SendStop();
      if !ok {
        return Failure(StopFailed);
      }
      r := WaitForDocker(false);
    }

    method SendStop() returns (ok: bool)
      requires Valid() && initialRunning == Some(false) && startAttempted
      requires host.log != [] && host.log[|host.log| - 1] == Containers(Some(0))
      modifies host
      ensures Valid() && host.log == old(host.log) + [Stop(ok)]
      ensures ok == host.world.stopOk(old(host.step)) && host.step == old(host.step) + 1
    {
      ghost var before := host.log;
      ok := host.StopDesktop();
      StopStaysSafe(before, ok, initialRunning, baseline);
      SeenStays(before, host.log, baseline.value);
    }

    method VerifyMeasurementPreflight() returns (r: Result<(), Failure>)
      requires Valid()
      modifies host
      ensures Valid() && OnlyLooked()
      ensures !prepared ==> r == Failure(NotPrepared) && host.log == old(host.log)
      ensures prepared ==>
                var state, count := host.world.docker(old(host.step)), host.world.containers(old(host.step) + 1);
                r == if state != Some(Running) && state != Some(Stopped) then Failure(ProbeFailed)
                     else if state == Some(Stopped) then Failure(StateChanged)
                     else if count == None then Failure(ListingFailed)
                     else if count.value != 0 then Failure(NotEmpty)
                     else Success(())
      ensures r.Success? ==> host.log == old(host.log) + [Probe(Some(Running)), Containers(Some(0))]
    {
      if !prepared {
        return Failure(NotPrepared);
      }
      var running := DockerRunning();
      if running.Failure? {
        return Failure(running.error);
      }
      if !running.value {
        return Failure(StateChanged);
      }
      r := RequireNoContainers();
    }

    // The last checks of a restore, whatever led up to it: the card, Docker's state, and no container if it runs.
    method CheckRestored() returns (r: Result<seq<Reading>, Failure>)
      requires baseline.Some? && initialRunning.Some?
      modifies host
      ensures Looked(r, host.step) == CheckAt(host.world, old(host.step), initialRunning.value, baseline.value)
      ensures OnlyLooked()
      ensures r.Success? ==> EndsClean(host.log, initialRunning.value, baseline.value, r.value)
      ensures r.Failure? ==> Shows(host.log, r.error, initialRunning)
    {
      var post := WaitForGpuRestore();
      if post.Failure? {
        return Failure(post.error);
      }
      ghost var read := host.log;
      var same := CheckDocker();
      if same.Failure? {
        return Failure(same.error);
      }
      assert host.log[..|read|] == read;
      return Success(post.value);
    }

    // Docker must be as it was at first, and without a container if it runs.
    method CheckDocker() returns (r: Result<(), Failure>)
      requires initialRunning.Some?
      modifies host
      ensures OnlyLooked()
      ensures Looked(r, host.step) == SameDockerAt(host.world, old(host.step), initialRunning.value)
      ensures r.Success? ==>
                host.log == old(host.log) + (if initialRunning.value then [Probe(Some(Running)), Containers(Some(0))]
                                             else [Probe(Some(Stopped))])
      ensures r.Failure? ==> Shows(host.log, r.error, initialRunning)
    {
      var running := DockerRunning();
      if running.Failure? {
        return Failure(running.error);
      }
      if running.value != initialRunning.value {
        return Failure(StateChanged);
      }
      if running.value {
        r := RequireNoContainers();
        return;
      }
      return Success(());
    }

    // Restores the host and returns the evidence, exactly on the answers of a host that comes back; once there is
    // evidence, nothing more is sent.
    method FinishAfterOwnedCleanup() returns (r: Result<Evidence, Failure>)
      requires Valid()
      modifies this`stopAttempted, this`stoppedByGuard, this`finalEvidence, host
      ensures Valid() && old(host.log) <= host.log
      ensures old(finalEvidence.Some?) ==> r == Success(old(finalEvidence.value)) && host.log == old(host.log)
      ensures old(!prepared) ==> r == Failure(NotPrepared) && host.log == old(host.log)
      ensures old(prepared && finalEvidence == None) ==>
                && host.step == FinishAt(host.world, old(host.step), initialRunning.value, baseline.value).next
                && Finished(host.world, old(host.step), old(host.log), host.log, initialRunning.value, baseline.value,
                            startedByGuard, r)
      ensures finalEvidence == if r.Success? then Some(r.value) else old(finalEvidence)
    {
      if !prepared || initialRunning == None {
        return Failure(NotPrepared);
      }
      if finalEvidence.Some? {
        return Success(finalEvidence.value);
      }
      r := FinishOnce();
      if r.Success? {
        finalEvidence := Some(r.value);
      }
    }

    method FinishOnce() returns (r: Result<Evidence, Failure>)
      requires Valid() && prepared
      modifies this`stopAttempted, this`stoppedByGuard, host
      ensures Valid() && old(host.log) <= host.log
      ensures host.step == FinishAt(host.world, old(host.step), initialRunning.value, baseline.value).next
      ensures Finished(host.world, old(host.step), old(host.log), host.log, initialRunning.value, baseline.value,
                       startedByGuard, r)
    {
      FinishSucceedsExactly(host.world, host.step, initialRunning.value, baseline.value);
      var failure := ReturnDocker();
      if failure.Some? {
        return Failure(failure.value);
      }
      ghost var returned := host.log;
      r := CheckedEvidence();
      LooksSendNoStop(returned, host.log, |old(host.log)|);
    }

    // The evidence of a host that passes the last checks.
    method CheckedEvidence() returns (r: Result<Evidence, Failure>)
      requires Valid() && baseline.Some?
      modifies host
      ensures Valid() && OnlyLooked()
      ensures var due := CheckAt(host.world, old(host.step), initialRunning.value, baseline.value);
              host.step == due.next && (r.Success? <==> due.result.Success?)
              && (r.Failure? ==> due.result == Failure(r.error))
      ensures r.Failure? ==> Shows(host.log, r.error, initialRunning)
      ensures r.Success? ==>
                IsShown(r.value, host.log, initialRunning.value, baseline.value, startedByGuard)
    {
      var post := CheckRestored();
      LookingKeepsValid();
      if post.Failure? {
        return Failure(post.error);
      }
      WithinBounds(post.value, baseline.value, host.log, initialRunning.value);
      return Success(CleanEvidence(initialRunning.value, baseline.value, startedByGuard, post.value));
    }

    // A part without a result of its own came out as it was due.
    predicate CameOut(failure: Option<Failure>, due: Looked<()>)
      reads host
    {
      && host.step == due.next && (failure == None <==> due.result.Success?)
      && (failure.Some? ==> due.result == Failure(failure.value))
    }

    // Docker must run, and is stopped again if it was off at first and no container is left.
    method ReturnDocker() returns (failure: Option<Failure>)
      requires Valid() && prepared
      modifies this`stopAttempted, this`stoppedByGuard, host
      ensures CameOut(failure, ReturnAt(host.world, old(host.step), initialRunning.value))
      ensures Valid() && old(host.log) <= host.log
      ensures StopSent(host.log, |old(host.log)|) <==> StopsAtFinish(host.world, old(host.step), initialRunning.value)
      ensures failure.Some? ==>
                || Shows(host.log, failure.value, initialRunning)
                || (failure.value == StateChanged && host.log == old(host.log) + [Probe(Some(Stopped))])
    {
      var running := DockerRunning();
      if running.Failure? {
        return Some(running.error);
      }
      if !running.value {
        return Some(StateChanged);
      }
      if !initialRunning.value {
        ghost var probed := host.log;
        failure := StopIfEmpty();
        StopCountsLater(probed, host.log, |old(host.log)|);
        return;
      }
      return None;
    }

    // Never fails: undoes only a start that this guard could have caused, and reports what came of it: clean exactly on
    // the answers of a host that comes back. A report that is not clean names the failure of the last command before
    // the closing look at Docker.
    method BestEffortRestore() returns (report: RestoreReport)
      requires Valid()
      modifies this`stopAttempted, this`stoppedByGuard, host
      ensures Valid() && old(host.log) <= host.log
      ensures report.clean ==> baseline.Some?
      ensures initialRunning == None ==>
                report == RestoreReport(false, Some(InitialUnknown), None, false) && host.log == old(host.log)
      ensures initialRunning.Some? && baseline == None ==>
                && !report.clean && report.code == Some(BaselineUnavailable)
                && LooksLast(old(host.log), report.finalRunning)
      ensures initialRunning.Some? && baseline.Some? ==>
                && Reports(host.world, old(host.step), host.log, initialRunning.value, baseline.value, startAttempted,
                           report)
                && (report.clean <==> RestoresWell(host.world, old(host.step), initialRunning.value, startAttempted,
                                                   baseline.value))
                && (StopSent(host.log, |old(host.log)|) <==>
                    StopsAtUndo(host.world, old(host.step), initialRunning.value, startAttempted))
    {
      if initialRunning == None {
        return RestoreReport(false, Some(InitialUnknown), None, false);
      }
      if baseline == None {
        report := Blocked(BaselineUnavailable);
        return;
      }
      UndoSucceedsExactly(host.world, host.step, initialRunning.value, startAttempted, baseline.value);
      report := RestoreOnce();
    }

    method RestoreOnce() returns (report: RestoreReport)
      requires Valid() && baseline.Some?
      modifies this`stopAttempted, this`stoppedByGuard, host
      ensures Valid() && old(host.log) <= host.log
      ensures Reports(host.world, old(host.step), host.log, initialRunning.value, baseline.value, startAttempted,
                      report)
      ensures StopSent(host.log, |old(host.log)|) <==>
              StopsAtUndo(host.world, old(host.step), initialRunning.value, startAttempted)
    {
      var restored := TryRestore();
      if restored.Success? {
        return RestoreReport(true, None, initialRunning, |restored.value| == OBSERVATIONS);
      }
      ghost var failed := host.log;
      report := Blocked(restored.error);
      OneLookMore(failed, host.log, |old(host.log)|);
    }

    // Undoing a start and checking, up to the first failure.
    method TryRestore() returns (r: Result<seq<Reading>, Failure>)
      requires Valid() && baseline.Some?
      modifies this`stopAttempted, this`stoppedByGuard, host
      ensures Valid() && old(host.log) <= host.log
      ensures Looked(r, host.step) ==
              TriedAt(host.world, old(host.step), initialRunning.value, startAttempted, baseline.value)
      ensures r.Success? ==> EndsClean(host.log, initialRunning.value, baseline.value, r.value)
      ensures r.Failure? ==> Shows(host.log, r.error, initialRunning)
      ensures StopSent(host.log, |old(host.log)|) <==>
              StopsAtUndo(host.world, old(host.step), initialRunning.value, startAttempted)
    {
      var failure := UndoStart();
      if failure.Some? {
        return Failure(failure.value);
      }
      label checking:
      ghost var undone := host.log;
      r := CheckRestored();
      LookingKeepsValid@checking();
      LooksSendNoStop(undone, host.log, |old(host.log)|);
    }

    // One more command, the look at Docker that the report gives.
    ghost predicate LooksLast(before: seq<Command>, seen: Option<bool>)
      reads this, host
    {
      && |host.log| == |before| + 1 && before <= host.log && OnlyLooks(host.log, |before|)
      && SeenRunning(host.log[|host.log| - 1]) == seen
    }

    method Blocked(code: Failure) returns (report: RestoreReport)
      requires Valid()
      modifies host
      ensures Valid() && LooksLast(old(host.log), report.finalRunning)
      ensures report == RestoreReport(false, Some(code), report.finalRunning, false)
    {
      var seen := DockerRunning();
      return RestoreReport(false, Some(code), if seen.Success? then Some(seen.value) else None, false);
    }

    // The first half of that: Docker must be as it was, or be stopped again if this guard tried to start it.
    method UndoStart() returns (failure: Option<Failure>)
      requires Valid() && baseline.Some?
      modifies this`stopAttempted, this`stoppedByGuard, host
      ensures CameOut(failure, UndoAt(host.world, old(host.step), initialRunning.value, startAttempted))
      ensures Valid() && old(host.log) <= host.log
      ensures failure.Some? ==> Shows(host.log, failure.value, initialRunning)
      ensures StopSent(host.log, |old(host.log)|) <==>
              StopsAtUndo(host.world, old(host.step), initialRunning.value, startAttempted)
    {
      var state := host.DockerStateNow();
      LookingKeepsValid();
      if state == None {
        return Some(ProbeFailed);
      }
      if initialRunning.value {
        return if state.value == Running then None else Some(StateChanged);
      }
      if state.value == Stopped {
        return None;
      }
      if !startAttempted {
        return Some(StateChanged);
      }
      ghost var probed := host.log;
      failure := StopWhenRunning(state.value);
      StopCountsLater(probed, host.log, |old(host.log)|);
    }

    // Stops Docker once it runs; a start may still be under way.
    method StopWhenRunning(state: DockerState) returns (failure: Option<Failure>)
      requires Valid() && initialRunning == Some(false) && startAttempted
      modifies this`stopAttempted, this`stoppedByGuard, host
      ensures CameOut(failure, StopWhenRunningAt(host.world, old(host.step), state))
      ensures Valid() && old(host.log) <= host.log
      ensures failure.Some? ==> Shows(host.log, failure.value, initialRunning)
      ensures StopSent(host.log, |old(host.log)|) <==> StopsOnceRunning(host.world, old(host.step), state)
    {
      if state != Running {
        RunningIsSeen(host.world, host.step);
        var waited := WaitForDocker(true);
        if waited.Failure? {
          return Some(waited.error);
        }
      }
      ghost var seen := host.log;
      failure := StopIfEmpty();
      StopCountsLater(seen, host.log, |old(host.log)|);
    }

    method StopIfEmpty() returns (failure: Option<Failure>)
      requires Valid() && initialRunning == Some(false) && startAttempted
      modifies this`stopAttempted, this`stoppedByGuard, host
      ensures CameOut(failure, StopAt(host.world, old(host.step)))
      ensures Valid() && old(host.log) <= host.log
      ensures failure.Some? ==> Shows(host.log, failure.value, initialRunning)
      ensures StopSent(host.log, |old(host.log)|) <==> host.world.containers(old(host.step)) == Some(0)
    {
      var none := RequireNoContainers();
      if none.Failure? {
        return Some(none.error);
      }
      var stopped := StopDocker();
      return if stopped.Success? then None else Some(stopped.error);
    }

    // Any operations in any order.
    method Perform(operations: seq<Operation>)
      requires Valid()
      modifies this, host
      ensures Valid() && old(host.log) <= host.log
    {
      var i := 0;
      while i < |operations|
        invariant Valid() && old(host.log) <= host.log
      {
        match operations[i] {
          case DoPrepare => var prepared := Prepare();
          case DoPreflight => var checked := VerifyMeasurementPreflight();
          case DoFinish => var finished := FinishAfterOwnedCleanup();
          case DoBestEffort => var report := BestEffortRestore();
        }
        i := i + 1;
      }
    }
  }

  datatype Operation = DoPrepare | DoPreflight | DoFinish | DoBestEffort

  // Where nothing was ever started or stopped, the first probe may still turn out either way.
  lemma NothingSent(log: seq<Command>, initial: Option<bool>)
    requires StartsSafely(log, None, None, false) || StartsSafely(log, initial, None, false)
    requires StopsSafely(log, None) || StopsSafely(log, initial)
    ensures StartsSafely(log, initial, None, false) && StopsSafely(log, initial)
    ensures forall b: Option<Baseline> :: StartsSafely(log, initial, b, false)
  {
    assert forall i :: 0 <= i < |log| ==> !log[i].Start?;
    assert forall i :: 0 <= i < |log| ==> !log[i].Stop?;
  }

  lemma WithinBounds(post: seq<Reading>, baseline: Baseline, log: seq<Command>, initial: bool)
    requires EndsClean(log, initial, baseline, post)
    ensures |post| == OBSERVATIONS
    ensures Max(post[0].utilization, Max(post[1].utilization, post[2].utilization)) <= MAX_UTILIZATION
  {
    assert post[0] in post && post[1] in post && post[2] in post;
  }

  lemma SpreadDecides(readings: seq<Reading>, value: Reading, low: real, high: real, least: real, most: real,
                      p: nat, q: nat, t: nat, u: nat)
    requires Agree(readings)
    requires var all := readings + [value];
             && p < |all| && q < |all| && t < |all| && u < |all|
             && all[p].free == low && all[q].free == high && all[t].total == least && all[u].total == most
             && forall k :: 0 <= k < |all| ==> low <= all[k].free <= high && least <= all[k].total <= most
    ensures Agree(readings + [value]) <==>
            && value.utilization <= MAX_UTILIZATION
            && (forall k :: 0 <= k < |readings| ==> readings[k].model == value.model)
            && high - low <= FREE_TOLERANCE && most - least <= TOTAL_TOLERANCE
  {
    var all := readings + [value];
    assert all[|readings|] == value && forall k :: 0 <= k < |readings| ==> all[k] == readings[k];
    if Agree(all) {
      assert Distance(all[p].free, all[q].free) <= FREE_TOLERANCE;
      assert Distance(all[t].total, all[u].total) <= TOTAL_TOLERANCE;
    }
  }

  // The same for extremes that are the new reading's or some collected one's.
  lemma SpreadOfAll(readings: seq<Reading>, value: Reading, low: real, high: real, least: real, most: real)
    requires Agree(readings) && low <= value.free <= high && least <= value.total <= most
    requires forall k :: 0 <= k < |readings| ==>
               low <= readings[k].free <= high && least <= readings[k].total <= most
    requires low == value.free || exists k :: 0 <= k < |readings| && readings[k].free == low
    requires high == value.free || exists k :: 0 <= k < |readings| && readings[k].free == high
    requires least == value.total || exists k :: 0 <= k < |readings| && readings[k].total == least
    requires most == value.total || exists k :: 0 <= k < |readings| && readings[k].total == most
    ensures Agree(readings + [value]) <==>
            && value.utilization <= MAX_UTILIZATION
            && (forall k :: 0 <= k < |readings| ==> readings[k].model == value.model)
            && high - low <= FREE_TOLERANCE && most - least <= TOTAL_TOLERANCE
  {
    var all := readings + [value];
    assert all[|readings|] == value && forall k :: 0 <= k < |readings| ==> all[k] == readings[k];
    var p :| 0 <= p < |all| && all[p].free == low;
    var q :| 0 <= q < |all| && all[q].free == high;
    var t :| 0 <= t < |all| && all[t].total == least;
    var u :| 0 <= u < |all| && all[u].total == most;
    SpreadDecides(readings, value, low, high, least, most, p, q, t, u);
  }

  lemma ReadOneMore(log: seq<Command>, readings: seq<Reading>, value: Reading)
    requires JustRead(log, readings)
    ensures JustRead(log + [Gpu(Some(value))], readings + [value])
    ensures JustRead(log + [Gpu(Some(value))], [value])
  {
  }

  // Whether a reading is idle and agrees with the ones collected, by the spread of the whole list.
  method CandidateAgrees(consecutive: seq<Reading>, value: Reading) returns (agrees: bool)
    requires |consecutive| < OBSERVATIONS && Agree(consecutive)
    ensures agrees <==> Agree(consecutive + [value])
  {
    var low, high, least, most := value.free, value.free, value.total, value.total;
    var sameModel := true;
    var i := 0;
    while i < |consecutive|
      invariant 0 <= i <= |consecutive|
      invariant sameModel <==> forall k :: 0 <= k < i ==> consecutive[k].model == value.model
      invariant low <= value.free <= high && least <= value.total <= most
      invariant forall k :: 0 <= k < i ==> low <= consecutive[k].free <= high && least <= consecutive[k].total <= most
      invariant low == value.free || exists k :: 0 <= k < i && consecutive[k].free == low
      invariant high == value.free || exists k :: 0 <= k < i && consecutive[k].free == high
      invariant least == value.total || exists k :: 0 <= k < i && consecutive[k].total == least
      invariant most == value.total || exists k :: 0 <= k < i && consecutive[k].total == most
    {
      sameModel := sameModel && consecutive[i].model == value.model;
      low, high := Min(low, consecutive[i].free), Max(high, consecutive[i].free);
      least, most := Min(least, consecutive[i].total), Max(most, consecutive[i].total);
      i := i + 1;
    }
    SpreadOfAll(consecutive, value, low, high, least, most);
    agrees := value.utilization <= MAX_UTILIZATION && sameModel && high - low <= FREE_TOLERANCE
      && most - least <= TOTAL_TOLERANCE;
  }
}
