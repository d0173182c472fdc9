// When the operations on the host succeed, told from its answers alone: one after the other, with the number of the
// command each of them answers.
module HostAnswers {
  import opened Wrappers
  import opened HostReadings

  // Docker is in this state at command `k` for the first time since `s`, and no probe before failed.
  ghost predicate FirstSeen(w: World, s: nat, running: bool, k: nat) {
    && s <= k && w.docker(k) == Some(if running then Running else Stopped)
    && forall j: nat :: s <= j < k ==> w.docker(j).Some? && w.docker(j) != Some(if running then Running else Stopped)
  }

  // A wait for this state begun with command `s` ends well with command `k`.
  ghost predicate Reaches(w: World, s: nat, running: bool, k: nat) {
    FirstSeen(w, s, running, k) && k <= s + w.patience(s)
  }

  ghost predicate ReachesInTime(w: World, s: nat, running: bool) {
    exists k: nat :: Reaches(w, s, running, k)
  }

  // The reading makes sense and matches the baseline.
  ghost predicate Restored(w: World, b: Baseline, k: nat) {
    w.gpu(k).Some? &&
    var r := w.gpu(k).value;
    && 0.0 <= r.utilization <= 10.0 && 0.0 < r.total && 0.75 * r.total <= r.free <= r.total
    && r.model == b.model && -1.0 <= r.total - b.total <= 1.0
  }

  ghost predicate MakesSense(w: World, k: nat) {
    w.gpu(k).Some? &&
    var r := w.gpu(k).value;
    0.0 <= r.utilization <= 100.0 && 0.0 < r.total && 0.0 <= r.free <= r.total
  }

  // Three matching readings in a row end with command `k`, and every reading since `s` makes sense.
  ghost predicate ThreeRestored(w: World, s: nat, b: Baseline, k: nat) {
    && s + 2 <= k && Restored(w, b, k - 2) && Restored(w, b, k - 1) && Restored(w, b, k)
    && forall j: nat :: s <= j <= k ==> MakesSense(w, j)
  }

  // The first three in a row end with command `k`, in time for a wait begun with command `s`.
  ghost predicate Settles(w: World, s: nat, b: Baseline, k: nat) {
    && k <= s + w.patience(s) && ThreeRestored(w, s, b, k)
    && forall j: nat :: j < k ==> !ThreeRestored(w, s, b, j)
  }

  // The last checks, from command `s` on.
  ghost predicate ChecksOut(w: World, s: nat, initial: bool, b: Baseline) {
    exists k: nat :: ChecksAt(w, s, initial, b, k)
  }

  ghost predicate ChecksAt(w: World, s: nat, initial: bool, b: Baseline, k: nat) {
    && Settles(w, s, b, k)
    && w.docker(k + 1) == Some(if initial then Running else Stopped)
    && (initial ==> w.containers(k + 2) == Some(0))
  }

  // Docker is stopped from command `s` on, being empty, and is seen stopped with command `k`.
  ghost predicate StopsAt(w: World, s: nat, k: nat) {
    w.containers(s) == Some(0) && w.stopOk(s + 1) && Reaches(w, s + 2, false, k)
  }

  ghost predicate StopsAndChecks(w: World, s: nat, b: Baseline) {
    exists k: nat :: StopsAt(w, s, k) && ChecksOut(w, k + 1, false, b)
  }

  // The finish of a run: Docker runs; it is stopped again if it was off at first; and the checks come out well.
  ghost predicate FinishesWell(w: World, s: nat, initial: bool, b: Baseline) {
    && w.docker(s) == Some(Running)
    && if initial then ChecksOut(w, s + 1, true, b) else StopsAndChecks(w, s + 1, b)
  }

  // A restore after a failure: Docker is as it was at first; or it was off, a start was attempted, and Docker, found
  // running now or after a wait, is stopped.
  ghost predicate RestoresWell(w: World, s: nat, initial: bool, attempted: bool, b: Baseline) {
    if initial then w.docker(s) == Some(Running) && ChecksOut(w, s + 1, true, b)
    else
      || (w.docker(s) == Some(Stopped) && ChecksOut(w, s + 1, false, b))
      || (attempted && w.docker(s) == Some(Running) && StopsAndChecks(w, s + 1, b))
      || (attempted && InTransition(w, s) && exists k: nat :: StartsThenStops(w, s, b, k))
  }

  ghost predicate InTransition(w: World, s: nat) {
    w.docker(s).Some? && w.docker(s) != Some(Running) && w.docker(s) != Some(Stopped)
  }

  ghost predicate StartsThenStops(w: World, s: nat, b: Baseline, k: nat) {
    Reaches(w, s + 1, true, k) && StopsAndChecks(w, k + 1, b)
  }

  // When Docker is told to stop: it was off at first, and runs with nothing in it; after a failure only if a start was
  // attempted, and it may come to run after a wait.
  ghost predicate StopsAtFinish(w: World, s: nat, initial: bool) {
    !initial && w.docker(s) == Some(Running) && w.containers(s + 1) == Some(0)
  }

  ghost predicate StopsAtUndo(w: World, s: nat, initial: bool, attempted: bool) {
    && !initial && attempted && w.docker(s).Some? && w.docker(s) != Some(Stopped)
    && StopsOnceRunning(w, s + 1, w.docker(s).value)
  }

  ghost predicate StopsOnceRunning(w: World, s: nat, state: DockerState) {
    if state == Running then w.containers(s) == Some(0)
    else exists k: nat :: Reaches(w, s, true, k) && w.containers(k + 1) == Some(0)
  }

  // ---------- the parts ----------

  lemma MatchesExactly(w: World, b: Baseline, k: nat)
    ensures MatchesAt(w, b, k) <==> Restored(w, b, k)
    ensures ReadingAt(w, k).Some? <==> MakesSense(w, k)
  {
    if w.gpu(k).Some? && w.gpu(k).value.Plausible() {
      var r := w.gpu(k).value;
      RatioExactly(r.free, r.total);
    }
  }

  lemma RatioExactly(free: real, total: real)
    requires total > 0.0
    ensures free / total >= 0.75 <==> free >= 0.75 * total
  {
    var q := free / total;
    assert q * total == free;
    if q >= 0.75 {
      assert (q - 0.75) * total >= 0.0;
    } else {
      assert (0.75 - q) * total > 0.0;
    }
  }

  lemma {:induction false} WaitEndsExactly(w: World, s: nat, running: bool, patience: nat, k: nat)
    ensures WaitAt(w, s, running, patience) == Looked(Success(()), k + 1) <==>
            FirstSeen(w, s, running, k) && k <= s + patience
    decreases patience
  {
    if w.docker(s).Some? && w.docker(s) != Some(DockerAs(running)) && patience > 0 {
      WaitEndsExactly(w, s + 1, running, patience - 1, k);
    }
  }

  lemma {:induction false} WaitReturns(w: World, s: nat, running: bool, patience: nat) returns (k: nat)
    requires WaitAt(w, s, running, patience).result.Success?
    ensures WaitAt(w, s, running, patience) == Looked(Success(()), k + 1)
    decreases patience
  {
    if w.docker(s) == Some(DockerAs(running)) {
      k := s;
    } else {
      k := WaitReturns(w, s + 1, running, patience - 1);
    }
  }

  // Three readings in a row from some place on.
  lemma ThreeExactly(w: World, s: nat, b: Baseline, k: nat)
    ensures ThreeMatch(w, s, b, k) <==> ThreeRestored(w, s, b, k)
  {
    forall j: nat
      ensures MatchesAt(w, b, j) <==> Restored(w, b, j)
      ensures ReadingAt(w, j).Some? <==> MakesSense(w, j)
    {
      MatchesExactly(w, b, j);
    }
  }

  // The wait for the card ends with the first three in a row.
  lemma {:induction false} RestoreEnds(w: World, from: nat, s: nat, b: Baseline, run: seq<Reading>, patience: nat,
                                       k: nat)
    requires RunBefore(w, from, b, s, run) && forall j: nat :: j < s ==> !ThreeMatch(w, from, b, j)
    ensures var out := RestoredAt(w, s, b, run, patience);
            out.result.Success? && out.next == k + 1 <==>
            && s <= k <= s + patience && ThreeMatch(w, from, b, k)
            && forall j: nat :: j < k ==> !ThreeMatch(w, from, b, j)
    decreases patience
  {
    if ReadingAt(w, s).Some? {
      ThreeEndHere(w, from, s, b, run);
      var more := if MatchesAt(w, b, s) then run + [ReadingAt(w, s).value] else [];
      if |more| < OBSERVATIONS && patience > 0 {
        RunGoesOn(w, from, s, b, run);
        RestoreEnds(w, from, s + 1, b, more, patience - 1, k);
      }
    }
  }

  lemma SettlesExactly(w: World, s: nat, b: Baseline, k: nat)
    ensures var out := RestoredAt(w, s, b, [], w.patience(s));
            out.result.Success? && out.next == k + 1 <==> Settles(w, s, b, k)
  {
    RestoreEnds(w, s, s, b, [], w.patience(s), k);
    forall j: nat
      ensures ThreeMatch(w, s, b, j) <==> ThreeRestored(w, s, b, j)
    {
      ThreeExactly(w, s, b, j);
    }
  }

  lemma {:induction false} RestoreIsLater(w: World, s: nat, b: Baseline, run: seq<Reading>, patience: nat)
    ensures RestoredAt(w, s, b, run, patience).next > s
    decreases patience
  {
    if ReadingAt(w, s).Some? && patience > 0 {
      var more := if Matches(ReadingAt(w, s).value, b) then run + [ReadingAt(w, s).value] else [];
      if |more| != OBSERVATIONS {
        RestoreIsLater(w, s + 1, b, more, patience - 1);
      }
    }
  }

  lemma ChecksExactly(w: World, s: nat, initial: bool, b: Baseline)
    ensures CheckAt(w, s, initial, b).result.Success? <==> ChecksOut(w, s, initial, b)
  {
    var post := RestoredAt(w, s, b, [], w.patience(s));
    if CheckAt(w, s, initial, b).result.Success? {
      RestoreIsLater(w, s, b, [], w.patience(s));
      SettlesExactly(w, s, b, post.next - 1);
      assert ChecksAt(w, s, initial, b, post.next - 1);
    }
    if k: nat :| ChecksAt(w, s, initial, b, k) {
      SettlesExactly(w, s, b, k);
    }
  }

  lemma StopsExactly(w: World, s: nat, k: nat)
    ensures StopAt(w, s) == Looked(Success(()), k + 1) <==> StopsAt(w, s, k)
  {
    WaitEndsExactly(w, s + 2, false, w.patience(s + 2), k);
  }

  lemma StopReturns(w: World, s: nat) returns (k: nat)
    requires StopAt(w, s).result.Success?
    ensures StopAt(w, s) == Looked(Success(()), k + 1)
  {
    k := WaitReturns(w, s + 2, false, w.patience(s + 2));
  }

  // Stopping came to this, and what follows it goes well.
  ghost predicate GoesOnWell(w: World, stopped: Looked<()>, b: Baseline) {
    stopped.result.Success? && CheckAt(w, stopped.next, false, b).result.Success?
  }

  lemma StopsAndChecksExactly(w: World, s: nat, b: Baseline)
    ensures GoesOnWell(w, StopAt(w, s), b) <==> StopsAndChecks(w, s, b)
  {
    if StopAt(w, s).result.Success? {
      var k := StopReturns(w, s);
      StopsExactly(w, s, k);
      ChecksExactly(w, k + 1, false, b);
    }
    if k: nat :| StopsAt(w, s, k) && ChecksOut(w, k + 1, false, b) {
      StopsExactly(w, s, k);
      ChecksExactly(w, k + 1, false, b);
    }
  }

  // ---------- the operations ----------

  // The finish yields evidence exactly on these answers.
  lemma FinishSucceedsExactly(w: World, s: nat, initial: bool, b: Baseline)
    ensures FinishAt(w, s, initial, b).result.Success? <==> FinishesWell(w, s, initial, b)
  {
    if initial {
      ChecksExactly(w, s + 1, true, b);
    } else {
      StopsAndChecksExactly(w, s + 1, b);
    }
  }

  lemma StoppedAfterWait(w: World, s: nat, state: DockerState, b: Baseline, k: nat)
    requires state != Running && Reaches(w, s, true, k)
    ensures GoesOnWell(w, StopWhenRunningAt(w, s, state), b) <==> StopsAndChecks(w, k + 1, b)
  {
    WaitEndsExactly(w, s, true, w.patience(s), k);
    assert StopWhenRunningAt(w, s, state) == StopAt(w, k + 1);
    StopsAndChecksExactly(w, k + 1, b);
  }

  lemma WaitedForRunning(w: World, s: nat, state: DockerState) returns (k: nat)
    requires state != Running && StopWhenRunningAt(w, s, state).result.Success?
    ensures Reaches(w, s, true, k)
  {
    k := WaitReturns(w, s, true, w.patience(s));
    WaitEndsExactly(w, s, true, w.patience(s), k);
  }

  lemma WaitsThenStopsExactly(w: World, s: nat, state: DockerState, b: Baseline)
    requires state != Running
    ensures GoesOnWell(w, StopWhenRunningAt(w, s + 1, state), b) <==> exists k: nat :: StartsThenStops(w, s, b, k)
  {
    var stopped := StopWhenRunningAt(w, s + 1, state);
    if GoesOnWell(w, stopped, b) {
      var k := WaitedForRunning(w, s + 1, state);
      StoppedAfterWait(w, s + 1, state, b, k);
      assert StartsThenStops(w, s, b, k);
    }
    if k: nat :| StartsThenStops(w, s, b, k) {
      StoppedAfterWait(w, s + 1, state, b, k);
    }
  }

  // The wait for Docker to run ends well exactly with a command that reaches it, and there is one such command only.
  lemma RunningIsSeen(w: World, s: nat)
    ensures var waited := WaitAt(w, s, true, w.patience(s));
            && (waited.result.Success? ==> waited.next > s && Reaches(w, s, true, waited.next - 1))
            && forall k: nat :: Reaches(w, s, true, k) ==> waited == Looked(Success(()), k + 1)
  {
    var waited := WaitAt(w, s, true, w.patience(s));
    if waited.result.Success? {
      var k := WaitReturns(w, s, true, w.patience(s));
      WaitEndsExactly(w, s, true, w.patience(s), k);
    }
    forall k: nat | Reaches(w, s, true, k)
      ensures waited == Looked(Success(()), k + 1)
    {
      WaitEndsExactly(w, s, true, w.patience(s), k);
    }
  }

  // A restore after a failure is clean exactly on these answers.
  lemma UndoSucceedsExactly(w: World, s: nat, initial: bool, attempted: bool, b: Baseline)
    ensures TriedAt(w, s, initial, attempted, b).result.Success? <==> RestoresWell(w, s, initial, attempted, b)
  {
    if initial {
      ChecksExactly(w, s + 1, true, b);
    } else if w.docker(s) == Some(Stopped) {
      ChecksExactly(w, s + 1, false, b);
    } else if w.docker(s) == Some(Running) {
      StopsAndChecksExactly(w, s + 1, b);
    } else {
      if w.docker(s).Some? {
        WaitsThenStopsExactly(w, s, w.docker(s).value, b);
      }
    }
  }

  // Three matching readings at once.
  lemma SettlesAtOnce(w: World, s: nat, b: Baseline)
    requires w.patience(s) >= 2 && Restored(w, b, s) && Restored(w, b, s + 1) && Restored(w, b, s + 2)
    ensures Settles(w, s, b, s + 2)
  {
    forall j: nat | s <= j <= s + 2
      ensures MakesSense(w, j)
    {
      assert j == s || j == s + 1 || j == s + 2;
    }
    assert s + 2 - 2 == s && s + 2 - 1 == s + 1;
    assert ThreeRestored(w, s, b, s + 2);
  }

  lemma StopsAtOnce(w: World, s: nat, b: Baseline)
    requires w.containers(s) == Some(0) && w.stopOk(s + 1) && w.docker(s + 2) == Some(Stopped)
    requires Restored(w, b, s + 3) && Restored(w, b, s + 4) && Restored(w, b, s + 5) && w.patience(s + 3) >= 2
    requires w.docker(s + 6) == Some(Stopped)
    ensures StopsAndChecks(w, s, b)
  {
    assert StopsAt(w, s, s + 2);
    SettlesAtOnce(w, s + 3, b);
    assert ChecksAt(w, s + 3, false, b, s + 5);
    assert ChecksOut(w, s + 2 + 1, false, b);
  }

  // A host that obeys at once is restored, whether Docker ran at first or not, and whether the run finishes or failed
  // after its start.
  lemma ObedientHostIsRestored(w: World, s: nat, initial: bool, b: Baseline)
    requires w.docker(s) == Some(Running)
    requires initial ==> && Restored(w, b, s + 1) && Restored(w, b, s + 2) && Restored(w, b, s + 3)
                         && w.patience(s + 1) >= 2
                         && w.docker(s + 4) == Some(Running) && w.containers(s + 5) == Some(0)
    requires !initial ==> && w.containers(s + 1) == Some(0) && w.stopOk(s + 2) && w.docker(s + 3) == Some(Stopped)
                          && Restored(w, b, s + 4) && Restored(w, b, s + 5) && Restored(w, b, s + 6)
                          && w.patience(s + 4) >= 2 && w.docker(s + 7) == Some(Stopped)
    ensures FinishAt(w, s, initial, b).result.Success?
    ensures TriedAt(w, s, initial, true, b).result.Success?
  {
    if initial {
      SettlesAtOnce(w, s + 1, b);
      assert ChecksAt(w, s + 1, true, b, s + 3);
    } else {
      StopsAtOnce(w, s + 1, b);
    }
    FinishSucceedsExactly(w, s, initial, b);
    UndoSucceedsExactly(w, s, initial, true, b);
  }

  // ---------- the preparation ----------

  // The first time that three readings are held is after `m` readings, in time for a wait begun with command `s`.
  ghost predicate FirstTaken(w: World, s: nat, m: nat) {
    0 < m <= w.patience(s) + 1 && TakenAfter(w, s, m) && NotYet(w, s, m - 1)
  }

  ghost predicate TakenInTime(w: World, s: nat) {
    exists m: nat :: FirstTaken(w, s, m)
  }

  // Docker is started exactly if it was off and a baseline was taken.
  ghost predicate StartsDocker(w: World, s: nat) {
    w.docker(s) == Some(Stopped) && TakenInTime(w, s + 1)
  }

  ghost predicate PreparesAt(w: World, s: nat, m: nat) {
    && FirstTaken(w, s + 1, m)
    && (w.docker(s) == Some(Stopped) ==> w.startOk(s + 1 + m) && ReachesInTime(w, s + 2 + m, true))
  }

  ghost predicate PreparesWell(w: World, s: nat) {
    (w.docker(s) == Some(Running) || w.docker(s) == Some(Stopped)) && exists m: nat :: PreparesAt(w, s, m)
  }

  lemma OneFirstTaken(w: World, s: nat, m: nat, n: nat)
    requires FirstTaken(w, s, m) && FirstTaken(w, s, n)
    ensures m == n
  {
    assert m < n ==> |HeldAfter(w, s, m)| < OBSERVATIONS;
    assert n < m ==> |HeldAfter(w, s, n)| < OBSERVATIONS;
  }

  lemma BaselineTakenExactly(w: World, s: nat, out: Looked<Baseline>)
    requires BaselineDue(w, s, w.patience(s), out)
    ensures out.result.Success? ==> FirstTaken(w, s, out.next - s)
    ensures forall m: nat :: FirstTaken(w, s, m) ==> out.result.Success? && out.next == s + m
  {
    if out.result.Success? {
      assert out.next - s - 1 == out.next - 1 - s;
    }
    forall m: nat | FirstTaken(w, s, m)
      ensures out.result.Success? && out.next == s + m
    {
      assert TakenWithin(w, s, w.patience(s) + 1);
      BaselineSucceedsExactly(w, s, w.patience(s), out);
      assert out.next - s - 1 == out.next - 1 - s;
      OneFirstTaken(w, s, m, out.next - s);
    }
  }

  lemma StartsExactly(w: World, s: nat)
    ensures StartAt(w, s).result.Success? <==> w.startOk(s) && ReachesInTime(w, s + 1, true)
  {
    var next := s + 1;
    if WaitAt(w, next, true, w.patience(next)).result.Success? {
      var k := WaitReturns(w, next, true, w.patience(next));
      WaitEndsExactly(w, next, true, w.patience(next), k);
      assert Reaches(w, next, true, k);
    }
    if k: nat :| Reaches(w, next, true, k) {
      WaitEndsExactly(w, next, true, w.patience(next), k);
    }
  }

  lemma PreparedExactly(w: World, s: nat, captured: Looked<Baseline>, out: Looked<()>)
    requires PreparedWith(w, s + 1, w.docker(s) != Some(Stopped), captured, out)
    ensures out.result.Success? <==> exists m: nat :: PreparesAt(w, s, m)
  {
    BaselineTakenExactly(w, s + 1, captured);
    StartsExactly(w, captured.next);
    if out.result.Success? {
      var m := captured.next - (s + 1);
      assert s + 1 + m == captured.next && s + 2 + m == captured.next + 1;
      assert PreparesAt(w, s, m);
    }
    if m: nat :| PreparesAt(w, s, m) {
      assert FirstTaken(w, s + 1, m);
      assert s + 2 + m == captured.next + 1;
    }
  }

  // A preparation succeeds exactly if Docker is in a stable state, three readings are held in time, and Docker, if it
  // was off, starts and is seen running in time.
  lemma PrepareSucceedsExactly(w: World, s: nat, out: Looked<()>)
    requires PrepareDue(w, s, out)
    ensures out.result.Success? <==> PreparesWell(w, s)
  {
    if Stable(w.docker(s)) {
      var captured :| PreparedWith(w, s + 1, w.docker(s) == Some(Running), captured, out);
      PreparedExactly(w, s, captured, out);
    }
  }

  lemma PreparedIsDue(w: World, s: nat, running: bool, captured: Looked<Baseline>, out: Looked<()>)
    requires ProbeAt(w, s).result == Success(running) && PreparedWith(w, s + 1, running, captured, out)
    ensures PrepareDue(w, s, out)
    ensures out.result.Success? <==> PreparesWell(w, s)
    ensures captured.result.Success? <==> TakenInTime(w, s + 1)
  {
    PrepareSucceedsExactly(w, s, out);
    BaselineTakenExactly(w, s + 1, captured);
  }

  // ---------- the baseline ----------

  // The baseline is the card of the three readings, the least of their free memory and the middle one of their totals.
  lemma BaselineMeans(x: Reading, y: Reading, z: Reading)
    ensures var b := BaselineOf(x, y, z);
            && b.model == x.model
            && b.free <= x.free && b.free <= y.free && b.free <= z.free
            && (b.free == x.free || b.free == y.free || b.free == z.free)
            && IsMiddle(b.total, x.total, y.total, z.total)
  {
  }

  ghost predicate IsMiddle(m: real, x: real, y: real, z: real) {
    || (m == x && (y <= x <= z || z <= x <= y))
    || (m == y && (x <= y <= z || z <= y <= x))
    || (m == z && (x <= z <= y || y <= z <= x))
  }
}
