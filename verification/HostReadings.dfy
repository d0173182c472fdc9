// What a shared host answers, when its graphics card counts as idle as before, and
// which answers let each wait and each operation succeed.
module HostReadings {
  import opened Wrappers

  const OBSERVATIONS: nat := 3
  const MAX_UTILIZATION: real := 10.0
  const MIN_FREE_RATIO: real := 0.75
  const FREE_TOLERANCE: real := 256.0
  const TOTAL_TOLERANCE: real := 1.0

  datatype DockerState = Running | Stopped | Starting | Stopping | EngineUnavailable

  // One reading of the graphics card.
  datatype Reading = Reading(model: nat, utilization: real, free: real, total: real) {
    predicate Plausible() {
      0.0 <= utilization <= 100.0 && total > 0.0 && 0.0 <= free <= total
    }
  }

  datatype Baseline = Baseline(model: nat, free: real, total: real)

  // The commands sent, with their answers; `None` where the command failed or its answer made no sense.
  datatype Command =
    | Probe(state: Option<DockerState>)
    | Gpu(reading: Option<Reading>)
    | Containers(count: Option<nat>)
    | Start(ok: bool)
    | Stop(ok: bool)

  datatype Failure =
    | AlreadyPrepared | NotPrepared | ProbeFailed | StateChanged | TelemetryFailed | BaselineUnstable
    | RestoreTimeout | ListingFailed | NotEmpty | StartFailed | StopFailed | StartTimeout | StopTimeout
    | InitialUnknown | BaselineUnavailable

  // What the host answers to command number k, and how often a wait begun then may look again before its deadline.
  datatype World = World(
    docker: nat -> Option<DockerState>,
    gpu: nat -> Option<Reading>,
    containers: nat -> Option<nat>,
    startOk: nat -> bool,
    stopOk: nat -> bool,
    patience: nat -> nat)

  // ---------- readings ----------

  function Min(a: real, b: real): real {
    if a <= b then a else b
  }

  function Max(a: real, b: real): real {
    if a <= b then b else a
  }

  function Distance(a: real, b: real): real {
    if a <= b then b - a else a - b
  }

  // Idle readings of one card that agree with each other within the tolerances.
  ghost predicate Agree(readings: seq<Reading>) {
    && (forall i :: 0 <= i < |readings| ==> readings[i].utilization <= MAX_UTILIZATION)
    && forall i, j :: 0 <= i < |readings| && 0 <= j < |readings| ==> Alike(readings[i], readings[j])
  }

  predicate Alike(a: Reading, b: Reading) {
    && a.model == b.model
    && Distance(a.free, b.free) <= FREE_TOLERANCE
    && Distance(a.total, b.total) <= TOTAL_TOLERANCE
  }

  // Three readings agree exactly if they are idle, of one card, and close together.
  lemma AgreeMeans(a: Reading, b: Reading, c: Reading)
    ensures Agree([a, b, c]) <==>
            && a.utilization <= 10.0 && b.utilization <= 10.0 && c.utilization <= 10.0
            && a.model == b.model == c.model
            && Max(a.free, Max(b.free, c.free)) - Min(a.free, Min(b.free, c.free)) <= 256.0
            && Max(a.total, Max(b.total, c.total)) - Min(a.total, Min(b.total, c.total)) <= 1.0
  {
    var all := [a, b, c];
    assert all[0] == a && all[1] == b && all[2] == c;
    if Agree(all) {
      assert Alike(all[0], all[1]) && Alike(all[0], all[2]) && Alike(all[1], all[2]);
    }
  }

  // The reading is idle and like each of those held.
  predicate Fits(held: seq<Reading>, value: Reading) {
    if held == [] then value.utilization <= MAX_UTILIZATION
    else Alike(held[|held| - 1], value) && Fits(held[..|held| - 1], value)
  }

  lemma {:induction false} FitsMeans(held: seq<Reading>, value: Reading)
    ensures Fits(held, value) <==>
            value.utilization <= MAX_UTILIZATION && forall i :: 0 <= i < |held| ==> Alike(held[i], value)
    decreases |held|
  {
    if held != [] {
      FitsMeans(held[..|held| - 1], value);
    }
  }

  lemma FitsExactly(held: seq<Reading>, value: Reading)
    requires Agree(held)
    ensures Fits(held, value) <==> Agree(held + [value])
  {
    FitsMeans(held, value);
    var all := held + [value];
    assert all[|held|] == value && forall i :: 0 <= i < |held| ==> all[i] == held[i];
  }

  function Median(a: real, b: real, c: real): real {
    Max(Min(a, b), Min(Max(a, b), c))
  }

  function BaselineOf(a: Reading, b: Reading, c: Reading): Baseline {
    Baseline(a.model, Min(a.free, Min(b.free, c.free)), Median(a.total, b.total, c.total))
  }

  predicate Matches(r: Reading, b: Baseline) {
    && r.model == b.model
    && Distance(r.total, b.total) <= TOTAL_TOLERANCE
    && r.utilization <= MAX_UTILIZATION
    && r.total > 0.0 && r.free / r.total >= MIN_FREE_RATIO
  }

  // The last three commands read the card, and `readings` are the answers.
  ghost predicate JustRead(log: seq<Command>, readings: seq<Reading>) {
    && |readings| <= |log|
    && forall i :: 0 <= i < |readings| ==> log[|log| - |readings| + i] == Gpu(Some(readings[i]))
  }

  ghost predicate BaselineSeen(log: seq<Command>, b: Baseline) {
    exists x, y, z :: Agree([x, y, z]) && JustRead(log, [x, y, z]) && b == BaselineOf(x, y, z)
  }

  lemma ThreeAreABaseline(log: seq<Command>, readings: seq<Reading>)
    requires |readings| == OBSERVATIONS && Agree(readings) && JustRead(log, readings)
    ensures BaselineSeen(log, BaselineOf(readings[0], readings[1], readings[2]))
  {
    assert readings == [readings[0], readings[1], readings[2]];
  }

  // At some point the last three readings were the ones this baseline was taken from.
  ghost predicate BaselineWasSeen(log: seq<Command>, b: Baseline) {
    exists k: nat :: k <= |log| && BaselineSeen(log[..k], b)
  }

  lemma SeenStays(before: seq<Command>, log: seq<Command>, b: Baseline)
    requires before <= log && BaselineWasSeen(before, b)
    ensures BaselineWasSeen(log, b)
  {
    var k: nat :| k <= |before| && BaselineSeen(before[..k], b);
    assert log[..k] == before[..k];
  }

  ghost predicate RestoredSeen(log: seq<Command>, b: Baseline, readings: seq<Reading>) {
    |readings| == OBSERVATIONS && JustRead(log, readings) && forall r :: r in readings ==> Matches(r, b)
  }

  // ---------- what the answers come to ----------

  // A result, and the number of the next command.
  datatype Looked<+T> = Looked(result: Result<T, Failure>, next: nat)

  predicate Stable(state: Option<DockerState>) {
    state == Some(Running) || state == Some(Stopped)
  }

  function DockerAs(running: bool): DockerState {
    if running then Running else Stopped
  }

  function ReadingAt(w: World, s: nat): Option<Reading> {
    if w.gpu(s).Some? && w.gpu(s).value.Plausible() then w.gpu(s) else None
  }

  function ProbeAt(w: World, s: nat): Looked<bool> {
    Looked(if Stable(w.docker(s)) then Success(w.docker(s) == Some(Running)) else Failure(ProbeFailed), s + 1)
  }

  function WaitAt(w: World, s: nat, running: bool, patience: nat): Looked<()>
    decreases patience
  {
    if w.docker(s) == None then Looked(Failure(ProbeFailed), s + 1)
    else if w.docker(s) == Some(DockerAs(running)) then Looked(Success(()), s + 1)
    else if patience == 0 then Looked(Failure(if running then StartTimeout else StopTimeout), s + 1)
    else WaitAt(w, s + 1, running, patience - 1)
  }

  function EmptyAt(w: World, s: nat): Looked<()> {
    Looked(if w.containers(s) == None then Failure(ListingFailed)
           else if w.containers(s) != Some(0) then Failure(NotEmpty) else Success(()), s + 1)
  }

  // One more reading: it joins the ones collected, or the collection starts over with it or with nothing.
  ghost function Collected(consecutive: seq<Reading>, value: Reading): seq<Reading> {
    if Fits(consecutive, value) then consecutive + [value]
    else if value.utilization <= MAX_UTILIZATION then [value]
    else []
  }

  // What is held after the first `n` readings from `s` on.
  ghost function HeldAfter(w: World, s: nat, n: nat): seq<Reading> {
    if n == 0 || ReadingAt(w, s + n - 1) == None then []
    else Collected(HeldAfter(w, s, n - 1), ReadingAt(w, s + n - 1).value)
  }

  ghost predicate Readable(w: World, s: nat, n: nat) {
    forall j: nat :: s <= j < s + n ==> ReadingAt(w, j).Some?
  }

  ghost predicate TakenAfter(w: World, s: nat, n: nat) {
    Readable(w, s, n) && |HeldAfter(w, s, n)| == OBSERVATIONS
  }

  // The first `n` readings made sense and have not given a baseline.
  ghost predicate NotYet(w: World, s: nat, n: nat) {
    Readable(w, s, n) && forall m: nat :: m <= n ==> |HeldAfter(w, s, m)| < OBSERVATIONS
  }

  // A baseline is taken the first time that three readings are held; a reading that fails, or the end of the
  // patience, comes before that otherwise.
  ghost predicate BaselineDue(w: World, s: nat, patience: nat, out: Looked<Baseline>) {
    && s < out.next <= s + patience + 1
    && NotYet(w, s, out.next - 1 - s)
    && match out.result
       case Success(b) => TakenAfter(w, s, out.next - s) && b == BaselineOfThree(HeldAfter(w, s, out.next - s))
       case Failure(f) =>
         if ReadingAt(w, out.next - 1) == None then f == TelemetryFailed
         else f == BaselineUnstable && out.next == s + patience + 1 && NotYet(w, s, patience + 1)
  }

  function BaselineOfThree(readings: seq<Reading>): Baseline
    requires |readings| == OBSERVATIONS
  {
    BaselineOf(readings[0], readings[1], readings[2])
  }

  lemma CollectedAgree(held: seq<Reading>, value: Reading)
    requires Agree(held)
    ensures Agree(Collected(held, value))
  {
    FitsExactly(held, value);
  }

  lemma {:induction false} HeldAgree(w: World, s: nat, n: nat)
    ensures Agree(HeldAfter(w, s, n))
    decreases n
  {
    if n > 0 && ReadingAt(w, s + n - 1).Some? {
      HeldAgree(w, s, n - 1);
      CollectedAgree(HeldAfter(w, s, n - 1), ReadingAt(w, s + n - 1).value);
    }
  }

  lemma NextIsHeld(w: World, s: nat, n: nat, value: Reading, more: seq<Reading>)
    requires NotYet(w, s, n) && ReadingAt(w, s + n) == Some(value) && more == Collected(HeldAfter(w, s, n), value)
    ensures more == HeldAfter(w, s, n + 1) && Readable(w, s, n + 1) && |more| <= OBSERVATIONS
    ensures |more| == OBSERVATIONS <==> TakenAfter(w, s, n + 1)
    ensures |more| < OBSERVATIONS <==> NotYet(w, s, n + 1)
  {
    assert |HeldAfter(w, s, n)| < OBSERVATIONS;
  }

  lemma DueOnFailure(w: World, s: nat, patience: nat, n: nat)
    requires NotYet(w, s, n) && n <= patience && ReadingAt(w, s + n) == None
    ensures BaselineDue(w, s, patience, Looked(Failure(TelemetryFailed), s + n + 1))
  {
    assert s + n + 1 - 1 - s == n && s + n + 1 - 1 == s + n;
  }

  lemma DueOnThree(w: World, s: nat, patience: nat, n: nat, log: seq<Command>, held: seq<Reading>)
    requires NotYet(w, s, n) && n <= patience && TakenAfter(w, s, n + 1) && held == HeldAfter(w, s, n + 1)
    requires JustRead(log, held)
    ensures BaselineDue(w, s, patience, Looked(Success(BaselineOfThree(held)), s + n + 1))
    ensures BaselineSeen(log, BaselineOfThree(held))
  {
    assert s + n + 1 - 1 - s == n && s + n + 1 - s == n + 1;
    HeldAgree(w, s, n + 1);
    ThreeAreABaseline(log, held);
  }

  lemma DueOnDeadline(w: World, s: nat, n: nat)
    requires NotYet(w, s, n + 1)
    ensures BaselineDue(w, s, n, Looked(Failure(BaselineUnstable), s + n + 1))
  {
    assert s + n + 1 - 1 - s == n && s + n + 1 - 1 == s + n;
  }

  function RestoredAt(w: World, s: nat, b: Baseline, consecutive: seq<Reading>, patience: nat): Looked<seq<Reading>>
    decreases patience
  {
    if ReadingAt(w, s) == None then Looked(Failure(TelemetryFailed), s + 1)
    else
      var value := ReadingAt(w, s).value;
      var more := if Matches(value, b) then consecutive + [value] else [];
      if |more| == OBSERVATIONS then Looked(Success(more), s + 1)
      else if patience == 0 then Looked(Failure(RestoreTimeout), s + 1)
      else RestoredAt(w, s + 1, b, more, patience - 1)
  }

  // Stopping Docker, once no container is left.
  function StopAt(w: World, s: nat): Looked<()> {
    var none := EmptyAt(w, s);
    if none.result.Failure? then none
    else StopSentAt(w, s + 1)
  }

  function StopSentAt(w: World, s: nat): Looked<()> {
    if !w.stopOk(s) then Looked(Failure(StopFailed), s + 1) else WaitAt(w, s + 1, false, w.patience(s + 1))
  }

  function ReturnAt(w: World, s: nat, initial: bool): Looked<()> {
    var running := ProbeAt(w, s);
    if running.result.Failure? then Looked(Failure(running.result.error), running.next)
    else if !running.result.value then Looked(Failure(StateChanged), running.next)
    else if initial then Looked(Success(()), running.next)
    else StopAt(w, running.next)
  }

  function SameDockerAt(w: World, s: nat, initial: bool): Looked<()> {
    var running := ProbeAt(w, s);
    if running.result.Failure? then Looked(Failure(running.result.error), running.next)
    else if running.result.value != initial then Looked(Failure(StateChanged), running.next)
    else if initial then EmptyAt(w, running.next)
    else Looked(Success(()), running.next)
  }

  function CheckAt(w: World, s: nat, initial: bool, b: Baseline): Looked<seq<Reading>> {
    var post := RestoredAt(w, s, b, [], w.patience(s));
    if post.result.Failure? then post
    else
      var same := SameDockerAt(w, post.next, initial);
      if same.result.Failure? then Looked(Failure(same.result.error), same.next) else Looked(post.result, same.next)
  }

  function FinishAt(w: World, s: nat, initial: bool, b: Baseline): Looked<seq<Reading>> {
    var returned := ReturnAt(w, s, initial);
    if returned.result.Failure? then Looked(Failure(returned.result.error), returned.next)
    else CheckAt(w, returned.next, initial, b)
  }

  function StartAt(w: World, s: nat): Looked<()> {
    if !w.startOk(s) then Looked(Failure(StartFailed), s + 1) else WaitAt(w, s + 1, true, w.patience(s + 1))
  }

  ghost predicate PrepareDue(w: World, s: nat, out: Looked<()>) {
    var running := ProbeAt(w, s);
    if running.result.Failure? then out == Looked(Failure(running.result.error), running.next)
    else exists captured :: PreparedWith(w, running.next, running.result.value, captured, out)
  }

  // The baseline taken from command `s` on came to this, and Docker, if it is off, is started after it.
  ghost predicate PreparedWith(w: World, s: nat, running: bool, captured: Looked<Baseline>, out: Looked<()>) {
    && BaselineDue(w, s, w.patience(s), captured)
    && match captured.result
       case Failure(f) => out == Looked(Failure(f), captured.next)
       case Success(_) => out == if running then Looked(Success(()), captured.next) else StartAt(w, captured.next)
  }

  function UndoAt(w: World, s: nat, initial: bool, attempted: bool): Looked<()> {
    if w.docker(s) == None then Looked(Failure(ProbeFailed), s + 1)
    else if initial then
      Looked(if w.docker(s) == Some(Running) then Success(()) else Failure(StateChanged), s + 1)
    else if w.docker(s) == Some(Stopped) then Looked(Success(()), s + 1)
    else if !attempted then Looked(Failure(StateChanged), s + 1)
    else StopWhenRunningAt(w, s + 1, w.docker(s).value)
  }

  // Undoing a start and then the last checks, up to the first failure.
  function TriedAt(w: World, s: nat, initial: bool, attempted: bool, b: Baseline): Looked<seq<Reading>> {
    var undone := UndoAt(w, s, initial, attempted);
    if undone.result.Failure? then Looked(Failure(undone.result.error), undone.next)
    else CheckAt(w, undone.next, initial, b)
  }

  function StopWhenRunningAt(w: World, s: nat, state: DockerState): Looked<()> {
    if state == Running then StopAt(w, s)
    else
      var waited := WaitAt(w, s, true, w.patience(s));
      if waited.result.Failure? then waited else StopAt(w, waited.next)
  }

  // ---------- when a wait succeeds ----------

  // Command `k` is the first to find Docker so, or a later one, and no probe from `s` on failed before.
  ghost predicate SeenAt(w: World, s: nat, running: bool, k: nat) {
    s <= k && w.docker(k) == Some(DockerAs(running)) && forall j: nat :: s <= j < k ==> w.docker(j).Some?
  }

  // The wait succeeds exactly if Docker gets there within its patience and no probe fails before.
  lemma {:induction false} WaitSucceedsExactly(w: World, s: nat, running: bool, patience: nat)
    ensures WaitAt(w, s, running, patience).result.Success? <==>
            exists k: nat :: k <= s + patience && SeenAt(w, s, running, k)
    decreases patience
  {
    if w.docker(s) == Some(DockerAs(running)) {
      assert SeenAt(w, s, running, s);
    } else if w.docker(s).Some? && patience > 0 {
      WaitSucceedsExactly(w, s + 1, running, patience - 1);
      var next := s + 1;
      if k: nat :| k <= s + patience && SeenAt(w, s, running, k) {
        assert SeenAt(w, next, running, k);
      }
      if k: nat :| k <= s + patience && SeenAt(w, next, running, k) {
        assert SeenAt(w, s, running, k);
      }
    }
  }

  predicate MatchesAt(w: World, b: Baseline, k: nat) {
    ReadingAt(w, k).Some? && Matches(ReadingAt(w, k).value, b)
  }

  // The readings up to `k` all made sense, and the last three match.
  ghost predicate ThreeMatch(w: World, s: nat, b: Baseline, k: nat) {
    && s + 2 <= k && MatchesAt(w, b, k - 2) && MatchesAt(w, b, k - 1) && MatchesAt(w, b, k)
    && forall j: nat :: s <= j <= k ==> ReadingAt(w, j).Some?
  }

  // `run` is the matching readings right before `s`, back to the last that did not match or to the beginning.
  ghost predicate RunBefore(w: World, from: nat, b: Baseline, s: nat, run: seq<Reading>) {
    && |run| < OBSERVATIONS && from + |run| <= s
    && (forall k: nat :: s - |run| <= k < s ==> MatchesAt(w, b, k))
    && (from + |run| < s ==> !MatchesAt(w, b, s - |run| - 1))
    && forall j: nat :: from <= j < s ==> ReadingAt(w, j).Some?
  }

  // The wait for the card succeeds exactly if some three readings in a row match within its patience and none fails
  // before.
  lemma RestoreSucceedsExactly(w: World, s: nat, b: Baseline, patience: nat)
    ensures RestoredAt(w, s, b, [], patience).result.Success? <==>
            exists k: nat :: k <= s + patience && ThreeMatch(w, s, b, k)
  {
    RestoreGoesOn(w, s, s, b, [], patience);
  }

  lemma {:induction false} RestoreGoesOn(w: World, from: nat, s: nat, b: Baseline, run: seq<Reading>, patience: nat)
    requires RunBefore(w, from, b, s, run)
    ensures RestoredAt(w, s, b, run, patience).result.Success? <==>
            exists k: nat :: s <= k <= s + patience && ThreeMatch(w, from, b, k)
    decreases patience
  {
    if ReadingAt(w, s).Some? {
      ThreeEndHere(w, from, s, b, run);
      var more := if MatchesAt(w, b, s) then run + [ReadingAt(w, s).value] else [];
      if |more| < OBSERVATIONS && patience > 0 {
        RunGoesOn(w, from, s, b, run);
        RestoreGoesOn(w, from, s + 1, b, more, patience - 1);
      }
    }
  }

  lemma ThreeEndHere(w: World, from: nat, s: nat, b: Baseline, run: seq<Reading>)
    requires RunBefore(w, from, b, s, run) && ReadingAt(w, s).Some?
    ensures ThreeMatch(w, from, b, s) <==> MatchesAt(w, b, s) && |run| == 2
  {
    if |run| == 2 {
      assert MatchesAt(w, b, s - 2) && MatchesAt(w, b, s - 1);
    }
  }

  lemma RunGoesOn(w: World, from: nat, s: nat, b: Baseline, run: seq<Reading>)
    requires RunBefore(w, from, b, s, run) && ReadingAt(w, s).Some? && (MatchesAt(w, b, s) ==> |run| < 2)
    ensures RunBefore(w, from, b, s + 1, if MatchesAt(w, b, s) then run + [ReadingAt(w, s).value] else [])
  {
  }

  // ---------- which readings become the baseline ----------

  // What is held after these readings, one collection after the other.
  ghost function Held(readings: seq<Reading>): seq<Reading> {
    if readings == [] then [] else Collected(Held(readings[..|readings| - 1]), readings[|readings| - 1])
  }

  lemma {:induction false} HeldIsOfReadings(w: World, s: nat, readings: seq<Reading>)
    requires forall i :: 0 <= i < |readings| ==> ReadingAt(w, s + i) == Some(readings[i])
    ensures Held(readings) == HeldAfter(w, s, |readings|)
    decreases |readings|
  {
    if readings != [] {
      HeldIsOfReadings(w, s, readings[..|readings| - 1]);
    }
  }

  // Three readings are held at once after some number of readings, up to `to`.
  ghost predicate TakenWithin(w: World, s: nat, to: nat) {
    exists m: nat :: m <= to && TakenAfter(w, s, m)
  }

  // Whatever comes of taking a baseline, it succeeds exactly if three readings are held at once within the patience,
  // before any reading fails; and there is one outcome only.
  lemma BaselineSucceedsExactly(w: World, s: nat, patience: nat, out: Looked<Baseline>)
    requires BaselineDue(w, s, patience, out)
    ensures out.result.Success? <==> TakenWithin(w, s, patience + 1)
  {
    if m: nat :| m <= patience + 1 && TakenAfter(w, s, m) {
      assert out.next - s <= m;
      assert s + (out.next - 1 - s) == out.next - 1 && ReadingAt(w, out.next - 1).Some?;
    }
  }

  lemma BaselineIsDetermined(w: World, s: nat, patience: nat, a: Looked<Baseline>, b: Looked<Baseline>)
    requires BaselineDue(w, s, patience, a) && BaselineDue(w, s, patience, b)
    ensures a == b
  {
    NeverEarlier(w, s, patience, a, b);
    NeverEarlier(w, s, patience, b, a);
  }

  lemma NeverEarlier(w: World, s: nat, patience: nat, a: Looked<Baseline>, b: Looked<Baseline>)
    requires BaselineDue(w, s, patience, a) && BaselineDue(w, s, patience, b)
    ensures b.next <= a.next
  {
  }

  lemma {:induction false} HeldReadingsAgree(readings: seq<Reading>)
    ensures Agree(Held(readings))
    decreases |readings|
  {
    if readings != [] {
      HeldReadingsAgree(readings[..|readings| - 1]);
      CollectedAgree(Held(readings[..|readings| - 1]), readings[|readings| - 1]);
    }
  }

  // A collection begins with reading `i`: nothing was held, or not in agreement with it.
  ghost predicate BeginsAt(readings: seq<Reading>, i: nat)
    requires i < |readings|
  {
    Held(readings[..i]) == [] || !Agree(Held(readings[..i]) + [readings[i]])
  }

  // Three readings in a row become the baseline exactly if they agree and a collection begins with the first of them.
  lemma {:induction false} ThreeAreTakenExactly(readings: seq<Reading>, i: nat)
    requires i + 3 <= |readings|
    ensures Held(readings[..i + 3]) == readings[i..i + 3] <==> Agree(readings[i..i + 3]) && BeginsAt(readings, i)
  {
    var a, b, c := readings[i], readings[i + 1], readings[i + 2];
    assert readings[i..i + 3] == [a, b, c];
    HeldAt(readings, i);
    HeldAt(readings, i + 1);
    HeldAt(readings, i + 2);
    HeldReadingsAgree(readings[..i]);
    OneHeld(Held(readings[..i]), a);
    TwoHeld(Held(readings[..i + 1]), a, b);
    ThreeHeld(Held(readings[..i + 2]), a, b, c);
  }

  lemma {:induction false} HeldAt(readings: seq<Reading>, i: nat)
    requires i < |readings|
    ensures Held(readings[..i + 1]) == Collected(Held(readings[..i]), readings[i])
  {
    HeldNext(readings[..i], readings[i]);
    assert readings[..i] + [readings[i]] == readings[..i + 1];
  }

  lemma OneHeld(held: seq<Reading>, a: Reading)
    requires Agree(held)
    ensures Collected(held, a) == [a] <==> a.utilization <= MAX_UTILIZATION && (held == [] || !Agree(held + [a]))
  {
    FitsExactly(held, a);
    assert held == [] ==> held + [a] == [a];
  }

  lemma TwoHeld(held: seq<Reading>, a: Reading, b: Reading)
    ensures Collected(held, b) == [a, b] <==> held == [a] && Fits([a], b)
  {
    if Collected(held, b) == [a, b] {
      assert held + [b] == [a, b] && (held + [b])[..1] == held;
    }
    assert [a] + [b] == [a, b];
  }

  lemma ThreeHeld(held: seq<Reading>, a: Reading, b: Reading, c: Reading)
    ensures Collected(held, c) == [a, b, c] <==> held == [a, b] && Fits([a, b], c)
    ensures Agree([a, b, c]) <==> a.utilization <= MAX_UTILIZATION && Fits([a], b) && Fits([a, b], c)
  {
    if Collected(held, c) == [a, b, c] {
      assert held + [c] == [a, b, c] && (held + [c])[..2] == held;
    }
    assert [a] + [b] == [a, b] && [a, b] + [c] == [a, b, c];
    OneAgrees(a);
    if a.utilization <= MAX_UTILIZATION {
      FitsExactly([a], b);
    }
    if Agree([a, b]) {
      FitsExactly([a, b], c);
    }
    if Agree([a, b, c]) {
      FewerAgree([a, b], c);
      FewerAgree([a], b);
    }
  }

  lemma FitsFew(a: Reading, b: Reading, c: Reading)
    ensures Fits([a], c) <==> c.utilization <= MAX_UTILIZATION && Alike(a, c)
    ensures Fits([a, b], c) <==> c.utilization <= MAX_UTILIZATION && Alike(a, c) && Alike(b, c)
  {
    FitsMeans([a], c);
    FitsMeans([a, b], c);
    assert [a][0] == a && [a, b][0] == a && [a, b][1] == b;
  }

  lemma OneAgrees(a: Reading)
    ensures Agree([a]) <==> a.utilization <= MAX_UTILIZATION
  {
    assert [a][0] == a;
  }

  lemma FewerAgree(held: seq<Reading>, value: Reading)
    requires Agree(held + [value])
    ensures Agree(held)
  {
    assert forall i :: 0 <= i < |held| ==> (held + [value])[i] == held[i];
  }

  function Idle(free: real): Reading {
    Reading(1, 0.0, free, 24000.0)
  }

  // The last three of these agree, yet only two are held: the second one belongs to an earlier collection.
  lemma AgreeingReadingsAreMissed()
    ensures var readings := [Idle(9000.0), Idle(9200.0), Idle(9400.0), Idle(9300.0)];
            Agree(readings[1..]) && Held(readings) == readings[2..]
  {
    var a, b, c, d := Idle(9000.0), Idle(9200.0), Idle(9400.0), Idle(9300.0);
    assert [a, b, c, d][1..] == [b, c, d] && [a, b, c, d][2..] == [c, d];
    ThreeHeld([], b, c, d);
    FitsFew(b, c, d);
    FitsFew(b, b, c);
    FitsFew(a, b, c);
    FitsFew(a, a, b);
    FitsFew(c, c, d);
    HeldFour(a, b, c, d);
  }

  lemma HeldFour(a: Reading, b: Reading, c: Reading, d: Reading)
    requires a.utilization <= MAX_UTILIZATION && c.utilization <= MAX_UTILIZATION
    requires Fits([a], b) && !Fits([a, b], c) && Fits([c], d)
    ensures Held([a, b, c, d]) == [c, d]
  {
    HeldFirst(a);
    HeldNext([a], b);
    assert [a] + [b] == [a, b];
    HeldNext([a, b], c);
    assert [a, b] + [c] == [a, b, c];
    HeldNext([a, b, c], d);
    assert [a, b, c] + [d] == [a, b, c, d] && [c] + [d] == [c, d];
  }

  lemma HeldFirst(a: Reading)
    requires a.utilization <= MAX_UTILIZATION
    ensures Held([a]) == [a]
  {
    assert [a][..0] == [];
    assert [] + [a] == [a];
  }

  lemma HeldNext(readings: seq<Reading>, value: Reading)
    ensures Held(readings + [value]) == Collected(Held(readings), value)
  {
    assert (readings + [value])[..|readings|] == readings;
  }
}
