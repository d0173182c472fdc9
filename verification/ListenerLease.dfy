// The voice listener's tasks and the input lease they run under, over all
// interleavings of binding, listening, tasks ending, stopping and releasing.
module ListenerLease {
  import opened Wrappers
  import TextBoundaries

  // `generation` is what the task's end is reported with; `cancelRequested` and `finished` are the event loop's view.
  datatype Task = Task(listener: bool, generation: nat, cancelRequested: bool, finished: bool, reported: bool)

  // A release in progress: it waits for the tasks that the same stop cancelled.
  datatype Release = Release(lease: nat, waitsFor: set<nat>, called: bool, ended: bool)

  // Tasks and leases are numbered in the order they appear. `failures` holds the generations whose task failure
  // was passed on, `releasedOrder` the leases in the order they were given back.
  datatype Listener = Listener(
    tasks: seq<Task>,
    receive: Option<nat>, decrypt: Option<nat>, utterance: Option<nat>,
    processing: set<nat>,
    generation: nat,
    bound: Option<nat>, leases: nat,
    releases: seq<Release>,
    failures: seq<nat>,
    releasedOrder: seq<nat>)

  const IDLE := Listener([], None, None, None, {}, 0, None, 0, [], [], [])

  datatype Event =
    | Bind
    | Listen
    | Spawn
    | Finish(task: nat)
    | Report(reportedTask: nat, asCancelled: bool)
    | Stop
    | CallRelease(release: nat)
    | EndRelease(ended: nat)

  // ---------- the operations ----------

  function Slots(s: Listener): set<nat> {
    (if s.receive.Some? then {s.receive.value} else {}) +
    (if s.decrypt.Some? then {s.decrypt.value} else {}) +
    (if s.utterance.Some? then {s.utterance.value} else {})
  }

  // The tasks a stop cancels.
  function Owned(s: Listener): set<nat> {
    Slots(s) + s.processing
  }

  function NewTask(s: Listener, listener: bool): Listener {
    s.(tasks := s.tasks + [Task(listener, s.generation, false, false, false)])
  }

  function StartReceive(s: Listener): Listener {
    if s.receive.Some? then s else NewTask(s, true).(receive := Some(|s.tasks|))
  }

  function StartDecrypt(s: Listener): Listener {
    if s.decrypt.Some? then s else NewTask(s, true).(decrypt := Some(|s.tasks|))
  }

  function StartUtterance(s: Listener): Listener {
    if s.utterance.Some? then s else NewTask(s, true).(utterance := Some(|s.tasks|))
  }

  function Cancelled(tasks: seq<Task>, which: set<nat>): (r: seq<Task>)
    ensures |r| == |tasks|
    ensures forall i :: 0 <= i < |tasks| ==> r[i] == if i in which then tasks[i].(cancelRequested := true) else tasks[i]
  {
    seq(|tasks|, i requires 0 <= i < |tasks| => if i in which then tasks[i].(cancelRequested := true) else tasks[i])
  }

  function Stopped(s: Listener): Listener {
    var release := if s.bound.Some? then [Release(s.bound.value, Owned(s), false, false)] else [];
    s.(generation := s.generation + 1,
       tasks := Cancelled(s.tasks, Owned(s)),
       receive := None, decrypt := None, utterance := None, processing := {},
       bound := None, releases := s.releases + release)
  }

  // A step is possible when its task is in the state for it. Work is only started by a task that runs and
  // has not been asked to stop: either the utterance loop or an utterance being processed.
  predicate Enabled(s: Listener, e: Event) {
    match e
    case Bind => s.bound == None
    case Listen => s.bound.Some?
    case Spawn => exists t :: t in s.processing + (if s.utterance.Some? then {s.utterance.value} else {})
                              && t < |s.tasks| && !s.tasks[t].cancelRequested && !s.tasks[t].finished
    case Finish(t) => t < |s.tasks| && !s.tasks[t].finished
    case Report(t, _) => t < |s.tasks| && s.tasks[t].listener && s.tasks[t].finished && !s.tasks[t].reported
    case Stop => true
    case CallRelease(r) =>
      r < |s.releases| && !s.releases[r].called
      && forall t :: t in s.releases[r].waitsFor ==> t < |s.tasks| && s.tasks[t].finished
    case EndRelease(r) => r < |s.releases| && s.releases[r].called && !s.releases[r].ended
  }

  function Step(s: Listener, e: Event): Listener
    requires Enabled(s, e)
  {
    match e
    case Bind => s.(bound := Some(s.leases), leases := s.leases + 1)
    case Listen => StartUtterance(StartDecrypt(StartReceive(s)))
    case Spawn => NewTask(s, false).(processing := s.processing + {|s.tasks|})
    case Finish(t) =>
      s.(tasks := s.tasks[t := s.tasks[t].(finished := true)], processing := s.processing - {t})
    case Report(t, asCancelled) =>
      var seen := Marked(s, t);
      if asCancelled || s.tasks[t].generation != s.generation then seen
      else Stopped(seen).(failures := s.failures + [s.tasks[t].generation])
    case Stop => Stopped(s)
    case CallRelease(r) =>
      s.(releases := s.releases[r := s.releases[r].(called := true)],
         releasedOrder := s.releasedOrder + [s.releases[r].lease])
    case EndRelease(r) => s.(releases := s.releases[r := s.releases[r].(ended := true)])
  }

  // ---------- runs ----------

  ghost predicate Runs(events: seq<Event>, s: Listener)
    decreases |events|
  {
    if events == [] then s == IDLE
    else exists before :: Runs(AllBut(events), before) && Steps(before, LastOf(events), s)
  }

  ghost predicate Steps(before: Listener, e: Event, s: Listener) {
    Enabled(before, e) && s == Step(before, e)
  }

  function AllBut(events: seq<Event>): seq<Event>
    requires events != []
  {
    events[..|events| - 1]
  }

  function LastOf(events: seq<Event>): Event
    requires events != []
  {
    events[|events| - 1]
  }

  // ---------- the invariant ----------

  // A task that may still do work: running and not asked to stop.
  predicate Active(s: Listener, t: nat) {
    t < |s.tasks| && !s.tasks[t].finished && !s.tasks[t].cancelRequested
  }

  ghost predicate TasksOwned(s: Listener) {
    && (forall t :: t in Owned(s) ==> t < |s.tasks|)
    && (forall t: nat :: Active(s, t) ==> t in Owned(s))
    && (Owned(s) != {} ==> s.bound.Some?)
    && (forall t :: 0 <= t < |s.tasks| ==> s.tasks[t].generation <= s.generation)
  }

  // Each lease ever bound is the one bound now or belongs to exactly one release.
  ghost predicate LeasesAccounted(s: Listener) {
    && (s.bound.Some? ==> s.bound.value < s.leases)
    && (forall i :: 0 <= i < |s.releases| ==> s.releases[i].lease < s.leases && s.bound != Some(s.releases[i].lease))
    && (forall i, j :: 0 <= i < j < |s.releases| ==> s.releases[i].lease != s.releases[j].lease)
    && s.leases == |s.releases| + (if s.bound.Some? then 1 else 0)
  }

  // What a release waits for was cancelled, and it was called only once that had finished.
  ghost predicate ReleasesWaited(s: Listener) {
    forall i :: 0 <= i < |s.releases| ==>
      && (forall t :: t in s.releases[i].waitsFor ==> t < |s.tasks| && s.tasks[t].cancelRequested)
      && (s.releases[i].called ==> forall t :: t in s.releases[i].waitsFor ==> s.tasks[t].finished)
      && (s.releases[i].ended ==> s.releases[i].called)
      && (s.releases[i].called <==> s.releases[i].lease in s.releasedOrder)
  }

  ghost predicate ReleasedOnce(s: Listener) {
    && (forall i, j :: 0 <= i < j < |s.releasedOrder| ==> s.releasedOrder[i] != s.releasedOrder[j])
    && (forall l :: l in s.releasedOrder ==> exists r :: 0 <= r < |s.releases| && s.releases[r].lease == l)
  }

  ghost predicate FailuresOnce(s: Listener) {
    && (forall i :: 0 <= i < |s.failures| ==> s.failures[i] < s.generation)
    && (forall i, j :: 0 <= i < j < |s.failures| ==> s.failures[i] < s.failures[j])
  }

  ghost predicate Inv(s: Listener) {
    TasksOwned(s) && LeasesAccounted(s) && ReleasesWaited(s) && ReleasedOnce(s) && FailuresOnce(s)
  }

  lemma StopKeepsInv(s: Listener)
    requires Inv(s)
    ensures Inv(Stopped(s))
    ensures forall t: nat :: !Active(Stopped(s), t)
  {
    var next := Stopped(s);
    forall t: nat
      ensures !Active(next, t)
    {
      if Active(next, t) {
        assert Active(s, t);
      }
    }
    if s.bound.Some? {
      var l := s.bound.value;
      assert l !in s.releasedOrder;
      forall t | t in Owned(s)
        ensures t < |next.tasks| && next.tasks[t].cancelRequested
      {
      }
    }
    forall l | l in next.releasedOrder
      ensures exists r :: 0 <= r < |next.releases| && next.releases[r].lease == l
    {
      var r :| 0 <= r < |s.releases| && s.releases[r].lease == l;
      assert next.releases[r].lease == l;
    }
  }

  lemma NewTaskKeepsInv(s: Listener, listener: bool, next: Listener)
    requires Inv(s) && s.bound.Some?
    requires next.tasks == NewTask(s, listener).tasks
    requires Owned(next) == Owned(s) + {|s.tasks|}
    requires next.(tasks := s.tasks, receive := s.receive, decrypt := s.decrypt, utterance := s.utterance,
                   processing := s.processing) == s
    ensures Inv(next)
  {
    forall t: nat | Active(next, t)
      ensures t in Owned(next)
    {
      if t < |s.tasks| {
        assert Active(s, t);
      }
    }
  }

  lemma ListenKeepsInv(s: Listener)
    requires Inv(s) && s.bound.Some?
    ensures Inv(Step(s, Listen))
  {
    var a := StartReceive(s);
    if s.receive == None {
      NewTaskKeepsInv(s, true, a);
    }
    var b := StartDecrypt(a);
    if a.decrypt == None {
      NewTaskKeepsInv(a, true, b);
    }
    if b.utterance == None {
      NewTaskKeepsInv(b, true, StartUtterance(b));
    }
  }

  lemma FinishKeepsInv(s: Listener, t: nat)
    requires Inv(s) && Enabled(s, Finish(t))
    ensures Inv(Step(s, Finish(t)))
  {
    var next := Step(s, Finish(t));
    forall u: nat | Active(next, u)
      ensures u in Owned(next)
    {
      assert Active(s, u);
    }
    assert Owned(next) <= Owned(s);
  }

  // Steps that touch only the releases and the records of what happened.
  lemma TasksStayOwned(s: Listener, next: Listener)
    requires TasksOwned(s)
    requires next.(releases := s.releases, releasedOrder := s.releasedOrder, failures := s.failures) == s
    ensures TasksOwned(next)
  {
    assert Owned(next) == Owned(s);
    assert forall t: nat :: Active(next, t) <==> Active(s, t);
  }

  lemma CallKeepsInv(s: Listener, r: nat)
    requires Inv(s) && Enabled(s, CallRelease(r))
    ensures Inv(Step(s, CallRelease(r)))
  {
    var next := Step(s, CallRelease(r));
    assert s.releases[r].lease !in s.releasedOrder;
    TasksStayOwned(s, next);
    forall l | l in next.releasedOrder
      ensures exists k :: 0 <= k < |next.releases| && next.releases[k].lease == l
    {
      if l == s.releases[r].lease {
        assert next.releases[r].lease == l;
      } else {
        var k :| 0 <= k < |s.releases| && s.releases[k].lease == l;
        assert next.releases[k].lease == l;
      }
    }
  }

  lemma EndKeepsInv(s: Listener, r: nat)
    requires Inv(s) && Enabled(s, EndRelease(r))
    ensures Inv(Step(s, EndRelease(r)))
  {
    var next := Step(s, EndRelease(r));
    TasksStayOwned(s, next);
    forall l | l in next.releasedOrder
      ensures exists k :: 0 <= k < |next.releases| && next.releases[k].lease == l
    {
      var k :| 0 <= k < |s.releases| && s.releases[k].lease == l;
      assert next.releases[k].lease == l;
    }
  }

  function Marked(s: Listener, t: nat): Listener
    requires t < |s.tasks|
  {
    s.(tasks := s.tasks[t := s.tasks[t].(reported := true)])
  }

  lemma MarkKeepsInv(s: Listener, t: nat)
    requires Inv(s) && t < |s.tasks|
    ensures Inv(Marked(s, t))
  {
    assert Owned(Marked(s, t)) == Owned(s);
    assert forall u: nat :: Active(Marked(s, t), u) <==> Active(s, u);
  }

  // Recording the generation that a stop has just ended.
  lemma FailureKeepsInv(s: Listener)
    requires Inv(s) && s.generation > 0 && forall i :: 0 <= i < |s.failures| ==> s.failures[i] < s.generation - 1
    ensures Inv(s.(failures := s.failures + [s.generation - 1]))
  {
    TasksStayOwned(s, s.(failures := s.failures + [s.generation - 1]));
  }

  lemma ReportKeepsInv(s: Listener, t: nat, asCancelled: bool)
    requires Inv(s) && Enabled(s, Report(t, asCancelled))
    ensures Inv(Step(s, Report(t, asCancelled)))
  {
    MarkKeepsInv(s, t);
    StopKeepsInv(Marked(s, t));
    FailureKeepsInv(Stopped(Marked(s, t)));
  }

  lemma StepKeepsInv(s: Listener, e: Event)
    requires Inv(s) && Enabled(s, e)
    ensures Inv(Step(s, e))
  {
    match e
    case Bind =>
      assert forall t: nat :: Active(Step(s, e), t) <==> Active(s, t);
    case Listen => ListenKeepsInv(s);
    case Spawn => NewTaskKeepsInv(s, false, Step(s, e));
    case Finish(t) => FinishKeepsInv(s, t);
    case Report(t, asCancelled) => ReportKeepsInv(s, t, asCancelled);
    case Stop => StopKeepsInv(s);
    case CallRelease(r) => CallKeepsInv(s, r);
    case EndRelease(r) => EndKeepsInv(s, r);
  }

  lemma {:induction false} RunsKeepInv(events: seq<Event>, s: Listener)
    requires Runs(events, s)
    ensures Inv(s)
    decreases |events|
  {
    if events != [] {
      var before :| Runs(AllBut(events), before) && Steps(before, LastOf(events), s);
      RunsKeepInv(AllBut(events), before);
      StepKeepsInv(before, LastOf(events));
    }
  }

  // ---------- what holds over every interleaving ----------

  // No task works without a lease, and a lease is given back at most once.
  lemma LeasesAreSafe(events: seq<Event>, s: Listener)
    requires Runs(events, s)
    ensures forall t: nat :: Active(s, t) ==> s.bound.Some?
    ensures forall i, j :: 0 <= i < j < |s.releasedOrder| ==> s.releasedOrder[i] != s.releasedOrder[j]
    ensures s.bound.Some? ==> s.bound.value !in s.releasedOrder
  {
    RunsKeepInv(events, s);
    forall t: nat | Active(s, t)
      ensures s.bound.Some?
    {
      assert t in Owned(s);
    }
  }

  // When a lease is given back, every task that could work when it was stopped has finished.
  lemma ReleasedAfterItsTasks(events: seq<Event>, s: Listener, r: nat)
    requires Runs(events, s) && r < |s.releases| && s.releases[r].called
    ensures forall t :: t in s.releases[r].waitsFor ==> t < |s.tasks| && s.tasks[t].finished
  {
    RunsKeepInv(events, s);
  }

  lemma StopWaitsForAllWork(events: seq<Event>, s: Listener)
    requires Runs(events, s) && s.bound.Some?
    ensures var next := Step(s, Stop);
            && |next.releases| == |s.releases| + 1
            && next.releases[|s.releases|].lease == s.bound.value
            && (forall t: nat :: Active(s, t) ==> t in next.releases[|s.releases|].waitsFor)
            && forall t: nat :: !Active(next, t)
  {
    RunsKeepInv(events, s);
    StopKeepsInv(s);
  }

  // Each generation reports at most one failed task, in increasing order, and a report always ends its generation.
  lemma OneFailurePerGeneration(events: seq<Event>, s: Listener)
    requires Runs(events, s)
    ensures forall i, j :: 0 <= i < j < |s.failures| ==> s.failures[i] < s.failures[j]
    ensures forall i :: 0 <= i < |s.failures| ==> s.failures[i] < s.generation
  {
    RunsKeepInv(events, s);
  }

  // ---------- the three loops ----------

  // The task runs one of the loops of this generation.
  predicate LoopOf(s: Listener, t: nat) {
    t < |s.tasks| && s.tasks[t].listener && s.tasks[t].generation == s.generation
  }

  // All three slots are filled or none is, with three different tasks, and they hold every loop of this generation.
  ghost predicate SlotsTogether(s: Listener) {
    && (s.receive.Some? <==> s.decrypt.Some?) && (s.decrypt.Some? <==> s.utterance.Some?)
    && (s.receive.Some? ==> s.receive != s.decrypt && s.receive != s.utterance && s.decrypt != s.utterance)
    && (forall t: nat :: InSlot(s, t) <==> LoopOf(s, t))
    && forall t: nat :: t < |s.tasks| ==> s.tasks[t].generation <= s.generation
  }

  predicate InSlot(s: Listener, t: nat) {
    s.receive == Some(t) || s.decrypt == Some(t) || s.utterance == Some(t)
  }

  lemma SlotsStart(s: Listener)
    requires SlotsTogether(s)
    ensures SlotsTogether(StartUtterance(StartDecrypt(StartReceive(s))))
  {
    var next := StartUtterance(StartDecrypt(StartReceive(s)));
    if s.receive.Some? {
      assert next == s;
    } else {
      forall t: nat
        ensures InSlot(next, t) <==> LoopOf(next, t)
      {
        assert InSlot(s, t) <==> LoopOf(s, t);
      }
    }
  }

  lemma SlotsEnd(s: Listener)
    requires SlotsTogether(s)
    ensures SlotsTogether(Stopped(s))
  {
    var next := Stopped(s);
    assert forall t: nat :: t < |next.tasks| ==> next.tasks[t].generation == s.tasks[t].generation;
  }

  // Steps that leave the slots, and of each task what it runs and when it was started.
  lemma SlotsStay(s: Listener, next: Listener)
    requires SlotsTogether(s) && next.generation == s.generation
    requires next.receive == s.receive && next.decrypt == s.decrypt && next.utterance == s.utterance
    requires |s.tasks| <= |next.tasks|
    requires forall t: nat :: t < |s.tasks| ==>
               next.tasks[t].listener == s.tasks[t].listener && next.tasks[t].generation == s.tasks[t].generation
    requires forall t: nat :: |s.tasks| <= t < |next.tasks| ==>
               !next.tasks[t].listener && next.tasks[t].generation == s.generation
    ensures SlotsTogether(next)
  {
    forall t: nat
      ensures InSlot(next, t) <==> LoopOf(next, t)
    {
      assert InSlot(s, t) <==> LoopOf(s, t);
    }
  }

  lemma SlotsStep(s: Listener, e: Event)
    requires SlotsTogether(s) && Enabled(s, e)
    ensures SlotsTogether(Step(s, e))
  {
    match e
    case Listen => SlotsStart(s);
    case Stop => SlotsEnd(s);
    case Report(t, asCancelled) =>
      SlotsStay(s, Marked(s, t));
      SlotsEnd(Marked(s, t));
      SlotsStay(Stopped(Marked(s, t)), Stopped(Marked(s, t)).(failures := s.failures + [s.tasks[t].generation]));
    case _ => SlotsStay(s, Step(s, e));
  }

  // Over every run a listener has its three loops or none, never two of a kind in one generation.
  lemma {:induction false} LoopsTogether(events: seq<Event>, s: Listener)
    requires Runs(events, s)
    ensures SlotsTogether(s)
    decreases |events|
  {
    if events != [] {
      var before :| Runs(AllBut(events), before) && Steps(before, LastOf(events), s);
      LoopsTogether(AllBut(events), before);
      SlotsStep(before, LastOf(events));
    }
  }

  // The generation ends: by a stop, or by a loop of it that ends without having been cancelled.
  predicate EndsGeneration(s: Listener, e: Event) {
    e.Stop? || (e.Report? && !e.asCancelled && LoopOf(s, e.reportedTask))
  }

  // After a run that ends with a call of `Listen`, or goes on from one without the generation ending, the three loops
  // are there; after an end, until the next call, none is.
  ghost predicate RunsFrom(events: seq<Event>, s: Listener, listening: bool)
    decreases |events|
  {
    if events == [] then s == IDLE && !listening
    else
      exists before, was ::
        && RunsFrom(AllBut(events), before, was) && Steps(before, LastOf(events), s)
        && listening == (LastOf(events).Listen? || (was && !EndsGeneration(before, LastOf(events))))
  }

  lemma {:induction false} ListeningExactly(events: seq<Event>, s: Listener) returns (listening: bool)
    requires Runs(events, s)
    ensures RunsFrom(events, s, listening) && (s.receive.Some? <==> listening)
    decreases |events|
  {
    if events == [] {
      listening := false;
    } else {
      var before :| Runs(AllBut(events), before) && Steps(before, LastOf(events), s);
      var was := ListeningExactly(AllBut(events), before);
      LoopsTogether(AllBut(events), before);
      SlotsStep(before, LastOf(events));
      listening := LastOf(events).Listen? || (was && !EndsGeneration(before, LastOf(events)));
    }
  }

  // ---------- draining ----------

  ghost predicate DrainDone(s: Listener, snapshot: nat) {
    snapshot <= |s.releases| && forall i :: 0 <= i < snapshot ==> s.releases[i].ended
  }

  // `more` leads from `from` to `s` without binding a new lease.
  ghost predicate Continues(from: Listener, more: seq<Event>, s: Listener)
    decreases |more|
  {
    if more == [] then s == from
    else
      LastOf(more) != Bind
      && exists before :: Continues(from, AllBut(more), before) && Steps(before, LastOf(more), s)
  }

  lemma {:induction false} NothingNewWithoutBinding(from: Listener, more: seq<Event>, s: Listener)
    requires Inv(from) && from.bound == None && Continues(from, more, s)
    ensures Inv(s) && s.bound == None && s.leases == from.leases && |s.releases| == |from.releases|
    decreases |more|
  {
    if more != [] {
      var before :| Continues(from, AllBut(more), before) && Steps(before, LastOf(more), s);
      NothingNewWithoutBinding(from, AllBut(more), before);
      StepKeepsInv(before, LastOf(more));
    }
  }

  // A disconnect stops and then waits for the releases in progress. Unless a new lease was bound meanwhile,
  // every lease there ever was has then been given back, once, and none is bound.
  lemma NothingOutstandingAfterDisconnect(events: seq<Event>, s: Listener, more: seq<Event>, end: Listener)
    requires Runs(events, s)
    requires Continues(Step(s, Stop), more, end) && DrainDone(end, |Step(s, Stop).releases|)
    ensures end.bound == None
    ensures forall i :: 0 <= i < |end.releases| ==> end.releases[i].ended
    ensures |end.releasedOrder| == end.leases
  {
    RunsKeepInv(events, s);
    StopKeepsInv(s);
    NothingNewWithoutBinding(Step(s, Stop), more, end);
    AllReleased(end);
  }

  lemma AllReleased(s: Listener)
    requires Inv(s) && s.bound == None && forall i :: 0 <= i < |s.releases| ==> s.releases[i].ended
    ensures |s.releasedOrder| == s.leases
  {
    var given := seq(|s.releases|, i requires 0 <= i < |s.releases| => s.releases[i].lease);
    forall l | l in s.releasedOrder
      ensures l in given
    {
      var r :| 0 <= r < |s.releases| && s.releases[r].lease == l;
      assert given[r] == l;
    }
    forall l | l in given
      ensures l in s.releasedOrder
    {
      var r :| 0 <= r < |given| && given[r] == l;
      assert s.releases[r].called;
    }
    SameCount(given, s.releasedOrder);
  }

  // Two lists without repetitions and with the same elements are equally long.
  lemma SameCount(a: seq<nat>, b: seq<nat>)
    requires (forall i, j :: 0 <= i < j < |a| ==> a[i] != a[j]) && (forall i, j :: 0 <= i < j < |b| ==> b[i] != b[j])
    requires forall x :: x in a <==> x in b
    ensures |a| == |b|
  {
    SizeOf(a);
    SizeOf(b);
    assert Elements(a) == Elements(b);
  }

  function Elements(a: seq<nat>): set<nat> {
    set x | x in a
  }

  lemma {:induction false} SizeOf(a: seq<nat>)
    requires forall i, j :: 0 <= i < j < |a| ==> a[i] != a[j]
    ensures |Elements(a)| == |a|
    decreases |a|
  {
    if a == [] {
      assert Elements(a) == {};
    } else {
      var n := |a| - 1;
      var init := a[..n];
      SizeOf(init);
      assert a == init + [a[n]] && a[n] !in init;
      assert Elements(a) == Elements(init) + {a[n]} && a[n] !in Elements(init);
    }
  }

  // ---------- the client's own methods ----------

  class VoiceListener {
    var tasks: seq<Task>
    var receiveTask: Option<nat>
    var decryptTask: Option<nat>
    var utteranceTask: Option<nat>
    var processingTasks: set<nat>
    var generation: nat
    var lease: Option<nat>
    var leases: nat
    var releases: seq<Release>
    var failures: seq<nat>
    var releasedOrder: seq<nat>

    constructor ()
      ensures Value() == IDLE
    {
      tasks, receiveTask, decryptTask, utteranceTask := [], None, None, None;
      processingTasks, generation, lease, leases := {}, 0, None, 0;
      releases, failures, releasedOrder := [], [], [];
    }

    function Value(): Listener
      reads this
    {
      Listener(tasks, receiveTask, decryptTask, utteranceTask, processingTasks, generation, lease, leases, releases,
               failures, releasedOrder)
    }

    // Binding needs a token that is not blank, a release that can be called and no lease already bound; otherwise it
    // is refused and nothing changes.
    method BindVoiceInputLease(token: string, callable: bool) returns (ok: bool)
      modifies this
      ensures ok <==> !TextBoundaries.AllSpace(token) && callable && Enabled(old(Value()), Bind)
      ensures ok <==> !TextBoundaries.AllSpace(token) && callable && old(lease) == None
      ensures ok ==> lease == Some(old(leases)) && leases == old(leases) + 1
      ensures Value() == if ok then Step(old(Value()), Bind) else old(Value())
    {
      var stripped := TextBoundaries.Strip(token);
      ghost var left, right := TextBoundaries.StripTrims(token);
      if stripped == "" || !callable {
        return false;
      }
      if lease.Some? {
        return false;
      }
      lease, leases := Some(leases), leases + 1;
      return true;
    }

    method CreateTask(listener: bool) returns (t: nat)
      modifies this`tasks
      ensures t == |old(tasks)| && Value() == NewTask(old(Value()), listener)
      ensures tasks == old(tasks) + [Task(listener, generation, false, false, false)]
    {
      t := |tasks|;
      tasks := tasks + [Task(listener, generation, false, false, false)];
    }

    // Starts the tasks that are not there yet, under the generation of this moment; refused without a lease or
    // a transport.
    method Listen(hasTransport: bool) returns (ok: bool)
      modifies this
      ensures lease == old(lease) && (ok <==> hasTransport && old(lease).Some?)
      ensures ok ==> receiveTask.Some? && decryptTask.Some? && utteranceTask.Some?
      ensures |tasks| == |old(tasks)| + if ok then (if old(receiveTask) == None then 1 else 0)
                                                   + (if old(decryptTask) == None then 1 else 0)
                                                   + (if old(utteranceTask) == None then 1 else 0) else 0
      ensures forall t: nat :: |old(tasks)| <= t < |tasks| ==> tasks[t] == Task(true, generation, false, false, false)
      ensures generation == old(generation) && old(tasks) <= tasks
      ensures Value() == if ok then Step(old(Value()), Event.Listen) else old(Value())
    {
      if lease == None {
        return false;
      }
      if !hasTransport {
        return false;
      }
      if receiveTask == None {
        var t := CreateTask(true);
        receiveTask := Some(t);
      }
      assert Value() == StartReceive(old(Value()));
      if decryptTask == None {
        var t := CreateTask(true);
        decryptTask := Some(t);
      }
      assert Value() == StartDecrypt(StartReceive(old(Value())));
      if utteranceTask == None {
        var t := CreateTask(true);
        utteranceTask := Some(t);
      }
      return true;
    }

    // Empties the three task slots and says which tasks were in them.
    method TakeSlots() returns (cancelled: set<nat>)
      modifies this`receiveTask, this`decryptTask, this`utteranceTask
      ensures cancelled == Slots(old(Value()))
      ensures receiveTask == None && decryptTask == None && utteranceTask == None
    {
      cancelled := {};
      if receiveTask.Some? {
        cancelled := cancelled + {receiveTask.value};
        receiveTask := None;
      }
      if decryptTask.Some? {
        cancelled := cancelled + {decryptTask.value};
        decryptTask := None;
      }
      if utteranceTask.Some? {
        cancelled := cancelled + {utteranceTask.value};
        utteranceTask := None;
      }
    }

    // Ends the generation and cancels every task there is.
    method CancelAll() returns (cancelled: set<nat>)
      modifies this`generation, this`receiveTask, this`decryptTask, this`utteranceTask, this`processingTasks, this`tasks
      ensures cancelled == Owned(old(Value()))
      ensures generation == old(generation) + 1 && tasks == Cancelled(old(tasks), cancelled)
      ensures receiveTask == None && decryptTask == None && utteranceTask == None && processingTasks == {}
    {
      generation := generation + 1;
      cancelled := TakeSlots();
      cancelled := cancelled + processingTasks;
      processingTasks := {};
      tasks := Cancelled(tasks, cancelled);
    }

    // Cancels every task, and hands the lease to a release that waits for them.
    method StopListening()
      modifies this
      ensures Value() == Stopped(old(Value()))
      ensures generation == old(generation) + 1 && lease == None && failures == old(failures)
      ensures receiveTask == None && decryptTask == None && utteranceTask == None && processingTasks == {}
      ensures releases == old(releases) + (if old(lease) == None then []
                                           else [Release(old(lease.value), Owned(old(Value())), false, false)])
      ensures forall t: nat :: t < |tasks| && (InSlot(old(Value()), t) || t in old(processingTasks)) ==>
                tasks[t].cancelRequested
    {
      var cancelled := CancelAll();
      if lease.Some? {
        releases := releases + [Release(lease.value, cancelled, false, false)];
      }
      assert old(lease) == None ==> releases == old(releases) + [];
      lease := None;
    }

    // A listener task has ended. Only an unexpected end in the current generation stops the listener.
    method ListenerTaskFinished(t: nat, asCancelled: bool)
      requires Enabled(Value(), Report(t, asCancelled))
      modifies this
      ensures Value() == Step(old(Value()), Report(t, asCancelled))
      ensures if asCancelled || old(tasks[t].generation) != old(generation)
              then generation == old(generation) && failures == old(failures) && lease == old(lease)
              else generation == old(generation) + 1 && failures == old(failures) + [old(generation)] && lease == None
    {
      var bornIn := tasks[t].generation;
      tasks := tasks[t := tasks[t].(reported := true)];
      if asCancelled || bornIn != generation {
        return;
      }
      StopListening();
      failures := failures + [bornIn];
    }
  }
}
