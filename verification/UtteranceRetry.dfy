// Which utterance gets a packet whose decryption was put off. The retry queue belongs to a source, and each
// pass over an utterance of that source drains all of it.
module UtteranceRetry {
  import opened Wrappers
  import opened PacketOrder
  import opened RetryQueue

  // A queued packet, with the utterance whose pass put it off and its number among all packets put off.
  datatype Held = Held(item: Item, owner: nat, serial: nat)

  // A packet that came through, in the pass of the utterance `via`.
  datatype Taken = Taken(got: Recovered, owner: nat, via: nat, serial: nat)

  datatype Origin = Origin(owner: nat, packet: Packet)

  // One source: its queue, every packet put off so far, what has become of those that left the queue, and which
  // utterances are to be passed again, are finished, or were given up.
  datatype State = State(
    queue: seq<Held>, origins: seq<Origin>, taken: seq<Taken>, lost: seq<Held>,
    waiting: set<nat>, finished: set<nat>, givenUp: set<nat>)

  const Start: State := State([], [], [], [], {}, {}, {})

  // A first pass, which puts some packets off; a later one; and an end for want of a speaker or a cipher.
  datatype Event =
    | First(u: nat, deferred: seq<Item>, now: real, answers: seq<Answer>)
    | Again(u: nat, now: real, answers: seq<Answer>)
    | GiveUp(u: nat)

  function Items(queue: seq<Held>): seq<Item> {
    seq(|queue|, i requires 0 <= i < |queue| => queue[i].item)
  }

  // ---------- one pass ----------

  function KeptBy(queue: seq<Held>, answers: seq<Answer>, now: real, limits: Limits): seq<Held>
    requires |answers| == |queue|
  {
    if queue == [] then []
    else
      var n := |queue| - 1;
      var kept := KeptBy(queue[..n], answers[..n], now, limits);
      if Judge(queue[n].item, answers[n], now, limits) == Keep
      then kept + [queue[n].(item := Retried(queue[n].item, answers[n], now))] else kept
  }

  function TakenBy(u: nat, queue: seq<Held>, answers: seq<Answer>, now: real, limits: Limits): seq<Taken>
    requires |answers| == |queue|
  {
    if queue == [] then []
    else
      var n := |queue| - 1;
      var taken := TakenBy(u, queue[..n], answers[..n], now, limits);
      if Judge(queue[n].item, answers[n], now, limits) == Recover
      then taken + [Taken(Recovered(queue[n].item.packet, answers[n].plain.value), queue[n].owner, u, queue[n].serial)]
      else taken
  }

  function LostBy(queue: seq<Held>, answers: seq<Answer>, now: real, limits: Limits): seq<Held>
    requires |answers| == |queue|
  {
    if queue == [] then []
    else
      var n := |queue| - 1;
      var lost := LostBy(queue[..n], answers[..n], now, limits);
      if Judge(queue[n].item, answers[n], now, limits) == Drop then lost + [queue[n]] else lost
  }

  function Defer(s: State, u: nat, item: Item, limits: Limits): State {
    var all := s.queue + [Held(item, u, |s.origins|)];
    var left := TakeLast(all, limits.capacity);
    s.(queue := left, lost := s.lost + all[..|all| - |left|], origins := s.origins + [Origin(u, item.packet)])
  }

  function DeferAll(s: State, u: nat, items: seq<Item>, limits: Limits): State {
    if items == [] then s
    else Defer(DeferAll(s, u, items[..|items| - 1], limits), u, items[|items| - 1], limits)
  }

  function Gots(taken: seq<Taken>): seq<Recovered> {
    seq(|taken|, i requires 0 <= i < |taken| => taken[i].got)
  }

  // On the queue itself these are the arrival and the drain of the retry queue.
  lemma DeferIsTheQueues(s: State, u: nat, item: Item, limits: Limits)
    requires item.attempts == 0
    ensures Items(Defer(s, u, item, limits).queue) == Apply(Items(s.queue), Arrive(item), limits)
  {
    assert Items(s.queue + [Held(item, u, |s.origins|)]) == Items(s.queue) + [item];
  }

  lemma {:induction false} DrainIsTheQueues(u: nat, queue: seq<Held>, answers: seq<Answer>, now: real, limits: Limits)
    requires |answers| == |queue|
    ensures Items(KeptBy(queue, answers, now, limits)) == KeptOf(Items(queue), answers, now, limits)
    ensures Gots(TakenBy(u, queue, answers, now, limits)) == RecoveredOf(Items(queue), answers, now, limits)
    decreases |queue|
  {
    if queue != [] {
      var n := |queue| - 1;
      assert Items(queue)[..n] == Items(queue[..n]);
      DrainIsTheQueues(u, queue[..n], answers[..n], now, limits);
    }
  }

  // The drain of a pass over `u`: what comes through is taken by `u`, whoever put it off, and `u` is to be passed
  // again if anything is left.
  function Drained(s: State, u: nat, now: real, answers: seq<Answer>, limits: Limits): State
    requires |answers| == |s.queue|
  {
    var kept := KeptBy(s.queue, answers, now, limits);
    s.(queue := kept,
       taken := s.taken + TakenBy(u, s.queue, answers, now, limits),
       lost := s.lost + LostBy(s.queue, answers, now, limits),
       waiting := if kept == [] then s.waiting - {u} else s.waiting + {u},
       finished := if kept == [] then s.finished + {u} else s.finished)
  }

  // The state when the drain of a pass begins.
  function BeforeDrain(s: State, e: Event, limits: Limits): State {
    match e
    case First(u, deferred, _, _) => DeferAll(s, u, deferred, limits)
    case _ => s
  }

  ghost predicate Possible(s: State, e: Event, limits: Limits) {
    match e
    case First(u, deferred, _, answers) =>
      && u !in s.waiting + s.finished + s.givenUp
      && (forall i :: 0 <= i < |deferred| ==> deferred[i].attempts == 0)
      && |answers| == |BeforeDrain(s, e, limits).queue|
    case Again(u, _, answers) => u in s.waiting && |answers| == |s.queue|
    case GiveUp(u) => u in s.waiting
  }

  function After(s: State, e: Event, limits: Limits): State
    requires Possible(s, e, limits)
  {
    match e
    case First(u, _, now, answers) => Drained(BeforeDrain(s, e, limits), u, now, answers, limits)
    case Again(u, now, answers) => Drained(s, u, now, answers, limits)
    case GiveUp(u) => s.(waiting := s.waiting - {u}, givenUp := s.givenUp + {u})
  }

  // ---------- runs ----------

  ghost predicate Leads(s: State, events: seq<Event>, limits: Limits, end: State)
    decreases |events|
  {
    if events == [] then end == s
    else exists before :: Leads(s, Init(events), limits, before) && Moves(before, Final(events), limits, end)
  }

  ghost predicate Moves(before: State, e: Event, limits: Limits, after: State) {
    Possible(before, e, limits) && after == After(before, e, limits)
  }

  // ---------- what every run keeps ----------

  // How often the packet number `n` is among them.
  function Count(held: seq<Held>, n: nat): nat {
    if held == [] then 0 else Count(held[..|held| - 1], n) + (if held[|held| - 1].serial == n then 1 else 0)
  }

  function CountTaken(taken: seq<Taken>, n: nat): nat {
    if taken == [] then 0 else CountTaken(taken[..|taken| - 1], n) + (if taken[|taken| - 1].serial == n then 1 else 0)
  }

  function Places(s: State, n: nat): nat {
    Count(s.queue, n) + CountTaken(s.taken, n) + Count(s.lost, n)
  }

  ghost predicate Known(h: Held, origins: seq<Origin>) {
    h.serial < |origins| && origins[h.serial] == Origin(h.owner, h.item.packet)
  }

  ghost predicate TakenKnown(t: Taken, origins: seq<Origin>) {
    t.serial < |origins| && origins[t.serial] == Origin(t.owner, t.got.packet)
  }

  // Each packet put off is in exactly one place and still the packet of its utterance.
  ghost predicate EachOnce(s: State) {
    && (forall n: nat :: Places(s, n) == if n < |s.origins| then 1 else 0)
    && AllKnown(s.queue, s.origins) && AllTakenKnown(s.taken, s.origins) && AllKnown(s.lost, s.origins)
  }

  // A queued packet is one of an utterance that is to be passed again or was given up.
  ghost predicate OwnersStay(s: State) {
    OwnedBy(s.queue, s.waiting + s.givenUp)
  }

  ghost predicate Inv(s: State, limits: Limits) {
    && EachOnce(s) && OwnersStay(s)
    && s.waiting !! s.finished && s.waiting !! s.givenUp
    && |s.queue| <= limits.capacity && Young(s.queue, limits)
  }

  lemma {:induction false} CountConcat(a: seq<Held>, b: seq<Held>, n: nat)
    ensures Count(a + b, n) == Count(a, n) + Count(b, n)
    decreases |b|
  {
    if b == [] {
      assert a + b == a;
    } else {
      assert (a + b)[..|a + b| - 1] == a + b[..|b| - 1];
      CountConcat(a, b[..|b| - 1], n);
    }
  }

  lemma {:induction false} CountTakenConcat(a: seq<Taken>, b: seq<Taken>, n: nat)
    ensures CountTaken(a + b, n) == CountTaken(a, n) + CountTaken(b, n)
    decreases |b|
  {
    if b == [] {
      assert a + b == a;
    } else {
      assert (a + b)[..|a + b| - 1] == a + b[..|b| - 1];
      CountTakenConcat(a, b[..|b| - 1], n);
    }
  }

  lemma CountOne(held: seq<Held>, h: Held, n: nat)
    ensures Count(held + [h], n) == Count(held, n) + (if h.serial == n then 1 else 0)
  {
    assert (held + [h])[..|held|] == held;
  }

  lemma CountTakenOne(taken: seq<Taken>, t: Taken, n: nat)
    ensures CountTaken(taken + [t], n) == CountTaken(taken, n) + (if t.serial == n then 1 else 0)
  {
    assert (taken + [t])[..|taken|] == taken;
  }

  // A drain splits the queue: no packet appears, doubles or vanishes.
  lemma {:induction false} DrainConserves(u: nat, queue: seq<Held>, answers: seq<Answer>, now: real, limits: Limits,
                                          n: nat)
    requires |answers| == |queue|
    ensures Count(KeptBy(queue, answers, now, limits), n) + CountTaken(TakenBy(u, queue, answers, now, limits), n)
            + Count(LostBy(queue, answers, now, limits), n) == Count(queue, n)
    decreases |queue|
  {
    if queue != [] {
      var m := |queue| - 1;
      var q, a, h := queue[..m], answers[..m], queue[m];
      DrainConserves(u, q, a, now, limits, n);
      match Judge(h.item, answers[m], now, limits)
      case Keep => CountOne(KeptBy(q, a, now, limits), h.(item := Retried(h.item, answers[m], now)), n);
      case Recover =>
        CountTakenOne(TakenBy(u, q, a, now, limits),
                      Taken(Recovered(h.item.packet, answers[m].plain.value), h.owner, u, h.serial), n);
      case Drop => CountOne(LostBy(q, a, now, limits), h, n);
    }
  }

  ghost predicate AllKnown(held: seq<Held>, origins: seq<Origin>) {
    forall i :: 0 <= i < |held| ==> Known(held[i], origins)
  }

  ghost predicate AllTakenKnown(taken: seq<Taken>, origins: seq<Origin>) {
    forall i :: 0 <= i < |taken| ==> TakenKnown(taken[i], origins)
  }

  ghost predicate OwnedBy(held: seq<Held>, owners: set<nat>) {
    forall i :: 0 <= i < |held| ==> held[i].owner in owners
  }

  ghost predicate Young(held: seq<Held>, limits: Limits) {
    forall i :: 0 <= i < |held| ==> held[i].item.attempts < limits.maxAttempts
  }

  // What a drain keeps, gives out and loses are packets of the queue, with their owners.
  lemma {:induction false} DrainIsOfQueue(u: nat, queue: seq<Held>, answers: seq<Answer>, now: real, limits: Limits,
                                          origins: seq<Origin>, owners: set<nat>)
    requires |answers| == |queue| && AllKnown(queue, origins) && OwnedBy(queue, owners)
    ensures var kept := KeptBy(queue, answers, now, limits);
            |kept| <= |queue| && AllKnown(kept, origins) && OwnedBy(kept, owners) && Young(kept, limits)
    ensures AllTakenKnown(TakenBy(u, queue, answers, now, limits), origins)
    ensures AllKnown(LostBy(queue, answers, now, limits), origins)
    decreases |queue|
  {
    if queue != [] {
      var n := |queue| - 1;
      assert Known(queue[n], origins);
      DrainIsOfQueue(u, queue[..n], answers[..n], now, limits, origins, owners);
    }
  }

  lemma KnownStays(s: State, o: Origin)
    requires EachOnce(s)
    ensures var more := s.origins + [o];
            AllKnown(s.queue, more) && AllTakenKnown(s.taken, more) && AllKnown(s.lost, more)
  {
    assert forall i :: 0 <= i < |s.queue| ==> Known(s.queue[i], s.origins);
    assert forall i :: 0 <= i < |s.taken| ==> TakenKnown(s.taken[i], s.origins);
    assert forall i :: 0 <= i < |s.lost| ==> Known(s.lost[i], s.origins);
  }

  // The invariant while the pass over `u` is under way.
  ghost predicate InvFor(s: State, limits: Limits, u: nat) {
    && EachOnce(s)
    && OwnedBy(s.queue, s.waiting + s.givenUp + {u})
    && s.waiting !! s.finished && s.waiting !! s.givenUp && u !in s.finished + s.givenUp
    && |s.queue| <= limits.capacity && Young(s.queue, limits)
  }

  lemma DeferConserves(s: State, u: nat, item: Item, limits: Limits, n: nat)
    ensures Places(Defer(s, u, item, limits), n) == Places(s, n) + (if n == |s.origins| then 1 else 0)
  {
    var h := Held(item, u, |s.origins|);
    var all := s.queue + [h];
    var left := TakeLast(all, limits.capacity);
    var cut := all[..|all| - |left|];
    assert all == cut + left;
    CountConcat(cut, left, n);
    CountConcat(s.lost, cut, n);
    CountOne(s.queue, h, n);
  }

  lemma DeferStep(s: State, u: nat, item: Item, limits: Limits)
    requires limits.Valid() && InvFor(s, limits, u) && item.attempts == 0
    ensures InvFor(Defer(s, u, item, limits), limits, u)
  {
    var h := Held(item, u, |s.origins|);
    var all := s.queue + [h];
    var t := Defer(s, u, item, limits);
    KnownStays(s, Origin(u, item.packet));
    assert AllKnown(all, t.origins) && OwnedBy(all, t.waiting + t.givenUp + {u}) && Young(all, limits);
    forall n: nat
      ensures Places(t, n) == if n < |t.origins| then 1 else 0
    {
      DeferConserves(s, u, item, limits, n);
    }
    PartsAreKnown(all, |all| - |t.queue|, t.origins, t.waiting + t.givenUp + {u}, limits);
  }

  lemma PartsAreKnown(held: seq<Held>, k: nat, origins: seq<Origin>, owners: set<nat>, limits: Limits)
    requires k <= |held| && AllKnown(held, origins) && OwnedBy(held, owners) && Young(held, limits)
    ensures AllKnown(held[..k], origins) && AllKnown(held[k..], origins)
    ensures OwnedBy(held[k..], owners) && Young(held[k..], limits)
  {
    assert forall i :: 0 <= i < |held| ==> Known(held[i], origins);
  }

  lemma {:induction false} DeferAllSteps(s: State, u: nat, items: seq<Item>, limits: Limits)
    requires limits.Valid() && InvFor(s, limits, u)
    requires forall i :: 0 <= i < |items| ==> items[i].attempts == 0
    ensures var t := DeferAll(s, u, items, limits);
            && InvFor(t, limits, u)
            && t.waiting == s.waiting && t.finished == s.finished && t.givenUp == s.givenUp && t.taken == s.taken
    decreases |items|
  {
    if items != [] {
      DeferAllSteps(s, u, items[..|items| - 1], limits);
      DeferStep(DeferAll(s, u, items[..|items| - 1], limits), u, items[|items| - 1], limits);
    }
  }

  lemma DrainStep(s: State, u: nat, now: real, answers: seq<Answer>, limits: Limits)
    requires InvFor(s, limits, u) && |answers| == |s.queue|
    ensures Inv(Drained(s, u, now, answers, limits), limits)
  {
    var t := Drained(s, u, now, answers, limits);
    forall n: nat
      ensures Places(t, n) == Places(s, n)
    {
      DrainConserves(u, s.queue, answers, now, limits, n);
      CountTakenConcat(s.taken, TakenBy(u, s.queue, answers, now, limits), n);
      CountConcat(s.lost, LostBy(s.queue, answers, now, limits), n);
    }
    DrainIsOfQueue(u, s.queue, answers, now, limits, s.origins, s.waiting + s.givenUp + {u});
  }

  lemma StepKeepsInv(s: State, e: Event, limits: Limits)
    requires limits.Valid() && Inv(s, limits) && Possible(s, e, limits)
    ensures Inv(After(s, e, limits), limits)
  {
    match e
    case First(u, deferred, now, answers) =>
      DeferAllSteps(s, u, deferred, limits);
      DrainStep(DeferAll(s, u, deferred, limits), u, now, answers, limits);
    case Again(u, now, answers) => DrainStep(s, u, now, answers, limits);
    case GiveUp(u) =>
      assert forall n: nat :: Places(After(s, e, limits), n) == Places(s, n);
  }

  // Over every run each packet put off is queued, taken by one utterance or lost, once, and no queued packet is
  // of a finished utterance.
  lemma {:induction false} RunKeepsInv(events: seq<Event>, limits: Limits, end: State)
    requires limits.Valid() && Leads(Start, events, limits, end)
    ensures Inv(end, limits)
    decreases |events|
  {
    if events != [] {
      var before :| Leads(Start, Init(events), limits, before) && Moves(before, Final(events), limits, end);
      RunKeepsInv(Init(events), limits, before);
      StepKeepsInv(before, Final(events), limits);
    }
  }

  // ---------- who takes what ----------

  ghost predicate Foreign(taken: seq<Taken>, u: nat) {
    exists i :: 0 <= i < |taken| && taken[i].owner != u
  }

  // A packet of another utterance that is not too old.
  ghost predicate ForeignFresh(queue: seq<Held>, u: nat, now: real, limits: Limits) {
    exists i :: 0 <= i < |queue| && queue[i].owner != u && now - queue[i].item.queuedAt <= limits.maxAge
  }

  ghost predicate MayTakeForeign(u: nat, queue: seq<Held>, now: real, limits: Limits) {
    exists answers: seq<Answer> ::
      |answers| == |queue| && Foreign(TakenBy(u, queue, answers, now, limits), u)
  }

  lemma {:induction false} TakenAreFresh(u: nat, queue: seq<Held>, answers: seq<Answer>, now: real, limits: Limits)
    requires |answers| == |queue|
    ensures Foreign(TakenBy(u, queue, answers, now, limits), u) ==> ForeignFresh(queue, u, now, limits)
    decreases |queue|
  {
    if queue != [] {
      var n := |queue| - 1;
      var taken := TakenBy(u, queue[..n], answers[..n], now, limits);
      TakenAreFresh(u, queue[..n], answers[..n], now, limits);
      if Foreign(TakenBy(u, queue, answers, now, limits), u) {
        if Foreign(taken, u) {
          var i :| 0 <= i < n && queue[..n][i].owner != u && now - queue[..n][i].item.queuedAt <= limits.maxAge;
          assert queue[i].owner != u;
        } else {
          assert queue[n].owner != u;
        }
      }
    }
  }

  const Well: Answer := Answer(Some([]), None, Reason.Ok)

  lemma {:induction false} FreshAreTaken(u: nat, queue: seq<Held>, answers: seq<Answer>, now: real, limits: Limits)
    requires |answers| == |queue| && forall i :: 0 <= i < |answers| ==> answers[i] == Well
    ensures ForeignFresh(queue, u, now, limits) ==> Foreign(TakenBy(u, queue, answers, now, limits), u)
    decreases |queue|
  {
    if i :| 0 <= i < |queue| && queue[i].owner != u && now - queue[i].item.queuedAt <= limits.maxAge {
      var n := |queue| - 1;
      var taken, all := TakenBy(u, queue[..n], answers[..n], now, limits), TakenBy(u, queue, answers, now, limits);
      if i < n {
        assert queue[..n][i].owner != u;
        FreshAreTaken(u, queue[..n], answers[..n], now, limits);
        var k :| 0 <= k < |taken| && taken[k].owner != u;
        assert all[k].owner != u;
      } else {
        assert all[|taken|].owner != u;
      }
    }
  }

  // A pass can take a packet that another utterance put off exactly when one that is not too old is queued.
  lemma ForeignExactly(u: nat, queue: seq<Held>, now: real, limits: Limits)
    ensures MayTakeForeign(u, queue, now, limits) <==> ForeignFresh(queue, u, now, limits)
  {
    if answers: seq<Answer> :| |answers| == |queue| && Foreign(TakenBy(u, queue, answers, now, limits), u) {
      TakenAreFresh(u, queue, answers, now, limits);
    }
    if ForeignFresh(queue, u, now, limits) {
      var answers := seq(|queue|, _ => Well);
      FreshAreTaken(u, queue, answers, now, limits);
      assert Foreign(TakenBy(u, queue, answers, now, limits), u);
    }
  }

  // No other utterance of the source is waiting or was given up.
  ghost predicate Alone(s: State, e: Event) {
    e.GiveUp? || s.waiting + s.givenUp <= {e.u}
  }

  ghost predicate LeadsAlone(s: State, events: seq<Event>, limits: Limits, end: State)
    decreases |events|
  {
    if events == [] then end == s
    else
      exists before :: LeadsAlone(s, Init(events), limits, before) && Alone(before, Final(events))
                       && Moves(before, Final(events), limits, end)
  }

  ghost predicate OwnOnly(taken: seq<Taken>) {
    forall i :: 0 <= i < |taken| ==> taken[i].owner == taken[i].via
  }

  lemma {:induction false} PassAloneTakesOwn(s: State, u: nat, now: real, answers: seq<Answer>, limits: Limits)
    requires InvFor(s, limits, u) && |answers| == |s.queue| && s.waiting + s.givenUp <= {u} && OwnOnly(s.taken)
    ensures OwnOnly(Drained(s, u, now, answers, limits).taken)
  {
    TakenAreVia(u, s.queue, answers, now, limits);
    TakenAreFresh(u, s.queue, answers, now, limits);
    assert OwnedBy(s.queue, {u});
    assert !ForeignFresh(s.queue, u, now, limits);
    var more := TakenBy(u, s.queue, answers, now, limits);
    forall i | 0 <= i < |s.taken + more|
      ensures (s.taken + more)[i].owner == (s.taken + more)[i].via
    {
      assert i >= |s.taken| ==> more[i - |s.taken|].owner == u;
    }
  }

  ghost predicate AllVia(taken: seq<Taken>, u: nat) {
    forall i :: 0 <= i < |taken| ==> taken[i].via == u
  }

  lemma {:induction false} TakenAreVia(u: nat, queue: seq<Held>, answers: seq<Answer>, now: real, limits: Limits)
    requires |answers| == |queue|
    ensures AllVia(TakenBy(u, queue, answers, now, limits), u)
    decreases |queue|
  {
    if queue != [] {
      TakenAreVia(u, queue[..|queue| - 1], answers[..|queue| - 1], now, limits);
    }
  }

  lemma StepAloneTakesOwn(s: State, e: Event, limits: Limits)
    requires limits.Valid() && Inv(s, limits) && Possible(s, e, limits) && Alone(s, e) && OwnOnly(s.taken)
    ensures OwnOnly(After(s, e, limits).taken)
  {
    match e
    case First(u, deferred, now, answers) =>
      DeferAllSteps(s, u, deferred, limits);
      PassAloneTakesOwn(DeferAll(s, u, deferred, limits), u, now, answers, limits);
    case Again(u, now, answers) => PassAloneTakesOwn(s, u, now, answers, limits);
    case GiveUp(u) =>
  }

  // While the utterances of a source do not overlap, each gets its own packets only.
  lemma {:induction false} OwnWhenAlone(events: seq<Event>, limits: Limits, end: State)
    requires limits.Valid() && LeadsAlone(Start, events, limits, end)
    ensures Inv(end, limits) && OwnOnly(end.taken)
    decreases |events|
  {
    if events != [] {
      var before :| LeadsAlone(Start, Init(events), limits, before) && Alone(before, Final(events))
                    && Moves(before, Final(events), limits, end);
      OwnWhenAlone(Init(events), limits, before);
      StepKeepsInv(before, Final(events), limits);
      StepAloneTakesOwn(before, Final(events), limits);
    }
  }

  // ---------- when a packet leaves ----------

  function Passes(events: seq<Event>): nat {
    if events == [] then 0 else Passes(Init(events)) + (if Final(events).GiveUp? then 0 else 1)
  }

  // The packets before number `from` have been tried at least `p` times.
  ghost predicate Aged(queue: seq<Held>, from: nat, p: nat) {
    forall i :: 0 <= i < |queue| && queue[i].serial < from ==> p <= queue[i].item.attempts
  }

  lemma {:induction false} KeptAge(queue: seq<Held>, answers: seq<Answer>, now: real, limits: Limits, from: nat, p: nat)
    requires |answers| == |queue| && Aged(queue, from, p)
    ensures Aged(KeptBy(queue, answers, now, limits), from, p + 1)
    decreases |queue|
  {
    if queue != [] {
      KeptAge(queue[..|queue| - 1], answers[..|queue| - 1], now, limits, from, p);
    }
  }

  lemma {:induction false} DeferredAge(s: State, u: nat, items: seq<Item>, limits: Limits, from: nat, p: nat)
    requires from <= |s.origins| && Aged(s.queue, from, p)
    ensures from <= |DeferAll(s, u, items, limits).origins| && Aged(DeferAll(s, u, items, limits).queue, from, p)
    decreases |items|
  {
    if items != [] {
      var n := |items| - 1;
      var before := DeferAll(s, u, items[..n], limits);
      DeferredAge(s, u, items[..n], limits, from, p);
      assert Aged(before.queue + [Held(items[n], u, |before.origins|)], from, p);
    }
  }

  lemma {:induction false} RunAges(s: State, events: seq<Event>, limits: Limits, end: State)
    requires Leads(s, events, limits, end)
    ensures |s.origins| <= |end.origins| && Aged(end.queue, |s.origins|, Passes(events))
    decreases |events|
  {
    if events != [] {
      var before :| Leads(s, Init(events), limits, before) && Moves(before, Final(events), limits, end);
      var from, p := |s.origins|, Passes(Init(events));
      RunAges(s, Init(events), limits, before);
      match Final(events)
      case First(u, deferred, now, answers) =>
        DeferredAge(before, u, deferred, limits, from, p);
        KeptAge(DeferAll(before, u, deferred, limits).queue, answers, now, limits, from, p);
      case Again(u, now, answers) => KeptAge(before.queue, answers, now, limits, from, p);
      case GiveUp(u) =>
    }
  }

  lemma {:induction false} LeadsKeepsInv(s: State, events: seq<Event>, limits: Limits, end: State)
    requires limits.Valid() && Inv(s, limits) && Leads(s, events, limits, end)
    ensures Inv(end, limits)
    decreases |events|
  {
    if events != [] {
      var before :| Leads(s, Init(events), limits, before) && Moves(before, Final(events), limits, end);
      LeadsKeepsInv(s, Init(events), limits, before);
      StepKeepsInv(before, Final(events), limits);
    }
  }

  // After as many passes as the attempt limit, over whatever utterances, all that is queued was put off meanwhile;
  // and if nothing was, the queue is empty.
  lemma PacketsLeave(s: State, events: seq<Event>, limits: Limits, end: State)
    requires limits.Valid() && Inv(s, limits) && Leads(s, events, limits, end)
    requires Passes(events) >= limits.maxAttempts
    ensures forall i :: 0 <= i < |end.queue| ==> end.queue[i].serial >= |s.origins|
    ensures |end.origins| == |s.origins| ==> end.queue == []
  {
    RunAges(s, events, limits, end);
    LeadsKeepsInv(s, events, limits, end);
    forall i | 0 <= i < |end.queue|
      ensures |s.origins| <= end.queue[i].serial < |end.origins|
    {
      assert Known(end.queue[i], end.origins);
    }
    assert end.queue != [] ==> |s.origins| <= end.queue[0].serial < |end.origins|;
  }

  // A waiting utterance is finished by its next pass exactly if that pass leaves nothing queued.
  lemma FinishesExactly(s: State, u: nat, now: real, answers: seq<Answer>, limits: Limits)
    requires Inv(s, limits) && Possible(s, Again(u, now, answers), limits)
    ensures var t := After(s, Again(u, now, answers), limits);
            (u in t.finished <==> t.queue == []) && (u in t.waiting <==> t.queue != [])
  {
  }

  // ---------- runs that show it ----------

  const NotYet: Answer := Answer(None, None, CryptorPending)
  const Never: Answer := Answer(None, None, DecryptError)

  lemma {:induction false} OneMore(s: State, events: seq<Event>, limits: Limits, before: State, e: Event)
    requires Leads(s, events, limits, before) && Possible(before, e, limits)
    ensures Leads(s, events + [e], limits, After(before, e, limits))
    ensures Passes(events + [e]) == Passes(events) + (if e.GiveUp? then 0 else 1)
  {
    assert Init(events + [e]) == events && Final(events + [e]) == e;
    assert Moves(before, e, limits, After(before, e, limits));
  }

  // The last packet is put off once more and the others are refused.
  function LastNotYet(n: nat): seq<Answer> {
    seq(n, i => if i + 1 == n then NotYet else Never)
  }

  lemma {:induction false} NoneIsKept(queue: seq<Held>, answers: seq<Answer>, now: real, limits: Limits)
    requires |answers| == |queue| && forall i :: 0 <= i < |answers| ==> answers[i] == Never
    ensures KeptBy(queue, answers, now, limits) == []
    decreases |queue|
  {
    if queue != [] {
      NoneIsKept(queue[..|queue| - 1], answers[..|queue| - 1], now, limits);
    }
  }

  lemma {:induction false} LastIsKept(queue: seq<Held>, limits: Limits)
    requires queue != [] && limits.maxAge >= 0.0
    requires var item := queue[|queue| - 1].item; item.queuedAt == 0.0 && item.attempts + 1 < limits.maxAttempts
    ensures var last := queue[|queue| - 1];
            KeptBy(queue, LastNotYet(|queue|), 0.0, limits) == [last.(item := Retried(last.item, NotYet, 0.0))]
  {
    var n := |queue| - 1;
    NoneIsKept(queue[..n], LastNotYet(|queue|)[..n], 0.0, limits);
  }

  ghost predicate UpTo(us: set<nat>, used: nat) {
    forall u :: u in us ==> u <= used
  }

  ghost predicate Waits(s: State, used: nat, attempts: nat) {
    && |s.queue| == 1 && s.queue[0].item.queuedAt == 0.0 && s.queue[0].item.attempts <= attempts
    && 0 in s.waiting && UpTo(s.waiting, used) && UpTo(s.finished, used) && UpTo(s.givenUp, used)
  }

  lemma {:induction false} DeferredLast(s: State, u: nat, item: Item, limits: Limits)
    requires limits.Valid()
    ensures var t := Defer(s, u, item, limits);
            && t == DeferAll(s, u, [item], limits)
            && t.queue != [] && t.queue[|t.queue| - 1].item == item
            && t.waiting == s.waiting && t.finished == s.finished && t.givenUp == s.givenUp
  {
    assert [item][..0] == [];
  }

  lemma {:induction false} OneIsLeft(s: State, u: nat, used: nat, limits: Limits, item: Item)
    requires s.queue != [] && s.queue[|s.queue| - 1].item == item && limits.maxAge >= 0.0
    requires item.queuedAt == 0.0 && item.attempts + 1 < limits.maxAttempts
    requires 0 in s.waiting && UpTo(s.waiting + {u}, used) && UpTo(s.finished, used) && UpTo(s.givenUp, used)
    ensures Waits(Drained(s, u, 0.0, LastNotYet(|s.queue|), limits), used, item.attempts + 1)
  {
    LastIsKept(s.queue, limits);
  }

  lemma {:induction false} PassOfAnother(s: State, used: nat, item: Item, limits: Limits)
    requires limits.Valid() && limits.maxAttempts >= 3 && limits.maxAge >= 0.0
    requires Waits(s, used, 2) && item.attempts == 0 && item.queuedAt == 0.0
    ensures var e := First(used + 1, [item], 0.0, LastNotYet(|Defer(s, used + 1, item, limits).queue|));
            Possible(s, e, limits) && Waits(After(s, e, limits), used + 1, 1)
  {
    DeferredLast(s, used + 1, item, limits);
    OneIsLeft(Defer(s, used + 1, item, limits), used + 1, used + 1, limits, item);
  }

  lemma {:induction false} PassOfTheFirst(s: State, used: nat, limits: Limits)
    requires limits.maxAttempts >= 3 && limits.maxAge >= 0.0 && Waits(s, used, 1)
    ensures var e := Again(0, 0.0, LastNotYet(1));
            Possible(s, e, limits) && Waits(After(s, e, limits), used, 2)
  {
    OneIsLeft(s, 0, used, limits, s.queue[0].item);
  }

  lemma {:induction false} FirstOfAll(item: Item, limits: Limits)
    requires limits.Valid() && limits.maxAttempts >= 2 && limits.maxAge >= 0.0
    requires item.attempts == 0 && item.queuedAt == 0.0
    ensures var e := First(0, [item], 0.0, LastNotYet(1));
            Possible(Start, e, limits) && After(Start, e, limits) == Begun(item)
  {
    var begun := Defer(Start, 0, item, limits);
    assert [item][..0] == [];
    assert DeferAll(Start, 0, [item], limits) == begun;
    assert begun.queue == [Held(item, 0, 0)];
    LastIsKept(begun.queue, limits);
    assert LostBy(begun.queue[..0], LastNotYet(1)[..0], 0.0, limits) == [];
    assert TakenBy(0, begun.queue[..0], LastNotYet(1)[..0], 0.0, limits) == [];
  }

  // The first utterance has put off one packet and is to be passed again.
  function Begun(item: Item): State {
    State([Held(Retried(item, NotYet, 0.0), 0, 0)], [Origin(0, item.packet)], [], [], {0}, {}, {})
  }

  lemma {:induction false} FirstRound(item: Item, limits: Limits) returns (events: seq<Event>, end: State)
    requires limits.Valid() && limits.maxAttempts >= 3 && limits.maxAge >= 0.0
    requires item.attempts == 0 && item.queuedAt == 0.0
    ensures Leads(Start, events, limits, end) && Waits(end, 0, 2) && PassesOf(events, 0) == 1
  {
    var e := First(0, [item], 0.0, LastNotYet(1));
    FirstOfAll(item, limits);
    OneMore(Start, [], limits, Start, e);
    PassesOfOne([], e, 0);
    events, end := [] + [e], Begun(item);
  }

  // Two passes more, one over another utterance and one over the first.
  lemma {:induction false} Round(earlier: seq<Event>, s: State, used: nat, item: Item, limits: Limits)
    returns (events: seq<Event>, end: State)
    requires limits.Valid() && limits.maxAttempts >= 3 && limits.maxAge >= 0.0
    requires item.attempts == 0 && item.queuedAt == 0.0
    requires Leads(Start, earlier, limits, s) && Waits(s, used, 2)
    ensures Leads(Start, events, limits, end) && Waits(end, used + 1, 2)
    ensures PassesOf(events, 0) == PassesOf(earlier, 0) + 1
  {
    var e, f := First(used + 1, [item], 0.0, LastNotYet(|Defer(s, used + 1, item, limits).queue|)),
                Again(0, 0.0, LastNotYet(1));
    PassOfAnother(s, used, item, limits);
    OneMore(Start, earlier, limits, s, e);
    PassesOfOne(earlier, e, 0);
    var between := After(s, e, limits);
    PassOfTheFirst(between, used + 1, limits);
    OneMore(Start, earlier + [e], limits, between, f);
    PassesOfOne(earlier + [e], f, 0);
    events, end := earlier + [e] + [f], After(between, f, limits);
  }

  // How often an utterance is passed has no bound of its own: with a limit of three attempts or more, later
  // utterances of the source keep it waiting through any number of its passes.
  lemma {:induction false} SomeRunWaits(item: Item, limits: Limits, n: nat) returns (events: seq<Event>, end: State)
    requires limits.Valid() && limits.maxAttempts >= 3 && limits.maxAge >= 0.0
    requires item.attempts == 0 && item.queuedAt == 0.0
    ensures Leads(Start, events, limits, end) && Waits(end, n, 2) && PassesOf(events, 0) == n + 1
    decreases n
  {
    if n == 0 {
      events, end := FirstRound(item, limits);
    } else {
      var earlier, s := SomeRunWaits(item, limits, n - 1);
      events, end := Round(earlier, s, n - 1, item, limits);
    }
  }

  function PassesOf(events: seq<Event>, u: nat): nat {
    if events == [] then 0
    else PassesOf(Init(events), u) + (if !Final(events).GiveUp? && Final(events).u == u then 1 else 0)
  }

  lemma {:induction false} PassesOfOne(events: seq<Event>, e: Event, u: nat)
    ensures PassesOf(events + [e], u) == PassesOf(events, u) + (if !e.GiveUp? && e.u == u then 1 else 0)
  {
    assert Init(events + [e]) == events && Final(events + [e]) == e;
  }

  lemma {:induction false} SecondTakesIt(item: Item, limits: Limits)
    requires limits.Valid() && limits.maxAge >= 0.0 && item.attempts == 0 && item.queuedAt == 0.0
    ensures var e := First(1, [], 0.0, [Well]);
            Possible(Begun(item), e, limits) && After(Begun(item), e, limits) == Crossed(item)
  {
    var queue := Begun(item).queue;
    assert queue[..0] == [] && [Well][..0] == [];
    assert KeptBy(queue[..0], [Well][..0], 0.0, limits) == [] && LostBy(queue[..0], [Well][..0], 0.0, limits) == [];
    assert TakenBy(1, queue[..0], [Well][..0], 0.0, limits) == [];
  }

  // The second utterance is finished and has taken the packet that the first one waits for.
  function Crossed(item: Item): State {
    State([], [Origin(0, item.packet)], [Taken(Recovered(item.packet, []), 0, 1, 0)], [], {0}, {1}, {})
  }

  lemma {:induction false} FirstEndsWithoutIt(item: Item, limits: Limits)
    ensures var e := Again(0, 0.0, []);
            Possible(Crossed(item), e, limits)
            && After(Crossed(item), e, limits) == Crossed(item).(waiting := {}, finished := {0, 1})
  {
  }

  // A run in which the second utterance takes the packet of the first, which ends without it.
  lemma {:induction false} SomeRunCrosses(item: Item, limits: Limits) returns (events: seq<Event>, end: State)
    requires limits.Valid() && limits.maxAttempts >= 2 && limits.maxAge >= 0.0
    requires item.attempts == 0 && item.queuedAt == 0.0
    ensures Leads(Start, events, limits, end)
    ensures end == Crossed(item).(waiting := {}, finished := {0, 1})
  {
    FirstOfAll(item, limits);
    SecondTakesIt(item, limits);
    FirstEndsWithoutIt(item, limits);
    events := Extended([], Start, First(0, [item], 0.0, LastNotYet(1)), limits);
    events := Extended(events, Begun(item), First(1, [], 0.0, [Well]), limits);
    events := Extended(events, Crossed(item), Again(0, 0.0, []), limits);
    end := Crossed(item).(waiting := {}, finished := {0, 1});
  }

  lemma {:induction false} Extended(events: seq<Event>, s: State, e: Event, limits: Limits) returns (more: seq<Event>)
    requires Leads(Start, events, limits, s) && Possible(s, e, limits)
    ensures Leads(Start, more, limits, After(s, e, limits))
  {
    OneMore(Start, events, limits, s, e);
    more := events + [e];
  }
}
