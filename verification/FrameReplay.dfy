// The encryption-session frames the gateway holds back until there is a session for them, and their replay,
// during which other messages go on arriving and another websocket may take the place of the present one.
module FrameReplay {

  type Frame = nat

  // A frame, and the websocket it was held back on.
  datatype Held = Held(frame: Frame, from: nat)

  // A frame given to the handler of the websocket `on` in a replay.
  datatype Offered = Offered(held: Held, on: nat)

  // The steps that can fall between each other. A message has two around the ordinary handler: its arrival, where a
  // frame of the right kind is held back while there is no session, and its end, where a replay begins if there is a
  // session now. A replay delivers its frames one by one.
  datatype Event =
    | Bind(ws: nat)
    | Arrives(ws: nat, frame: Frame, heldBack: bool, session: bool)
    | Handled(ws: nat, session: bool)
    | Delivers(ok: bool)

  // `batch` is what the replay under way has still to deliver, to the handlers of the websocket `on`. The rest is a
  // record: what has left the queue, what a handler has taken, and what was offered to which websocket.
  datatype Queue = Queue(
    ws: nat, pending: seq<Held>, replaying: bool, batch: seq<Held>, on: nat,
    gone: seq<Held>, received: seq<Held>, offered: seq<Offered>)

  const EMPTY := Queue(0, [], false, [], 0, [], [], [])

  // ---------- one step ----------

  predicate Holds(q: Queue, e: Event) {
    e.Arrives? && e.ws == q.ws && !q.replaying && e.heldBack && !e.session
  }

  predicate Starts(q: Queue, e: Event) {
    e.Handled? && e.ws == q.ws && e.session && !q.replaying && q.pending != []
  }

  // The frame that fails takes the ones behind it with it.
  function Deliver(q: Queue, ok: bool): Queue
    requires q.batch != []
  {
    var rest := if ok then q.batch[1..] else [];
    q.(batch := rest, replaying := rest != [],
       gone := q.gone + (if ok then [q.batch[0]] else q.batch),
       received := q.received + (if ok then [q.batch[0]] else []),
       offered := q.offered + [Offered(q.batch[0], q.on)])
  }

  function Step(q: Queue, e: Event): Queue {
    match e
    case Bind(ws) => q.(ws := ws)
    case Arrives(_, frame, _, _) => if Holds(q, e) then q.(pending := q.pending + [Held(frame, q.ws)]) else q
    case Handled(ws, _) =>
      if Starts(q, e) then q.(replaying := true, batch := q.pending, on := ws, pending := []) else q
    case Delivers(ok) => if q.batch == [] then q else Deliver(q, ok)
  }

  function Run(q: Queue, events: seq<Event>): Queue {
    if events == [] then q else Step(Run(q, AllBut(events)), LastOf(events))
  }

  function AllBut<T>(events: seq<T>): seq<T>
    requires events != []
  {
    events[..|events| - 1]
  }

  function LastOf<T>(events: seq<T>): T
    requires events != []
  {
    events[|events| - 1]
  }

  lemma {:induction false} RunConcat(q: Queue, a: seq<Event>, b: seq<Event>)
    ensures Run(q, a + b) == Run(Run(q, a), b)
    decreases |b|
  {
    if b == [] {
      assert a + b == a;
    } else {
      assert AllBut(a + b) == a + AllBut(b);
      RunConcat(q, a, AllBut(b));
    }
  }

  lemma RunSnoc(q: Queue, events: seq<Event>, e: Event)
    ensures Run(q, events + [e]) == Step(Run(q, events), e)
  {
    assert AllBut(events + [e]) == events;
  }

  // ---------- what happens during a replay ----------

  function LastBound(ws: nat, events: seq<Event>): nat {
    if events == [] then ws
    else if LastOf(events).Bind? then LastOf(events).ws else LastBound(ws, AllBut(events))
  }

  ghost predicate NoDelivery(events: seq<Event>) {
    forall i :: 0 <= i < |events| ==> !events[i].Delivers?
  }

  // Between two deliveries of a replay nothing is held back and no other replay begins, whatever arrives on
  // whatever websocket.
  lemma {:induction false} AsidesDoNothing(q: Queue, events: seq<Event>)
    requires q.replaying && NoDelivery(events)
    ensures Run(q, events) == q.(ws := LastBound(q.ws, events))
    decreases |events|
  {
    if events != [] {
      AsidesDoNothing(q, AllBut(events));
    }
  }

  // ---------- one replay ----------

  // The deliveries among the events, and whether all of them went well.
  function DeliveriesIn(events: seq<Event>): nat {
    if events == [] then 0 else DeliveriesIn(AllBut(events)) + (if LastOf(events).Delivers? then 1 else 0)
  }

  ghost predicate AllGoWell(events: seq<Event>) {
    forall i :: 0 <= i < |events| && events[i].Delivers? ==> events[i].ok
  }

  function Offers(frames: seq<Held>, ws: nat): seq<Offered> {
    seq(|frames|, i requires 0 <= i < |frames| => Offered(frames[i], ws))
  }

  // A replay after `n` of the frames that waited were delivered well, whatever was bound meanwhile.
  function After(q: Queue, n: nat, ws: nat): Queue
    requires n <= |q.pending|
  {
    q.(ws := ws, pending := [], replaying := n < |q.pending|, on := q.ws, batch := q.pending[n..],
       gone := q.gone + q.pending[..n], received := q.received + q.pending[..n],
       offered := q.offered + Offers(q.pending[..n], q.ws))
  }

  lemma OneMoreDelivered(q: Queue, n: nat, ws: nat)
    requires n < |q.pending|
    ensures Step(After(q, n, ws), Delivers(true)) == After(q, n + 1, ws)
  {
    assert q.pending[..n] + [q.pending[n]] == q.pending[..n + 1];
    assert q.gone + q.pending[..n] + [q.pending[n]] == q.gone + q.pending[..n + 1];
    assert q.received + q.pending[..n] + [q.pending[n]] == q.received + q.pending[..n + 1];
    assert Offers(q.pending[..n], q.ws) + [Offered(q.pending[n], q.ws)] == Offers(q.pending[..n + 1], q.ws);
    assert q.offered + Offers(q.pending[..n], q.ws) + [Offered(q.pending[n], q.ws)]
        == q.offered + Offers(q.pending[..n + 1], q.ws);
  }

  // The end of a message on the present websocket, with a session and frames waiting outside a replay, begins one.
  // It empties the queue and gives the frames in order, one with each delivery, to the handlers of that websocket.
  lemma {:induction false} ReplayGoesOn(q: Queue, events: seq<Event>)
    requires Inv(q) && !q.replaying && q.pending != []
    requires AllGoWell(events) && DeliveriesIn(events) <= |q.pending|
    requires DeliveriesIn(events) < |q.pending| || (events != [] && LastOf(events).Delivers?)
    ensures Run(Step(q, Handled(q.ws, true)), events) == After(q, DeliveriesIn(events), LastBound(q.ws, events))
    decreases |events|
  {
    if events == [] {
      assert q.gone + [] == q.gone && q.received + [] == q.received && q.offered + Offers([], q.ws) == q.offered;
    } else {
      var init := AllBut(events);
      assert forall i :: 0 <= i < |init| ==> init[i] == events[i];
      ReplayGoesOn(q, init);
      if LastOf(events).Delivers? {
        assert LastOf(events) == Delivers(true);
        OneMoreDelivered(q, DeliveriesIn(init), LastBound(q.ws, init));
      }
    }
  }

  // A delivery that fails ends the replay: its frame was offered but not taken, and the ones behind it are gone too.
  lemma ReplayBreaksOff(q: Queue, events: seq<Event>)
    requires Inv(q) && !q.replaying && q.pending != []
    requires AllGoWell(events) && DeliveriesIn(events) < |q.pending|
    ensures var n := DeliveriesIn(events);
            Run(Step(q, Handled(q.ws, true)), events + [Delivers(false)]) ==
            q.(ws := LastBound(q.ws, events), pending := [], replaying := false, on := q.ws, batch := [],
               gone := q.gone + q.pending, received := q.received + q.pending[..n],
               offered := q.offered + Offers(q.pending[..n + 1], q.ws))
  {
    ReplayGoesOn(q, events);
    RunSnoc(Step(q, Handled(q.ws, true)), events, Delivers(false));
    OneFails(q, DeliveriesIn(events), LastBound(q.ws, events));
  }

  lemma OneFails(q: Queue, n: nat, ws: nat)
    requires n < |q.pending|
    ensures Step(After(q, n, ws), Delivers(false)) ==
            q.(ws := ws, pending := [], replaying := false, on := q.ws, batch := [],
               gone := q.gone + q.pending, received := q.received + q.pending[..n],
               offered := q.offered + Offers(q.pending[..n + 1], q.ws))
  {
    assert q.gone + q.pending[..n] + q.pending[n..] == q.gone + q.pending;
    assert q.received + q.pending[..n] + [] == q.received + q.pending[..n];
    assert Offers(q.pending[..n], q.ws) + [Offered(q.pending[n], q.ws)] == Offers(q.pending[..n + 1], q.ws);
    assert q.offered + Offers(q.pending[..n], q.ws) + [Offered(q.pending[n], q.ws)]
        == q.offered + Offers(q.pending[..n + 1], q.ws);
  }

  // ---------- every frame ----------

  // Outside a replay there is no batch, and during one nothing waits.
  ghost predicate Inv(q: Queue) {
    && (q.replaying <==> q.batch != [])
    && (q.replaying ==> q.pending == [])
  }

  lemma {:induction false} RunKeepsInv(q: Queue, events: seq<Event>)
    requires Inv(q)
    ensures Inv(Run(q, events))
    decreases |events|
  {
    if events != [] {
      RunKeepsInv(q, AllBut(events));
    }
  }

  // The frames that were to be held back, in order: of the right kind, come on the websocket bound last, without a
  // session, and outside a replay.
  function HeldBack(events: seq<Event>): seq<Held> {
    if events == [] then []
    else
      var init, e := AllBut(events), LastOf(events);
      var due := e.Arrives? && e.heldBack && !e.session && e.ws == LastBound(0, init) && !Run(EMPTY, init).replaying;
      HeldBack(init) + (if due then [Held(e.frame, e.ws)] else [])
  }

  lemma {:induction false} BoundLast(events: seq<Event>)
    ensures Run(EMPTY, events).ws == LastBound(0, events)
    decreases |events|
  {
    if events != [] {
      BoundLast(AllBut(events));
    }
  }

  // Whatever the order in which messages begin and end, each frame held back has left, is being replayed or waits,
  // once and in order.
  lemma {:induction false} EveryFrameWaitsOrLeft(events: seq<Event>)
    ensures var q := Run(EMPTY, events);
            Inv(q) && q.gone + q.batch + q.pending == HeldBack(events)
    decreases |events|
  {
    if events != [] {
      EveryFrameWaitsOrLeft(AllBut(events));
      BoundLast(AllBut(events));
      StepKeepsFrames(Run(EMPTY, AllBut(events)), LastOf(events));
    }
  }

  lemma StepKeepsFrames(q: Queue, e: Event)
    requires Inv(q)
    ensures var t := Step(q, e);
            && Inv(t)
            && t.gone + t.batch + t.pending ==
               q.gone + q.batch + q.pending + (if Holds(q, e) then [Held(e.frame, e.ws)] else [])
  {
    if e.Delivers? && q.batch != [] {
      assert q.batch == [q.batch[0]] + q.batch[1..];
    }
  }

  // A delivery of a replay fails in this step.
  predicate Fails(q: Queue, e: Event) {
    e.Delivers? && !e.ok && q.batch != []
  }

  ghost predicate NeverFails(events: seq<Event>) {
    forall k :: 0 <= k < |events| ==> !Fails(Run(EMPTY, events[..k]), events[k])
  }

  lemma NeverFailsSnoc(events: seq<Event>)
    requires events != []
    ensures NeverFails(events) <==>
            NeverFails(AllBut(events)) && !Fails(Run(EMPTY, AllBut(events)), LastOf(events))
  {
    var init := AllBut(events);
    assert forall k :: 0 <= k < |init| ==> init[..k] == events[..k] && init[k] == events[k];
    assert events[..|init|] == init;
    if NeverFails(events) {
      forall k | 0 <= k < |init|
        ensures !Fails(Run(EMPTY, init[..k]), init[k])
      {
        assert !Fails(Run(EMPTY, events[..k]), events[k]);
      }
    }
  }

  // What a handler has taken falls behind what has left exactly by the deliveries that fail.
  lemma {:induction false} ReceivedExactly(events: seq<Event>)
    ensures var q := Run(EMPTY, events);
            && |q.received| <= |q.gone|
            && (|q.received| == |q.gone| <==> NeverFails(events))
            && (|q.received| == |q.gone| ==> q.received == q.gone)
    decreases |events|
  {
    if events != [] {
      ReceivedExactly(AllBut(events));
      NeverFailsSnoc(events);
    }
  }

  // Every frame held back is taken by a handler, being replayed or waiting if, and only if, no delivery ever fails.
  lemma NothingLostExactly(events: seq<Event>)
    ensures var q := Run(EMPTY, events);
            q.received + q.batch + q.pending == HeldBack(events) <==> NeverFails(events)
  {
    var q := Run(EMPTY, events);
    EveryFrameWaitsOrLeft(events);
    ReceivedExactly(events);
    if q.received + q.batch + q.pending == HeldBack(events) {
      assert |q.received + q.batch + q.pending| == |q.gone + q.batch + q.pending|;
    }
  }

  // ---------- which websocket gets a frame ----------

  ghost predicate AllFrom(frames: seq<Held>, ws: nat) {
    forall i :: 0 <= i < |frames| ==> frames[i].from == ws
  }

  // No frame was offered to the handlers of another websocket than the one it came on.
  ghost predicate StaysHome(q: Queue) {
    forall i :: 0 <= i < |q.offered| ==> q.offered[i].held.from == q.offered[i].on
  }

  ghost predicate NoBind(events: seq<Event>) {
    forall i :: 0 <= i < |events| ==> !events[i].Bind?
  }

  // Nothing has crossed, and nothing in the replay under way or in the queue is of another websocket.
  ghost predicate Home(q: Queue) {
    Inv(q) && StaysHome(q) && AllFrom(q.batch, q.on) && AllFrom(q.pending, q.ws)
  }

  lemma StepStaysHome(q: Queue, e: Event)
    requires Home(q) && (e.Bind? ==> q.pending == [] || e.ws == q.ws)
    ensures Home(Step(q, e))
  {
  }

  lemma {:induction false} RunStaysHome(q: Queue, events: seq<Event>)
    requires Home(q) && NoBind(events)
    ensures Home(Run(q, events))
    decreases |events|
  {
    if events != [] {
      RunStaysHome(q, AllBut(events));
      StepStaysHome(Run(q, AllBut(events)), LastOf(events));
    }
  }

  ghost predicate StaysHomeForEver(q: Queue) {
    forall more: seq<Event> :: NoBind(more) ==> StaysHome(Run(q, more))
  }

  // Binding a new websocket is safe exactly with nothing held back: then, and only then, no continuation on that
  // websocket offers it a frame of an earlier one.
  lemma BindIsSafeExactly(q: Queue, ws: nat)
    requires Home(q) && ws != q.ws
    ensures StaysHomeForEver(Step(q, Bind(ws))) <==> q.pending == []
  {
    var bound := Step(q, Bind(ws));
    if q.pending == [] {
      forall more: seq<Event> | NoBind(more)
        ensures StaysHome(Run(bound, more))
      {
        RunStaysHome(bound, more);
      }
    } else {
      var more := [] + [Handled(ws, true)] + [Delivers(true)];
      RunSnoc(bound, [], Handled(ws, true));
      RunSnoc(bound, [] + [Handled(ws, true)], Delivers(true));
      var end := Run(bound, more);
      assert end.offered[|q.offered|] == Offered(q.pending[0], ws);
      assert !StaysHome(end) && NoBind(more);
    }
  }

  // Each binding in the run finds nothing held back, or binds the same websocket again.
  ghost predicate BindsWhenEmpty(events: seq<Event>) {
    forall k :: 0 <= k < |events| && events[k].Bind? ==>
      var q := Run(EMPTY, events[..k]); q.pending == [] || events[k].ws == q.ws
  }

  lemma {:induction false} NothingCrosses(events: seq<Event>)
    requires BindsWhenEmpty(events)
    ensures Home(Run(EMPTY, events))
    decreases |events|
  {
    if events != [] {
      var init := AllBut(events);
      assert events[..|init|] == init;
      forall k | 0 <= k < |init| && init[k].Bind?
        ensures var q := Run(EMPTY, init[..k]); q.pending == [] || init[k].ws == q.ws
      {
        assert init[..k] == events[..k] && init[k] == events[k];
      }
      NothingCrosses(init);
      StepStaysHome(Run(EMPTY, init), LastOf(events));
    }
  }

  // A run from the start that gives a frame of one websocket to the next one.
  lemma SomeRunCrosses(frame: Frame)
    ensures var events := [Bind(1), Arrives(1, frame, true, false), Bind(2), Handled(2, true), Delivers(true)];
            Run(EMPTY, events).offered == [Offered(Held(frame, 1), 2)]
  {
    var a, b, c, d, e := Bind(1), Arrives(1, frame, true, false), Bind(2), Handled(2, true), Delivers(true);
    RunSnoc(EMPTY, [], a);
    RunSnoc(EMPTY, [a], b);
    RunSnoc(EMPTY, [a, b], c);
    RunSnoc(EMPTY, [a, b, c], d);
    RunSnoc(EMPTY, [a, b, c, d], e);
    assert [] + [a] == [a] && [a] + [b] == [a, b] && [a, b] + [c] == [a, b, c];
    assert [a, b, c] + [d] == [a, b, c, d] && [a, b, c, d] + [e] == [a, b, c, d, e];
  }

  // ---------- the gateway's queue ----------

  // One frame's delivery in a replay: what else happens meanwhile, and whether the handler takes the frame.
  datatype Delivery = Delivery(meanwhile: seq<Event>, ok: bool)

  // The steps of delivering `n` frames, up to the first that fails.
  function Deliveries(n: nat, deliveries: seq<Delivery>): seq<Event> {
    if n == 0 || deliveries == [] then []
    else
      var d := deliveries[0];
      StepsOf(d) + (if d.ok then Deliveries(n - 1, deliveries[1..]) else [])
  }

  function StepsOf(d: Delivery): seq<Event> {
    d.meanwhile + [Delivers(d.ok)]
  }

  lemma DeliveriesStep(done: seq<Event>, n: nat, deliveries: seq<Delivery>, i: nat)
    requires n > 0 && i < |deliveries|
    ensures done + Deliveries(n, deliveries[i..]) ==
            done + StepsOf(deliveries[i]) + (if deliveries[i].ok then Deliveries(n - 1, deliveries[i + 1..]) else [])
  {
    assert deliveries[i..][0] == deliveries[i] && deliveries[i..][1..] == deliveries[i + 1..];
  }

  // The end of a message, with the replay it may begin.
  function Ending(q: Queue, ws: nat, session: bool, deliveries: seq<Delivery>): seq<Event> {
    [Handled(ws, session)] +
    (if Starts(q, Handled(ws, session)) then Deliveries(|q.pending|, deliveries) else [])
  }

  lemma NothingBegins(q: Queue, ws: nat, session: bool, deliveries: seq<Delivery>)
    requires !session || q.replaying || q.pending == []
    ensures Run(q, Ending(q, ws, session, deliveries)) == q
  {
    RunSnoc(q, [], Handled(ws, session));
    assert [] + [Handled(ws, session)] == [Handled(ws, session)] + [];
  }

  // `deliveries` has an entry for each frame at least, and no step of another replay.
  ghost predicate Enough(q: Queue, deliveries: seq<Delivery>) {
    && (q.replaying || |q.pending| <= |deliveries|)
    && forall i :: 0 <= i < |deliveries| ==> NoDelivery(deliveries[i].meanwhile)
  }

  class PendingFrames {
    var ws: nat
    var pending: seq<Held>
    var replaying: bool
    ghost var batch: seq<Held>
    ghost var on: nat
    ghost var gone: seq<Held>
    ghost var received: seq<Held>
    ghost var offered: seq<Offered>

    constructor ()
      ensures Value() == EMPTY
    {
      ws, pending, replaying := 0, [], false;
      batch, on, gone, received, offered := [], 0, [], [], [];
    }

    ghost function Value(): Queue
      reads this
    {
      Queue(ws, pending, replaying, batch, on, gone, received, offered)
    }

    method BindWs(ws: nat)
      modifies this`ws
      ensures Value() == Step(old(Value()), Bind(ws))
    {
      this.ws := ws;
    }

    method BeginMessage(ws: nat, frame: Frame, heldBack: bool, session: bool)
      modifies this`pending
      ensures pending == if ws == this.ws && heldBack && !session && !replaying then old(pending) + [Held(frame, ws)]
                         else old(pending)
      ensures Value() == Step(old(Value()), Arrives(ws, frame, heldBack, session))
    {
      if this.ws != ws {
        return;
      }
      if !replaying && heldBack && !session {
        pending := pending + [Held(frame, ws)];
      }
    }

    method EndMessage(ws: nat, session: bool, deliveries: seq<Delivery>)
      requires Inv(Value()) && Enough(Value(), deliveries)
      modifies this
      ensures Inv(Value())
      ensures Value() == Run(old(Value()), Ending(old(Value()), ws, session, deliveries))
      ensures old(this.ws) != ws || !session || old(replaying) || old(pending) == [] ==> Value() == old(Value())
      decreases |deliveries|, 2
    {
      if this.ws != ws {
        return;
      }
      if !session || replaying || pending == [] {
        NothingBegins(Value(), ws, session, deliveries);
      }
      ReplayPending(session, deliveries);
    }

    // Replays what is waiting, if there is a session now and no replay under way; the queue is emptied first.
    method ReplayPending(session: bool, deliveries: seq<Delivery>)
      requires Inv(Value()) && Enough(Value(), deliveries)
      modifies this
      ensures Inv(Value())
      ensures Value() == Run(old(Value()), Ending(old(Value()), old(ws), session, deliveries))
      decreases |deliveries|, 1
    {
      ghost var start := Value();
      ghost var done := [] + [Handled(ws, session)];
      RunSnoc(start, [], Handled(ws, session));
      if replaying || pending == [] || !session {
        assert [Handled(ws, session)] + [] == done;
        return;
      }
      replaying := true;
      var frames := pending;
      pending := [];
      batch, on := frames, ws;
      var i := 0;
      while i < |frames|
        invariant 0 <= i <= |frames| && replaying && pending == [] && batch == frames[i..]
        invariant Value().(replaying := batch != []) == Run(start, done)
        invariant Ending(start, start.ws, session, deliveries) == done + Deliveries(|frames| - i, deliveries[i..])
      {
        DeliveriesStep(done, |frames| - i, deliveries, i);
        RunConcat(start, done, StepsOf(deliveries[i]));
        DeliverNext(deliveries[i], |deliveries|);
        done := done + StepsOf(deliveries[i]);
        if !deliveries[i].ok {
          break;
        }
        i := i + 1;
      }
      replaying := false;
      assert Ending(start, start.ws, session, deliveries) == done;
    }

    // One turn of the replay: what happens meanwhile, and the delivery.
    method DeliverNext(d: Delivery, ghost budget: nat)
      requires Inv(Value()) && replaying && budget > 0 && NoDelivery(d.meanwhile)
      modifies this
      ensures replaying && pending == [] && batch == if d.ok then old(batch)[1..] else []
      ensures Value().(replaying := batch != []) == Run(old(Value()), StepsOf(d))
      decreases budget, 0, 1
    {
      ghost var start := Value();
      Meanwhile(d.meanwhile, budget);
      RunSnoc(start, d.meanwhile, Delivers(d.ok));
      offered := offered + [Offered(batch[0], on)];
      if d.ok {
        gone, received, batch := gone + [batch[0]], received + [batch[0]], batch[1..];
      } else {
        gone, batch := gone + batch, [];
      }
    }

    // Other messages begin and end, and websockets are bound, while a frame is being delivered.
    method Meanwhile(asides: seq<Event>, ghost budget: nat)
      requires Inv(Value()) && replaying && budget > 0 && NoDelivery(asides)
      modifies this
      ensures Inv(Value()) && Value() == Run(old(Value()), asides)
      ensures Value() == old(Value()).(ws := ws)
      decreases budget, 0, 0
    {
      AsidesDoNothing(Value(), asides);
      assert asides[..0] == [];
      var i := 0;
      while i < |asides|
        invariant 0 <= i <= |asides|
        invariant Inv(Value()) && Value() == old(Value()).(ws := ws) && Value() == Run(old(Value()), asides[..i])
      {
        assert AllBut(asides[..i + 1]) == asides[..i];
        match asides[i] {
          case Bind(ws) => BindWs(ws);
          case Arrives(ws, frame, heldBack, session) => BeginMessage(ws, frame, heldBack, session);
          case Handled(ws, session) =>
            RunSnoc(Value(), [], Handled(ws, session));
            assert [] + [Handled(ws, session)] == [Handled(ws, session)] + [];
            EndMessage(ws, session, []);
          case Delivers(ok) => assert false;
        }
        i := i + 1;
      }
      assert asides[..i] == asides;
    }
  }
}
