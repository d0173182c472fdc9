// The lease a capture holds: acquired, then either handed to the voice client or given back directly, and
// confirmed as released before the capture ends.
module LeaseBinding {
  import opened Wrappers

  // What happened to the leases, which are numbered as they are acquired.
  datatype LeaseCall = Acquired(lease: nat) | HandedOver(lease: nat) | GivenBack(lease: nat) | Confirmed(lease: nat)

  // `releaseConfirmed` is set by the first confirmation and never cleared.
  datatype Binding = Binding(pending: Option<nat>, bound: bool, releaseConfirmed: bool, log: seq<LeaseCall>)

  const UNUSED := Binding(None, false, false, [])

  // How the calls outside answer: whether a lease is granted, the client takes it and starts listening; whether
  // giving back and confirming succeed, there is a client, it stops and drains, and it confirms in time.
  datatype Event =
    | Acquire(granted: bool)
    | BindAndListen(taken: bool, listens: bool)
    | ClientConfirms
    | StopAndRelease(releases: bool, confirms: bool, hasClient: bool, drains: bool, confirmsMeanwhile: bool)

  function CountAcquired(log: seq<LeaseCall>): nat {
    if log == [] then 0 else CountAcquired(log[..|log| - 1]) + if log[|log| - 1].Acquired? then 1 else 0
  }

  // The leases that left, in order: handed to the client or given back.
  function Left(log: seq<LeaseCall>): seq<nat> {
    if log == [] then []
    else
      var last := log[|log| - 1];
      Left(log[..|log| - 1]) + if last.HandedOver? || last.GivenBack? then [last.lease] else []
  }

  // The lease handed to the client, once there is one.
  function ClientLease(log: seq<LeaseCall>): Option<nat> {
    if log == [] then None
    else if log[|log| - 1].HandedOver? then Some(log[|log| - 1].lease)
    else ClientLease(log[..|log| - 1])
  }

  function Confirm(b: Binding, lease: nat): Binding {
    b.(releaseConfirmed := true, log := b.log + [Confirmed(lease)])
  }

  // The new state, and whether the call returns normally.
  function Step(b: Binding, e: Event): (Binding, bool) {
    match e
    case Acquire(granted) =>
      var next := CountAcquired(b.log);
      if b.pending.Some? || b.bound || !granted then (b, false)
      else (b.(pending := Some(next), log := b.log + [Acquired(next)]), true)
    case BindAndListen(taken, listens) =>
      if b.pending == None || b.bound || !taken then (b, false)
      else (b.(pending := None, bound := true, log := b.log + [HandedOver(b.pending.value)]), listens)
    case ClientConfirms =>
      if ClientLease(b.log).Some? then (Confirm(b, ClientLease(b.log).value), true) else (b, true)
    case StopAndRelease(releases, confirms, hasClient, drains, confirmsMeanwhile) =>
      if b.pending.Some? then
        var given := b.(pending := None, log := b.log + [GivenBack(b.pending.value)]);
        if releases && confirms then (Confirm(given, b.pending.value), true) else (given, false)
      else if !b.bound then (b, true)
      else if !hasClient || !drains then (b, false)
      else
        var after := if confirmsMeanwhile && ClientLease(b.log).Some? then Confirm(b, ClientLease(b.log).value) else b;
        (after, after.releaseConfirmed)
  }

  function Run(events: seq<Event>): Binding {
    if events == [] then UNUSED else Step(Run(events[..|events| - 1]), events[|events| - 1]).0
  }

  // ---------- every lease leaves once ----------

  function UpTo(n: nat): seq<nat> {
    seq(n, i => i)
  }

  // Leases leave once each, in the order they were acquired, all but the one still pending; after one was handed
  // over none is acquired, and it was the last; and only what has left is confirmed.
  ghost predicate Inv(b: Binding) {
    && Left(b.log) == UpTo(|Left(b.log)|)
    && CountAcquired(b.log) == |Left(b.log)| + (if b.pending.Some? then 1 else 0)
    && (b.pending.Some? ==> b.pending.value == |Left(b.log)| && !b.bound)
    && (b.bound <==> ClientLease(b.log).Some?)
    && (b.bound ==> |Left(b.log)| > 0 && ClientLease(b.log) == Some(|Left(b.log)| - 1))
    && (forall l: nat :: Confirmed(l) in b.log ==> l < |Left(b.log)|)
    && (b.releaseConfirmed <==> exists l: nat :: Confirmed(l) in b.log)
  }

  lemma LogSnoc(log: seq<LeaseCall>, call: LeaseCall)
    ensures CountAcquired(log + [call]) == CountAcquired(log) + if call.Acquired? then 1 else 0
    ensures Left(log + [call]) == Left(log) + if call.HandedOver? || call.GivenBack? then [call.lease] else []
    ensures ClientLease(log + [call]) == if call.HandedOver? then Some(call.lease) else ClientLease(log)
  {
    assert (log + [call])[..|log|] == log;
  }

  lemma ConfirmKeepsInv(b: Binding, lease: nat)
    requires Inv(b) && lease < |Left(b.log)|
    ensures Inv(Confirm(b, lease))
  {
    LogSnoc(b.log, Confirmed(lease));
  }

  lemma LeavesKeepsInv(b: Binding, call: LeaseCall)
    requires Inv(b) && b.pending.Some? && call in {HandedOver(b.pending.value), GivenBack(b.pending.value)}
    ensures Inv(b.(pending := None, bound := call.HandedOver?, log := b.log + [call]))
    ensures |Left(b.log + [call])| == |Left(b.log)| + 1
  {
    LogSnoc(b.log, call);
  }

  lemma StepKeepsInv(b: Binding, e: Event)
    requires Inv(b)
    ensures Inv(Step(b, e).0)
  {
    match e
    case Acquire(_) =>
      LogSnoc(b.log, Acquired(CountAcquired(b.log)));
    case BindAndListen(_, _) =>
      if b.pending.Some? {
        LeavesKeepsInv(b, HandedOver(b.pending.value));
      }
    case ClientConfirms =>
      if b.bound {
        ConfirmKeepsInv(b, ClientLease(b.log).value);
      }
    case StopAndRelease(_, _, _, _, _) =>
      if b.pending.Some? {
        var call := GivenBack(b.pending.value);
        LeavesKeepsInv(b, call);
        ConfirmKeepsInv(b.(pending := None, log := b.log + [call]), b.pending.value);
      } else if b.bound {
        ConfirmKeepsInv(b, ClientLease(b.log).value);
      }
  }

  lemma {:induction false} RunsKeepInv(events: seq<Event>)
    ensures Inv(Run(events))
    decreases |events|
  {
    if events != [] {
      RunsKeepInv(events[..|events| - 1]);
      StepKeepsInv(Run(events[..|events| - 1]), events[|events| - 1]);
    }
  }

  // ---------- what a stop vouches for ----------

  function Continue(b: Binding, events: seq<Event>): Binding {
    if events == [] then b else Step(Continue(b, events[..|events| - 1]), events[|events| - 1]).0
  }

  ghost predicate Vouches(b: Binding, stop: Event, lease: nat) {
    stop.StopAndRelease? && Step(b, stop).1 ==> Confirmed(lease) in Step(b, stop).0.log
  }

  // The client's lease is the one in question, and what is confirmed includes it.
  ghost predicate Honest(b: Binding, lease: nat) {
    b.pending == None && b.bound && ClientLease(b.log) == Some(lease)
      && (b.releaseConfirmed ==> Confirmed(lease) in b.log)
  }

  lemma StepStaysHonest(b: Binding, e: Event, lease: nat)
    requires Honest(b, lease)
    ensures Honest(Step(b, e).0, lease) && Vouches(b, e, lease)
  {
    LogSnoc(b.log, Confirmed(lease));
  }

  lemma {:induction false} StaysHonest(b: Binding, events: seq<Event>, lease: nat)
    requires Honest(b, lease)
    ensures Honest(Continue(b, events), lease)
    decreases |events|
  {
    if events != [] {
      StaysHonest(b, events[..|events| - 1], lease);
      StepStaysHonest(Continue(b, events[..|events| - 1]), events[|events| - 1], lease);
    }
  }

  ghost predicate AlwaysVouches(b: Binding, lease: nat) {
    forall events, stop :: Vouches(Continue(b, events), stop, lease)
  }

  // From handing a lease over, every stop that returns normally means that this lease was confirmed as released,
  // exactly when nothing had been confirmed before: the record of an earlier lease's release is never cleared.
  lemma StopVouchesExactly(events: seq<Event>, listens: bool)
    requires var b := Run(events); b.pending.Some?
    ensures var b := Run(events);
            AlwaysVouches(Step(b, BindAndListen(true, listens)).0, b.pending.value) <==> !b.releaseConfirmed
  {
    RunsKeepInv(events);
    var b := Run(events);
    var lease := b.pending.value;
    var handed := Step(b, BindAndListen(true, listens)).0;
    LogSnoc(b.log, HandedOver(lease));
    if b.releaseConfirmed {
      var stop := StopAndRelease(true, true, true, true, false);
      assert Continue(handed, []) == handed;
      assert Confirmed(lease) !in b.log && !Vouches(Continue(handed, []), stop, lease);
    } else {
      assert Confirmed(lease) !in b.log;
      forall more, stop
        ensures Vouches(Continue(handed, more), stop, lease)
      {
        StaysHonest(handed, more, lease);
        StepStaysHonest(Continue(handed, more), stop, lease);
      }
    }
  }

  lemma FirstLeaseGivenBack() returns (events: seq<Event>)
    ensures Run(events) == Binding(None, false, true, [Acquired(0), GivenBack(0), Confirmed(0)])
  {
    RunSnoc([], Acquire(true));
    assert Run([] + [Acquire(true)]) == Binding(Some(0), false, false, [Acquired(0)]);
    events := [] + [Acquire(true)] + [StopAndRelease(true, true, false, false, false)];
    RunSnoc([] + [Acquire(true)], StopAndRelease(true, true, false, false, false));
    assert [Acquired(0)] + [GivenBack(0)] + [Confirmed(0)] == [Acquired(0), GivenBack(0), Confirmed(0)];
  }

  lemma {:induction false} SecondLeaseHandedOver() returns (events: seq<Event>)
    ensures Run(events) == Binding(None, true, true,
                                   [Acquired(0), GivenBack(0), Confirmed(0)] + [Acquired(1)] + [HandedOver(1)])
  {
    events := FirstLeaseGivenBack();
    var first := [Acquired(0), GivenBack(0), Confirmed(0)];
    LogSnoc([], Acquired(0));
    LogSnoc([Acquired(0)], GivenBack(0));
    LogSnoc([Acquired(0), GivenBack(0)], Confirmed(0));
    assert [] + [Acquired(0)] == [Acquired(0)] && [Acquired(0)] + [GivenBack(0)] == [Acquired(0), GivenBack(0)];
    assert first == [Acquired(0), GivenBack(0)] + [Confirmed(0)] && CountAcquired(first) == 1;
    RunSnoc(events, Acquire(true));
    RunSnoc(events + [Acquire(true)], BindAndListen(true, true));
    events := events + [Acquire(true)] + [BindAndListen(true, true)];
  }

  // The confirmed release of a first lease lets the stop after a second one return without any confirmation of that.
  lemma {:induction false} SomeStopDoesNotVouch() returns (events: seq<Event>, stop: Event)
    ensures var b := Run(events);
            ClientLease(b.log) == Some(1) && stop.StopAndRelease? && Step(b, stop).1 && !Vouches(b, stop, 1)
  {
    events := SecondLeaseHandedOver();
    LogSnoc([Acquired(0), GivenBack(0), Confirmed(0)] + [Acquired(1)], HandedOver(1));
    stop := StopAndRelease(true, true, true, true, false);
  }

  lemma RunSnoc(events: seq<Event>, e: Event)
    ensures Run(events + [e]) == Step(Run(events), e).0
  {
    assert (events + [e])[..|events|] == events;
  }

  // ---------- the binding ----------

  class VoiceLeaseBinding {
    var pendingToken: Option<nat>
    var bound: bool
    var releaseConfirmed: bool
    ghost var log: seq<LeaseCall>

    constructor ()
      ensures Value() == UNUSED
    {
      pendingToken, bound, releaseConfirmed, log := None, false, false, [];
    }

    ghost function Value(): Binding
      reads this
    {
      Binding(pendingToken, bound, releaseConfirmed, log)
    }

    // `token` is what the lease service answers.
    method AcquireForCapture(token: Option<nat>) returns (ok: bool)
      requires token.Some? ==> token.value == CountAcquired(log)
      modifies this
      ensures ok <==> old(pendingToken) == None && !old(bound) && token.Some?
      ensures if ok then pendingToken == token && log == old(log) + [Acquired(token.value)]
              else pendingToken == old(pendingToken) && log == old(log)
      ensures (Value(), ok) == Step(old(Value()), Acquire(token.Some?))
    {
      if pendingToken.Some? || bound {
        return false;
      }
      if token == None {
        return false;
      }
      pendingToken := token;
      log := log + [Acquired(token.value)];
      return true;
    }

    method Bind(taken: bool, listens: bool) returns (ok: bool)
      modifies this
      ensures var handed := old(pendingToken).Some? && !old(bound) && taken;
              && (ok <==> handed && listens)
              && if handed then pendingToken == None && bound && log == old(log) + [HandedOver(old(pendingToken).value)]
                 else Value() == old(Value())
      ensures (Value(), ok) == Step(old(Value()), BindAndListen(taken, listens))
    {
      if pendingToken == None || bound {
        return false;
      }
      if !taken {
        return false;
      }
      log := log + [HandedOver(pendingToken.value)];
      pendingToken := None;
      bound := true;
      return listens;
    }

    // What the client runs when it gives the lease back.
    method ReleaseAndConfirm()
      modifies this`releaseConfirmed, this`log
      requires ClientLease(log).Some?
      ensures Value() == Step(old(Value()), ClientConfirms).0
    {
      releaseConfirmed := true;
      log := log + [Confirmed(ClientLease(log).value)];
    }

    method Stop(releases: bool, confirms: bool, hasClient: bool, drains: bool, confirmsMeanwhile: bool)
      returns (ok: bool)
      requires Inv(Value())
      modifies this
      ensures (Value(), ok) ==
              Step(old(Value()), StopAndRelease(releases, confirms, hasClient, drains, confirmsMeanwhile))
      ensures ok ==> pendingToken == None && (bound ==> releaseConfirmed)
      // a lease still pending is given back here, and confirmed if all goes well; one handed over is the client's, and
      // the call returns once a confirmation is recorded
      ensures pendingToken == None && bound == old(bound)
      ensures old(pendingToken).Some? ==>
                && (ok <==> releases && confirms)
                && log == old(log) + [GivenBack(old(pendingToken).value)]
                          + (if ok then [Confirmed(old(pendingToken).value)] else [])
      ensures old(pendingToken) == None && !bound ==> ok && log == old(log)
      ensures old(pendingToken) == None && bound ==>
                && (ok <==> hasClient && drains && (confirmsMeanwhile || old(releaseConfirmed)))
                && log == old(log) + (if hasClient && drains && confirmsMeanwhile
                                      then [Confirmed(ClientLease(old(log)).value)] else [])
    {
      if pendingToken.Some? {
        var token := pendingToken.value;
        pendingToken := None;
        log := log + [GivenBack(token)];
        if !releases || !confirms {
          return false;
        }
        releaseConfirmed := true;
        log := log + [Confirmed(token)];
        return true;
      }
      if !bound {
        return true;
      }
      if !hasClient || !drains {
        return false;
      }
      if confirmsMeanwhile {
        ReleaseAndConfirm();
      }
      return releaseConfirmed;
    }
  }
}
