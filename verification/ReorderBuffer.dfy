// The per-source reorder buffer in front of utterance routing, and the receive
// loop that feeds and drains it.
module ReorderBuffer {
  import opened Wrappers
  import opened Sequence16
  import opened PacketOrder

  datatype ReorderState = ReorderState(
    buffer: map<Seq16, Packet>,
    firstSeenAt: map<Seq16, real>,
    lastReleased: Option<Seq16>)
  {
    // Each packet is filed under its own number, and every buffered number has an age.
    ghost predicate Valid() {
      && (forall s :: s in buffer ==> buffer[s].sequence == s)
      && firstSeenAt.Keys == buffer.Keys
    }

    // Where release order starts: just after the last release, or at the smallest number held.
    function Anchor(): (a: Seq16)
      requires buffer != map[] || lastReleased.Some?
      ensures lastReleased.Some? ==> a == if lastReleased.value == 65535 then 0 else lastReleased.value + 1
      ensures lastReleased == None ==> a in buffer && forall s :: s in buffer ==> a <= s
    {
      match lastReleased
      case Some(l) => Advance(l, 1)
      case None => Least(buffer.Keys)
    }
  }

  // Every packet held belongs to the source it is held for.
  ghost predicate Owns(st: ReorderState, ssrc: nat) {
    forall s :: s in st.buffer ==> st.buffer[s].ssrc == ssrc
  }

  const NOTHING_BUFFERED := ReorderState(map[], map[], None)

  // `s` is the buffered number nearest to the anchor, going forward.
  ghost predicate IsNearest(buffer: map<Seq16, Packet>, anchor: Seq16, s: Seq16) {
    s in buffer && forall t :: t in buffer ==> Delta(s, anchor) <= Delta(t, anchor)
  }

  function Nearest(buffer: map<Seq16, Packet>, anchor: Seq16): (s: Seq16)
    requires buffer != map[]
    ensures IsNearest(buffer, anchor, s)
  {
    var distances := set t | t in buffer :: Delta(t, anchor);
    assert distances != {} by {
      var t :| t in buffer;
      assert Delta(t, anchor) in distances;
    }
    assert forall t :: t in buffer ==> Delta(t, anchor) in distances;
    var least := Least(distances);
    assert Delta(Advance(anchor, least), anchor) == least by { DeltaAdvance(anchor, least); }
    Advance(anchor, least)
  }

  // `ready` and `after` split `before`: `ready` is the beginning of its circular order from `anchor`.
  ghost predicate ReleasesPrefix(before: ReorderState, ready: seq<Packet>, after: ReorderState, anchor: Seq16) {
    && Increasing(ready, anchor)
    && (forall k :: 0 <= k < |ready| ==> Buffered(before, ready[k]) && ready[k].sequence !in after.buffer)
    && (forall s :: s in before.buffer ==> s in after.buffer || Seen(ready, s))
    && (forall s :: s in after.buffer ==> SameEntry(before, after, s))
    && (forall k, s :: 0 <= k < |ready| && s in after.buffer ==> Delta(ready[k].sequence, anchor) < Delta(s, anchor))
    && |after.buffer| + |ready| == |before.buffer|
  }

  ghost predicate Buffered(st: ReorderState, p: Packet) {
    p.sequence in st.buffer && st.buffer[p.sequence] == p
  }

  ghost predicate SameEntry(before: ReorderState, after: ReorderState, s: Seq16) {
    && s in before.buffer && s in after.buffer && after.buffer[s] == before.buffer[s]
    && s in before.firstSeenAt && s in after.firstSeenAt && after.firstSeenAt[s] == before.firstSeenAt[s]
  }

  // The last number released once `ready` has gone out.
  function ReleasedBy(before: ReorderState, ready: seq<Packet>): Option<Seq16> {
    if ready == [] then before.lastReleased else Some(ready[|ready| - 1].sequence)
  }

  // Some packet still held after the releases in `ready` has been waiting for `wait` or longer.
  ghost predicate SomeoneWaited(before: ReorderState, ready: seq<Packet>, now: real, wait: real) {
    exists s :: s in before.firstSeenAt && !Seen(ready, s) && now - before.firstSeenAt[s] >= wait
  }

  // Why a packet may go out after `ready`: it is the next number (or the very first),
  // the window is full, or some packet has waited long enough.
  ghost predicate MayRelease(before: ReorderState, ready: seq<Packet>, s: Seq16, window: nat, now: real, wait: real) {
    || ReleasedBy(before, ready) == None
    || s == Advance(ReleasedBy(before, ready).value, 1)
    || |before.buffer| - |ready| >= window
    || SomeoneWaited(before, ready, now, wait)
  }

  ghost predicate AllJustified(before: ReorderState, ready: seq<Packet>, window: nat, now: real, wait: real) {
    forall k :: 0 <= k < |ready| ==> MayRelease(before, ready[..k], ready[k].sequence, window, now, wait)
  }

  // The result of one drain of a non-empty state.
  ghost predicate Drained(before: ReorderState, flushAll: bool, window: nat, now: real, wait: real,
                          ready: seq<Packet>, after: ReorderState)
    requires before.buffer != map[]
  {
    && ReleasesPrefix(before, ready, after, before.Anchor())
    && after.lastReleased == ReleasedBy(before, ready)
    && (flushAll ==> after.buffer == map[])
    && (!flushAll ==>
          && AllJustified(before, ready, window, now, wait)
          && (after.buffer != map[] ==> Held(after, window, now, wait)))
  }

  // What holds of the packets that a drain leaves behind.
  ghost predicate Held(after: ReorderState, window: nat, now: real, wait: real) {
    && after.lastReleased.Some?
    && Advance(after.lastReleased.value, 1) !in after.buffer
    && |after.buffer| < window
    && forall s :: s in after.firstSeenAt ==> now - after.firstSeenAt[s] < wait
  }

  // Choosing from the moved anchor agrees with the order from the first one.
  lemma NearestStaysNearest(before: ReorderState, ready: seq<Packet>, current: ReorderState, chosen: Seq16)
    requires before.buffer != map[] && current.buffer != map[]
    requires ReleasesPrefix(before, ready, current, before.Anchor())
    requires current.lastReleased == ReleasedBy(before, ready)
    requires ready == [] ==> current == before
    requires IsNearest(current.buffer, current.Anchor(), chosen)
    ensures IsNearest(current.buffer, before.Anchor(), chosen)
  {
    var anchor := before.Anchor();
    if ready != [] {
      var last := ready[|ready| - 1].sequence;
      forall s | s in current.buffer
        ensures Delta(chosen, anchor) <= Delta(s, anchor)
      {
        MoveAnchor(anchor, last, s);
        MoveAnchor(anchor, last, chosen);
      }
    }
  }

  function Without(st: ReorderState, s: Seq16): ReorderState {
    ReorderState(st.buffer - {s}, st.firstSeenAt - {s}, Some(s))
  }

  lemma RestIsFurther(before: ReorderState, current: ReorderState, chosen: Seq16, anchor: Seq16, s: Seq16)
    requires IsNearest(current.buffer, anchor, chosen) && s in current.buffer && s != chosen
    requires SameEntry(before, current, s)
    ensures SameEntry(before, Without(current, chosen), s) && Delta(chosen, anchor) < Delta(s, anchor)
  {
    if Delta(chosen, anchor) == Delta(s, anchor) {
      DeltaInjective(chosen, s, anchor);
    }
  }

  // Taking the nearest packet out leaves every other one where it is, further away.
  lemma OthersStay(before: ReorderState, current: ReorderState, chosen: Seq16, anchor: Seq16)
    requires current.Valid() && IsNearest(current.buffer, anchor, chosen)
    requires forall s :: s in current.buffer ==> SameEntry(before, current, s)
    ensures var after := Without(current, chosen);
            && after.Valid() && |after.buffer| + 1 == |current.buffer|
            && forall s :: s in after.buffer ==> SameEntry(before, after, s) && Delta(chosen, anchor) < Delta(s, anchor)
  {
    var after := Without(current, chosen);
    assert after.buffer.Keys == current.buffer.Keys - {chosen};
    forall s | s in after.buffer
      ensures SameEntry(before, after, s) && Delta(chosen, anchor) < Delta(s, anchor)
    {
      RestIsFurther(before, current, chosen, anchor, s);
    }
  }

  lemma ReleaseStep(before: ReorderState, ready: seq<Packet>, current: ReorderState, chosen: Seq16, anchor: Seq16)
    requires current.Valid()
    requires ReleasesPrefix(before, ready, current, anchor)
    requires IsNearest(current.buffer, anchor, chosen)
    ensures ReleasesPrefix(before, ready + [current.buffer[chosen]], Without(current, chosen), anchor)
    ensures Without(current, chosen).Valid()
    ensures Without(current, chosen).lastReleased == ReleasedBy(before, ready + [current.buffer[chosen]])
  {
    var p, after := current.buffer[chosen], Without(current, chosen);
    var out := ready + [p];
    SeenSnoc(ready, p);
    OthersStay(before, current, chosen, anchor);
    IncreasingSnoc(ready, p, anchor);
    forall k | 0 <= k < |out|
      ensures Buffered(before, out[k]) && out[k].sequence !in after.buffer
    {
      assert SameEntry(before, current, chosen);
    }
  }

  lemma IncreasingSnoc(ready: seq<Packet>, p: Packet, anchor: Seq16)
    requires Increasing(ready, anchor)
    requires forall k :: 0 <= k < |ready| ==> Delta(ready[k].sequence, anchor) < Delta(p.sequence, anchor)
    ensures Increasing(ready + [p], anchor)
  {
  }

  lemma SeenSnoc(ready: seq<Packet>, p: Packet)
    ensures forall s :: Seen(ready + [p], s) <==> Seen(ready, s) || s == p.sequence
  {
    forall s
      ensures Seen(ready + [p], s) <==> Seen(ready, s) || s == p.sequence
    {
      SeenStep(ready + [p], s);
      assert (ready + [p])[..|ready|] == ready;
    }
  }

  lemma Justify(before: ReorderState, ready: seq<Packet>, current: ReorderState, chosen: Seq16,
                window: nat, now: real, wait: real)
    requires before.buffer != map[] && current.Valid() && chosen in current.buffer
    requires ReleasesPrefix(before, ready, current, before.Anchor())
    requires current.lastReleased == ReleasedBy(before, ready)
    requires || current.lastReleased == None
             || chosen == Advance(current.lastReleased.value, 1)
             || |current.buffer| >= window
             || exists s :: s in current.firstSeenAt && now - current.firstSeenAt[s] >= wait
    ensures MayRelease(before, ready, chosen, window, now, wait)
  {
    if s :| s in current.firstSeenAt && now - current.firstSeenAt[s] >= wait {
      assert SameEntry(before, current, s) && !Seen(ready, s);
    }
  }

  // If the expected number were buffered, it would be the nearest.
  lemma NearestIsExpected(st: ReorderState, chosen: Seq16)
    requires st.lastReleased.Some? && IsNearest(st.buffer, st.Anchor(), chosen)
    ensures st.Anchor() in st.buffer <==> chosen == st.Anchor()
  {
    if st.Anchor() in st.buffer {
      DeltaInjective(chosen, st.Anchor(), st.Anchor());
    }
  }

  lemma JustifiedPrefixes(before: ReorderState, ready: seq<Packet>, p: Packet, window: nat, now: real, wait: real)
    requires AllJustified(before, ready, window, now, wait) && MayRelease(before, ready, p.sequence, window, now, wait)
    ensures AllJustified(before, ready + [p], window, now, wait)
  {
    var out := ready + [p];
    forall k | 0 <= k < |out|
      ensures MayRelease(before, out[..k], out[k].sequence, window, now, wait)
    {
      assert out[..k] == ready[..k];
      assert k == |ready| ==> ready[..k] == ready;
    }
  }

  class VoiceReorder {
    var states: map<nat, ReorderState>
    const jitterPackets: nat
    const jitterWait: real
    const onsetPackets: nat
    const onsetWait: real

    ghost predicate Valid()
      reads this
    {
      forall ssrc :: ssrc in states ==> states[ssrc].Valid() && states[ssrc].buffer != map[] && Owns(states[ssrc], ssrc)
    }

    constructor (jitterPackets: nat, jitterWait: real, onsetPackets: nat, onsetWait: real)
      ensures Valid() && states == map[]
      ensures this.jitterPackets == jitterPackets && this.jitterWait == jitterWait
    {
      this.states := map[];
      this.jitterPackets, this.jitterWait := jitterPackets, jitterWait;
      this.onsetPackets, this.onsetWait := onsetPackets, onsetWait;
    }

    function ChooseReorderSeq(ssrc: nat): (chosen: Option<Seq16>)
      requires Valid()
      reads this
      ensures ssrc !in states <==> chosen == None
      ensures chosen.Some? ==> IsNearest(states[ssrc].buffer, states[ssrc].Anchor(), chosen.value)
    {
      if ssrc !in states then None
      else Some(Nearest(states[ssrc].buffer, states[ssrc].Anchor()))
    }

    method IngestPacket(packet: Packet, clock: real)
      requires Valid()
      modifies this
      ensures Valid()
      ensures states == old(states)[packet.ssrc := Filed(StateOf(old(states), packet.ssrc), packet, clock)]
      // so a buffer that held the survivors of some arrivals holds the survivors of one more
      ensures forall earlier :: BufferOf(old(states), packet.ssrc) == Survivors(earlier) ==>
                BufferOf(states, packet.ssrc) == Survivors(earlier + [packet])
    {
      var state := StateOf(states, packet.ssrc);
      FiledKeepsSurvivors(state, packet, clock);
      FiledIsValid(state, packet, clock);
      var next := FileArrival(state, packet, clock);
      states := states[packet.ssrc := next];
    }

    // The state of one source with one more arrival.
    method FileArrival(state: ReorderState, packet: Packet, clock: real) returns (next: ReorderState)
      requires state.Valid()
      ensures next == Filed(state, packet, clock)
      // every other number stays as it is, and so does the release history
      ensures next.buffer - {packet.sequence} == state.buffer - {packet.sequence}
      ensures next.lastReleased == state.lastReleased
      ensures if packet.sequence !in state.buffer then
                && packet.sequence in next.buffer && next.buffer[packet.sequence] == packet
                && next.firstSeenAt == state.firstSeenAt[packet.sequence := SeenAt(packet, clock)]
              else
                && packet.sequence in next.buffer && next.firstSeenAt == state.firstSeenAt
                && next.buffer[packet.sequence] == if Beats(state.buffer[packet.sequence], packet)
                                                   then state.buffer[packet.sequence] else packet
    {
      var sequence := packet.sequence;
      if sequence in state.buffer {
        var existing := state.buffer[sequence];
        if existing.rawPacket.Some? && !packet.rawPacket.Some? {
          return state;
        }
        if existing.rawPacket.Some? == packet.rawPacket.Some? && |existing.payload| > |packet.payload| {
          return state;
        }
      }
      var firstSeenAt := state.firstSeenAt;
      if sequence !in firstSeenAt {
        firstSeenAt := firstSeenAt[sequence := SeenAt(packet, clock)];
      }
      return state.(buffer := state.buffer[sequence := packet], firstSeenAt := firstSeenAt);
    }

    // The loop of one drain, on the state of one source.
    method DrainState(before: ReorderState, now: real, flushAll: bool) returns (ready: seq<Packet>, state: ReorderState)
      requires before.Valid() && before.buffer != map[]
      ensures Drained(before, flushAll, jitterPackets, now, jitterWait, ready, state) && state.Valid()
      ensures state.lastReleased == if ready == [] then before.lastReleased else Some(ready[|ready| - 1].sequence)
    {
      ready, state := [], before;
      ghost var anchor := before.Anchor();
      while state.buffer != map[]
        invariant state.Valid()
        invariant ready == [] ==> state == before
        invariant ReleasesPrefix(before, ready, state, anchor)
        invariant state.lastReleased == ReleasedBy(before, ready)
        invariant !flushAll ==> AllJustified(before, ready, jitterPackets, now, jitterWait)
        decreases |state.buffer|
      {
        var chosen := Nearest(state.buffer, state.Anchor());
        var expected := if state.lastReleased.Some? then Advance(state.lastReleased.value, 1) else chosen;
        var onsetPhase := state.lastReleased == None;
        var wait := if onsetPhase then onsetWait else jitterWait;
        var window := if onsetPhase then onsetPackets else jitterPackets;
        var waitedLongEnough := exists s :: s in state.firstSeenAt && now - state.firstSeenAt[s] >= wait;
        var haveWindow := |state.buffer| >= window;
        var inOrderReady := chosen == expected;
        if !flushAll && !inOrderReady && !haveWindow && !waitedLongEnough {
          NearestIsExpected(state, chosen);
          break;
        }
        if !flushAll {
          Justify(before, ready, state, chosen, jitterPackets, now, jitterWait);
          JustifiedPrefixes(before, ready, state.buffer[chosen], jitterPackets, now, jitterWait);
        }
        NearestStaysNearest(before, ready, state, chosen);
        ReleaseStep(before, ready, state, chosen, anchor);
        ready := ready + [state.buffer[chosen]];
        state := Without(state, chosen);
      }
    }

    method DrainReadyPackets(ssrc: nat, now: real, flushAll: bool)
      returns (ready: seq<Packet>, ghost after: ReorderState)
      requires Valid()
      modifies this
      ensures Valid()
      ensures ssrc !in old(states) ==> ready == [] && states == old(states)
      ensures ssrc in old(states) ==> Drained(old(states)[ssrc], flushAll, jitterPackets, now, jitterWait, ready, after)
      ensures ssrc in old(states) ==>
                states == if after.buffer == map[] then old(states) - {ssrc} else old(states)[ssrc := after]
      ensures forall k :: 0 <= k < |ready| ==> ready[k].ssrc == ssrc
    {
      if ssrc !in states {
        return [], NOTHING_BUFFERED;
      }
      var state;
      ready, state := DrainState(states[ssrc], now, flushAll);
      after := state;
      StillOwns(states[ssrc], ready, after, ssrc);
      states := Stored(states, ssrc, state);
    }

    // Drains the forced sources to the end, or with none forced gives every source one ordinary drain.
    method FlushReadyReordered(now: real, force: set<nat>)
      returns (routed: seq<Packet>, ghost outcomes: map<nat, Outcome>)
      requires Valid()
      modifies this
      ensures Valid()
      ensures forall s :: s in outcomes <==> s in old(states) && (force == {} || s in force)
      ensures Flushed(old(states), force, jitterPackets, now, jitterWait, routed, outcomes)
      ensures states == AfterAll(old(states), outcomes)
      // a source emptied by its drain is forgotten, the others keep what their drain left, or all they had
      ensures forall s :: s in states <==> s in old(states) && (s in outcomes ==> outcomes[s].after.buffer != map[])
      ensures forall s :: s in states ==> states[s] == if s in outcomes then outcomes[s].after else old(states)[s]
    {
      var targets := if force == {} then states.Keys else force;
      ghost var all := targets;
      ghost var before := states;
      routed, outcomes := [], map[];
      AfterNone(states);
      while targets != {}
        invariant Valid()
        invariant targets <= all
        invariant forall s :: s in outcomes <==> s in all && s !in targets && s in before
        invariant states == AfterAll(before, outcomes)
        invariant Flushed(before, force, jitterPackets, now, jitterWait, routed, outcomes)
        decreases |targets|
      {
        var ssrc :| ssrc in targets;
        targets := targets - {ssrc};
        routed, outcomes := RouteReady(ssrc, now, force, routed, before, outcomes);
      }
    }

    // One turn of that loop: the drain of one source, routed behind what went before.
    method RouteReady(ssrc: nat, now: real, force: set<nat>, routed: seq<Packet>,
                      ghost before: map<nat, ReorderState>, ghost outcomes: map<nat, Outcome>)
      returns (all: seq<Packet>, ghost more: map<nat, Outcome>)
      requires Valid() && ssrc !in outcomes && states == AfterAll(before, outcomes)
      requires Flushed(before, force, jitterPackets, now, jitterWait, routed, outcomes)
      modifies this
      ensures Valid() && states == AfterAll(before, more)
      ensures Flushed(before, force, jitterPackets, now, jitterWait, all, more)
      ensures forall s :: s in more <==> s in outcomes || (s == ssrc && s in before)
    {
      AfterOneMore(before, outcomes, ssrc);
      var ready;
      ghost var after;
      ready, after := DrainReadyPackets(ssrc, now, ssrc in force);
      FlushStep(before, force, jitterPackets, now, jitterWait, routed, outcomes, ssrc, ready, after);
      all := routed + ready;
      more := if ssrc in before then outcomes[ssrc := Outcome(ready, after)] else outcomes;
    }

    // The receive loop: each arrival is filed and its source drained to the end at once,
    // each timeout gives the sources held an ordinary drain. From an empty buffer the packets
    // therefore leave in exactly the order they came, and nothing is ever held back.
    method DecryptLoop(inputs: seq<Input>) returns (routed: seq<Packet>)
      requires Valid() && states == map[]
      modifies this
      ensures states == map[]
      ensures routed == Arrivals(inputs)
    {
      routed := [];
      var i := 0;
      while i < |inputs|
        invariant 0 <= i <= |inputs|
        invariant Valid() && states == map[]
        invariant routed == Arrivals(inputs[..i])
      {
        assert inputs[..i + 1][..i] == inputs[..i];
        var input := inputs[i];
        var out;
        ghost var outcomes;
        if input.Arrival? {
          out := Receive(input.packet, input.now);
        } else {
          out, outcomes := FlushReadyReordered(input.now, {});
          NothingFrom(out);
        }
        routed := routed + out;
        i := i + 1;
      }
      assert inputs[..i] == inputs;
    }

    // One arrival of that loop.
    method Receive(packet: Packet, now: real) returns (routed: seq<Packet>)
      requires Valid() && states == map[]
      modifies this
      ensures states == map[] && routed == [packet]
    {
      IngestPacket(packet, now);
      ghost var held := states;
      FirstIsAlone(packet, now);
      ghost var outcomes;
      routed, outcomes := FlushReadyReordered(now, {packet.ssrc});
      OneForcedOut(held, packet, jitterPackets, now, jitterWait, routed, outcomes);
    }
  }

  // Each outcome is a drain of its source, and what was routed of a source is what that drain released.
  ghost predicate Flushed(before: map<nat, ReorderState>, force: set<nat>, window: nat, now: real, wait: real,
                          routed: seq<Packet>, outcomes: map<nat, Outcome>)
  {
    && (forall s :: s in outcomes ==> DrainedAt(before, s, s in force, window, now, wait, outcomes[s]))
    && RoutedAs(routed, outcomes)
  }

  ghost predicate RoutedAs(routed: seq<Packet>, outcomes: map<nat, Outcome>) {
    forall s :: From(routed, s) == if s in outcomes then outcomes[s].ready else []
  }

  ghost predicate DrainedAt(before: map<nat, ReorderState>, ssrc: nat, flushAll: bool, window: nat, now: real,
                            wait: real, o: Outcome)
  {
    && ssrc in before && before[ssrc].buffer != map[]
    && Drained(before[ssrc], flushAll, window, now, wait, o.ready, o.after)
  }

  lemma FlushStep(before: map<nat, ReorderState>, force: set<nat>, window: nat, now: real, wait: real,
                  routed: seq<Packet>, outcomes: map<nat, Outcome>, ssrc: nat, ready: seq<Packet>, after: ReorderState)
    requires Flushed(before, force, window, now, wait, routed, outcomes) && ssrc !in outcomes
    requires ssrc in before ==> DrainedAt(before, ssrc, ssrc in force, window, now, wait, Outcome(ready, after))
    requires ssrc !in before ==> ready == []
    requires forall k :: 0 <= k < |ready| ==> ready[k].ssrc == ssrc
    ensures Flushed(before, force, window, now, wait, routed + ready,
                    if ssrc in before then outcomes[ssrc := Outcome(ready, after)] else outcomes)
  {
    RoutedStep(routed, outcomes, ssrc, ready, after);
    if ssrc !in before {
      RoutedNothing(routed, outcomes, ready);
    }
  }

  lemma RoutedStep(routed: seq<Packet>, outcomes: map<nat, Outcome>, ssrc: nat, ready: seq<Packet>, after: ReorderState)
    requires RoutedAs(routed, outcomes) && ssrc !in outcomes
    requires forall k :: 0 <= k < |ready| ==> ready[k].ssrc == ssrc
    ensures RoutedAs(routed + ready, outcomes[ssrc := Outcome(ready, after)])
  {
    var more := outcomes[ssrc := Outcome(ready, after)];
    FromOne(routed, ready, ssrc);
    forall s
      ensures From(routed + ready, s) == if s in more then more[s].ready else []
    {
      assert From(routed, s) == if s in outcomes then outcomes[s].ready else [];
      assert [] + ready == ready;
      if s != ssrc {
        assert From(routed, s) + [] == From(routed, s);
      }
    }
  }

  lemma RoutedNothing(routed: seq<Packet>, outcomes: map<nat, Outcome>, ready: seq<Packet>)
    requires RoutedAs(routed, outcomes) && ready == []
    ensures RoutedAs(routed + ready, outcomes)
  {
    assert routed + ready == routed;
  }

  lemma AfterNone(states: map<nat, ReorderState>)
    ensures AfterAll(states, map[]) == states
  {
  }

  lemma AfterOneMore(states: map<nat, ReorderState>, outcomes: map<nat, Outcome>, ssrc: nat)
    requires ssrc !in outcomes
    ensures ssrc in AfterAll(states, outcomes) <==> ssrc in states
    ensures ssrc in states ==> AfterAll(states, outcomes)[ssrc] == states[ssrc]
    ensures ssrc in states ==>
              forall o: Outcome :: AfterAll(states, outcomes[ssrc := o]) ==
                Stored(AfterAll(states, outcomes), ssrc, o.after)
  {
  }

  function BufferOf(states: map<nat, ReorderState>, ssrc: nat): map<Seq16, Packet> {
    if ssrc in states then states[ssrc].buffer else map[]
  }

  function StateOf(states: map<nat, ReorderState>, ssrc: nat): ReorderState {
    if ssrc in states then states[ssrc] else NOTHING_BUFFERED
  }

  function SeenAt(packet: Packet, clock: real): real {
    if packet.receivedAt.Some? && packet.receivedAt.value != 0.0 then packet.receivedAt.value else clock
  }

  // The state with one arrival filed: a better packet replaces the one there, and the number keeps the time it was
  // first seen.
  function Filed(st: ReorderState, p: Packet, clock: real): ReorderState {
    var number := p.sequence;
    if number in st.buffer && !AtLeastAsGood(p, st.buffer[number]) then st
    else
      st.(buffer := st.buffer[number := p],
          firstSeenAt := if number in st.buffer then st.firstSeenAt else st.firstSeenAt[number := SeenAt(p, clock)])
  }

  // The arrivals of one source, each with the clock when it was filed, with no drain in between.
  function FiledAll(arrivals: seq<(Packet, real)>): ReorderState {
    if arrivals == [] then NOTHING_BUFFERED
    else
      var last := arrivals[|arrivals| - 1];
      Filed(FiledAll(arrivals[..|arrivals| - 1]), last.0, last.1)
  }

  // Arrival `i` is the first with the number `s`.
  ghost predicate FirstWith(arrivals: seq<(Packet, real)>, s: Seq16, i: nat) {
    i < |arrivals| && arrivals[i].0.sequence == s && forall j :: 0 <= j < i ==> arrivals[j].0.sequence != s
  }

  ghost predicate Filled(st: ReorderState, arrivals: seq<(Packet, real)>, s: Seq16) {
    s in st.buffer && s in st.firstSeenAt && exists i: nat :: FirstSeenWith(st, arrivals, s, i)
  }

  // The number was first seen when arrival `i` was received, or by the clock if that is not known.
  ghost predicate FirstSeenWith(st: ReorderState, arrivals: seq<(Packet, real)>, s: Seq16, i: nat)
    requires s in st.firstSeenAt
  {
    && FirstWith(arrivals, s, i)
    && var (p, clock) := arrivals[i];
       st.firstSeenAt[s] == if p.receivedAt == None || p.receivedAt == Some(0.0) then clock else p.receivedAt.value
  }

  // Whatever replaces a packet, its number keeps the time of its first arrival, so the wait is never begun anew.
  lemma {:induction false} SeenFirstStays(arrivals: seq<(Packet, real)>, s: Seq16)
    requires exists i: nat :: i < |arrivals| && arrivals[i].0.sequence == s
    ensures Filled(FiledAll(arrivals), arrivals, s)
    decreases |arrivals|
  {
    var n := |arrivals| - 1;
    var init := arrivals[..n];
    FiledNames(init, s);
    if i: nat :| i < n && arrivals[i].0.sequence == s {
      assert init[i].0.sequence == s;
      SeenFirstStays(init, s);
      var first: nat :| FirstSeenWith(FiledAll(init), init, s, first);
      assert FirstWith(arrivals, s, first);
      assert FirstSeenWith(FiledAll(arrivals), arrivals, s, first);
    } else {
      assert FirstWith(arrivals, s, n);
      assert FirstSeenWith(FiledAll(arrivals), arrivals, s, n);
    }
  }

  lemma {:induction false} FiledNames(arrivals: seq<(Packet, real)>, s: Seq16)
    ensures s in FiledAll(arrivals).buffer ==> exists i: nat :: i < |arrivals| && arrivals[i].0.sequence == s
    decreases |arrivals|
  {
    if arrivals != [] {
      var init := arrivals[..|arrivals| - 1];
      FiledNames(init, s);
      if s in FiledAll(init).buffer {
        var i: nat :| i < |init| && init[i].0.sequence == s;
        assert arrivals[i].0.sequence == s;
      }
    }
  }

  lemma FiledIsValid(st: ReorderState, p: Packet, clock: real)
    requires st.Valid()
    ensures Filed(st, p, clock).Valid() && Filed(st, p, clock).buffer != map[]
  {
    assert p.sequence in Filed(st, p, clock).buffer;
  }

  lemma FirstIsAlone(p: Packet, clock: real)
    ensures Filed(NOTHING_BUFFERED, p, clock).buffer == map[p.sequence := p]
  {
  }

  lemma FiledKeepsSurvivors(st: ReorderState, p: Packet, clock: real)
    ensures forall earlier {:trigger Survivors(earlier + [p])} :: st.buffer == Survivors(earlier) ==>
              Filed(st, p, clock).buffer == Survivors(earlier + [p])
  {
    forall earlier: seq<Packet> | st.buffer == Survivors(earlier)
      ensures Filed(st, p, clock).buffer == Survivors(earlier + [p])
    {
      assert (earlier + [p])[..|earlier + [p]| - 1] == earlier;
    }
  }

  datatype Outcome = Outcome(ready: seq<Packet>, after: ReorderState)

  // A source whose buffer has emptied is forgotten, its release history included.
  function Stored(states: map<nat, ReorderState>, ssrc: nat, state: ReorderState): map<nat, ReorderState> {
    if state.buffer == map[] then states - {ssrc} else states[ssrc := state]
  }

  ghost function AfterAll(states: map<nat, ReorderState>, outcomes: map<nat, Outcome>): map<nat, ReorderState> {
    map s | s in states && (s in outcomes ==> outcomes[s].after.buffer != map[])
      :: if s in outcomes then outcomes[s].after else states[s]
  }

  lemma StillOwns(before: ReorderState, ready: seq<Packet>, after: ReorderState, ssrc: nat)
    requires before.buffer != map[] && Owns(before, ssrc)
    requires ReleasesPrefix(before, ready, after, before.Anchor())
    ensures Owns(after, ssrc)
    ensures forall k :: 0 <= k < |ready| ==> ready[k].ssrc == ssrc
  {
    forall s | s in after.buffer
      ensures after.buffer[s].ssrc == ssrc
    {
      assert SameEntry(before, after, s);
    }
    assert forall k :: 0 <= k < |ready| ==> Buffered(before, ready[k]);
  }

  // The packets of one source, in the order they were routed.
  function From(packets: seq<Packet>, ssrc: nat): seq<Packet> {
    if packets == [] then []
    else From(packets[..|packets| - 1], ssrc) +
         (if packets[|packets| - 1].ssrc == ssrc then [packets[|packets| - 1]] else [])
  }

  lemma {:induction false} FromOne(packets: seq<Packet>, ready: seq<Packet>, ssrc: nat)
    requires forall k :: 0 <= k < |ready| ==> ready[k].ssrc == ssrc
    ensures forall s :: From(packets + ready, s) == From(packets, s) + if s == ssrc then ready else []
    decreases |ready|
  {
    if ready == [] {
      assert packets + ready == packets;
    } else {
      var n := |ready| - 1;
      var e := packets + ready;
      FromOne(packets, ready[..n], ssrc);
      assert e[..|e| - 1] == packets + ready[..n] && e[|e| - 1] == ready[n];
      assert ready == ready[..n] + [ready[n]];
    }
  }

  lemma {:induction false} NothingFrom(packets: seq<Packet>)
    requires forall s :: From(packets, s) == []
    ensures packets == []
  {
    assert packets == [] || From(packets, packets[|packets| - 1].ssrc) == [];
  }

  lemma {:induction false} AllFromOne(packets: seq<Packet>, ssrc: nat)
    requires forall s :: s != ssrc ==> From(packets, s) == []
    ensures From(packets, ssrc) == packets
    decreases |packets|
  {
    if packets == [] {
    } else {
      var init, p := packets[..|packets| - 1], packets[|packets| - 1];
      assert p.ssrc == ssrc || From(packets, p.ssrc) == [];
      forall s | s != ssrc
        ensures From(init, s) == []
      {
        assert From(packets, s) == From(init, s) + if p.ssrc == s then [p] else [];
      }
      AllFromOne(init, ssrc);
      assert packets == init + [p];
    }
  }

  lemma SinglePacketDrain(before: ReorderState, packet: Packet, window: nat, now: real, wait: real, o: Outcome)
    requires before.buffer == map[packet.sequence := packet] && packet.sequence in before.buffer
    requires Drained(before, true, window, now, wait, o.ready, o.after)
    ensures o.ready == [packet] && o.after.buffer == map[]
  {
    assert |before.buffer| == 1 && |o.ready| == 1;
    assert Buffered(before, o.ready[0]);
  }

  // Forcing out a buffer that holds nothing but one packet routes that packet and leaves nothing.
  lemma OneForcedOut(held: map<nat, ReorderState>, packet: Packet, window: nat, now: real, wait: real,
                     routed: seq<Packet>, outcomes: map<nat, Outcome>)
    requires held.Keys == {packet.ssrc} && held[packet.ssrc].buffer == map[packet.sequence := packet]
    requires outcomes.Keys == {packet.ssrc} && Flushed(held, {packet.ssrc}, window, now, wait, routed, outcomes)
    ensures routed == [packet] && AfterAll(held, outcomes) == map[]
  {
    var o := outcomes[packet.ssrc];
    assert DrainedAt(held, packet.ssrc, true, window, now, wait, o);
    SinglePacketDrain(held[packet.ssrc], packet, window, now, wait, o);
    OnlyRouted(routed, outcomes, packet);
    NothingAfter(held, outcomes, packet.ssrc);
  }

  lemma OnlyRouted(routed: seq<Packet>, outcomes: map<nat, Outcome>, packet: Packet)
    requires RoutedAs(routed, outcomes) && outcomes.Keys == {packet.ssrc} && outcomes[packet.ssrc].ready == [packet]
    ensures routed == [packet]
  {
    AllFromOne(routed, packet.ssrc);
  }

  lemma NothingAfter(held: map<nat, ReorderState>, outcomes: map<nat, Outcome>, ssrc: nat)
    requires held.Keys == {ssrc} == outcomes.Keys && outcomes[ssrc].after.buffer == map[]
    ensures AfterAll(held, outcomes) == map[]
  {
    assert forall s :: s !in AfterAll(held, outcomes);
  }

  datatype Input = Arrival(packet: Packet, now: real) | Timeout(now: real)

  function Arrivals(inputs: seq<Input>): seq<Packet> {
    if inputs == [] then []
    else
      var last := inputs[|inputs| - 1];
      Arrivals(inputs[..|inputs| - 1]) + (if last.Arrival? then [last.packet] else [])
  }

  // A buffer of the survivors of some arrivals, forced out, comes out in exactly the order in which the survivors
  // are listed from where the release order starts.
  lemma ForcedDrainOrders(before: ReorderState, arrivals: seq<Packet>, window: nat, now: real, wait: real,
                          ready: seq<Packet>, after: ReorderState, ordered: seq<Packet>)
    requires before.Valid() && before.buffer == Survivors(arrivals) != map[]
    requires Drained(before, true, window, now, wait, ready, after)
    requires Lists(ordered, Survivors(arrivals), before.Anchor())
    ensures ready == ordered
  {
    assert forall k :: 0 <= k < |ready| ==> Buffered(before, ready[k]);
    ListingIsUnique(ready, ordered, Survivors(arrivals), before.Anchor());
  }

  // ---------- a drain has only one possible outcome ----------

  // `a` is the beginning of the buffer's circular order.
  ghost predicate Beginning(buffer: map<Seq16, Packet>, a: seq<Packet>, anchor: Seq16) {
    && Increasing(a, anchor)
    && (forall k :: 0 <= k < |a| ==> a[k].sequence in buffer && buffer[a[k].sequence] == a[k])
    && (forall k, s :: 0 <= k < |a| && s in buffer && !Seen(a, s) ==> Delta(a[k].sequence, anchor) < Delta(s, anchor))
  }

  lemma ReleasesABeginning(before: ReorderState, ready: seq<Packet>, after: ReorderState, anchor: Seq16)
    requires ReleasesPrefix(before, ready, after, anchor)
    ensures Beginning(before.buffer, ready, anchor)
  {
    assert forall k :: 0 <= k < |ready| ==> Buffered(before, ready[k]);
  }

  lemma IndexOf(a: seq<Packet>, s: Seq16) returns (j: nat)
    requires Seen(a, s)
    ensures j < |a| && a[j].sequence == s
  {
    j :| 0 <= j < |a| && a[j].sequence == s;
  }

  lemma Later(packets: seq<Packet>, anchor: Seq16, i: nat, j: nat)
    requires Increasing(packets, anchor) && i <= j < |packets|
    ensures Delta(packets[i].sequence, anchor) <= Delta(packets[j].sequence, anchor)
    ensures i < j ==> packets[i].sequence != packets[j].sequence
  {
  }

  // Release `i` is no later on the circle than release `i` of another beginning that agrees so far.
  lemma NotBefore(buffer: map<Seq16, Packet>, a: seq<Packet>, b: seq<Packet>, anchor: Seq16, i: nat)
    requires Beginning(buffer, a, anchor) && Beginning(buffer, b, anchor)
    requires i < |a| && i < |b| && forall t :: 0 <= t < i ==> a[t] == b[t]
    ensures Delta(a[i].sequence, anchor) <= Delta(b[i].sequence, anchor)
  {
    var s := b[i].sequence;
    if Seen(a, s) {
      var j := IndexOf(a, s);
      Later(b, anchor, if j < i then j else i, i);
      Later(a, anchor, i, if j < i then i else j);
    }
  }

  lemma SameAt(buffer: map<Seq16, Packet>, a: seq<Packet>, b: seq<Packet>, anchor: Seq16, i: nat)
    requires Beginning(buffer, a, anchor) && Beginning(buffer, b, anchor)
    requires i < |a| && i < |b| && forall t :: 0 <= t < i ==> a[t] == b[t]
    ensures a[i] == b[i]
  {
    NotBefore(buffer, a, b, anchor, i);
    NotBefore(buffer, b, a, anchor, i);
    DeltaInjective(a[i].sequence, b[i].sequence, anchor);
    assert buffer[a[i].sequence] == a[i] && buffer[b[i].sequence] == b[i];
  }

  lemma {:induction false} SameBeginning(buffer: map<Seq16, Packet>, a: seq<Packet>, b: seq<Packet>, anchor: Seq16,
                                         k: nat)
    requires Beginning(buffer, a, anchor) && Beginning(buffer, b, anchor)
    requires k <= |a| && k <= |b|
    ensures forall t :: 0 <= t < k ==> a[t] == b[t]
    decreases k
  {
    if k > 0 {
      SameBeginning(buffer, a, b, anchor, k - 1);
      SameAt(buffer, a, b, anchor, k - 1);
    }
  }

  // A drain that stopped had no reason to release anything it left behind.
  lemma HeldMayNotGo(before: ReorderState, window: nat, now: real, wait: real, a: seq<Packet>, x: ReorderState,
                     s: Seq16)
    requires before.Valid() && before.buffer != map[] && x.Valid() && s in x.buffer
    requires Drained(before, false, window, now, wait, a, x)
    ensures !MayRelease(before, a, s, window, now, wait)
  {
    forall t | t in before.firstSeenAt && !Seen(a, t)
      ensures now - before.firstSeenAt[t] < wait
    {
      assert SameEntry(before, x, t);
    }
  }

  // An ordinary drain releases nothing exactly if something was released before, the next number is missing, the window
  // is not full, and no packet has waited long enough; and whatever has waited long enough goes.
  lemma HoldsAllExactly(before: ReorderState, window: nat, now: real, wait: real, ready: seq<Packet>,
                        after: ReorderState)
    requires before.Valid() && before.buffer != map[] && after.Valid()
    requires Drained(before, false, window, now, wait, ready, after)
    ensures ready == [] <==>
            && before.lastReleased.Some? && (before.lastReleased.value + 1) % 65536 !in before.buffer
            && |before.buffer| < window
            && forall s :: s in before.firstSeenAt ==> now - before.firstSeenAt[s] < wait
    ensures forall s :: s in after.buffer ==> now - before.firstSeenAt[s] < wait
  {
    forall s | s in after.buffer
      ensures now - before.firstSeenAt[s] < wait
    {
      assert SameEntry(before, after, s);
    }
    if ready == [] {
      assert forall s :: s in before.buffer ==> s in after.buffer;
    } else {
      assert ready[..0] == [];
      assert Buffered(before, ready[0]) && MayRelease(before, ready[..0], ready[0].sequence, window, now, wait);
    }
  }

  lemma NextIsHeld(before: ReorderState, a: seq<Packet>, x: ReorderState, b: seq<Packet>, anchor: Seq16)
    requires ReleasesPrefix(before, a, x, anchor) && Beginning(before.buffer, b, anchor)
    requires |a| < |b|
    ensures b[..|a|] == a && b[|a|].sequence in x.buffer
  {
    ReleasesABeginning(before, a, x, anchor);
    SameBeginning(before.buffer, a, b, anchor, |a|);
    if Seen(a, b[|a|].sequence) {
      var j := IndexOf(a, b[|a|].sequence);
      Later(b, anchor, j, |a|);
    }
  }

  lemma NeverLonger(before: ReorderState, flushAll: bool, window: nat, now: real, wait: real,
                    a: seq<Packet>, x: ReorderState, b: seq<Packet>, y: ReorderState)
    requires before.Valid() && before.buffer != map[] && x.Valid()
    requires Drained(before, flushAll, window, now, wait, a, x)
    requires Drained(before, flushAll, window, now, wait, b, y)
    ensures |b| <= |a|
  {
    if !flushAll && |a| < |b| {
      ReleasesABeginning(before, b, y, before.Anchor());
      NextIsHeld(before, a, x, b, before.Anchor());
      HeldMayNotGo(before, window, now, wait, a, x, b[|a|].sequence);
    }
  }

  lemma SameLeft(before: ReorderState, a: seq<Packet>, x: ReorderState, y: ReorderState, anchor: Seq16)
    requires x.Valid() && y.Valid()
    requires ReleasesPrefix(before, a, x, anchor) && ReleasesPrefix(before, a, y, anchor)
    ensures x.buffer == y.buffer && x.firstSeenAt == y.firstSeenAt
  {
    forall s: Seq16
      ensures s in x.buffer <==> s in y.buffer
      ensures s in x.buffer ==> SameEntry(before, x, s) && SameEntry(before, y, s)
    {
      assert s in x.buffer ==> SameEntry(before, x, s) && !Seen(a, s);
      assert s in y.buffer ==> SameEntry(before, y, s) && !Seen(a, s);
    }
  }

  // The contract leaves no choice: state, mode, window, time and wait fix what goes out and what stays.
  // The onset window and the onset wait are not among them, so they never have an effect.
  lemma DrainIsDetermined(before: ReorderState, flushAll: bool, window: nat, now: real, wait: real,
                          a: seq<Packet>, x: ReorderState, b: seq<Packet>, y: ReorderState)
    requires before.Valid() && before.buffer != map[] && x.Valid() && y.Valid()
    requires Drained(before, flushAll, window, now, wait, a, x)
    requires Drained(before, flushAll, window, now, wait, b, y)
    ensures a == b && x == y
  {
    NeverLonger(before, flushAll, window, now, wait, a, x, b, y);
    NeverLonger(before, flushAll, window, now, wait, b, y, a, x);
    SameSplit(before, a, x, b, y, before.Anchor());
  }

  lemma SameSplit(before: ReorderState, a: seq<Packet>, x: ReorderState, b: seq<Packet>, y: ReorderState, anchor: Seq16)
    requires x.Valid() && y.Valid() && |a| == |b|
    requires ReleasesPrefix(before, a, x, anchor) && ReleasesPrefix(before, b, y, anchor)
    ensures a == b && x.buffer == y.buffer && x.firstSeenAt == y.firstSeenAt
  {
    SameReleases(before, a, x, b, y, anchor);
    SameLeft(before, a, x, y, anchor);
  }

  lemma SameReleases(before: ReorderState, a: seq<Packet>, x: ReorderState, b: seq<Packet>, y: ReorderState,
                     anchor: Seq16)
    requires |a| == |b|
    requires ReleasesPrefix(before, a, x, anchor) && ReleasesPrefix(before, b, y, anchor)
    ensures a == b
  {
    ReleasesABeginning(before, a, x, anchor);
    ReleasesABeginning(before, b, y, anchor);
    SameBeginning(before.buffer, a, b, anchor, |a|);
  }
}
