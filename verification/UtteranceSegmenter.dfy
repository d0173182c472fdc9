// Cutting one source's routed packets into utterances, with a preroll of
// packets from just before each one.
module UtteranceSegmenter {
  import opened Wrappers
  import opened PacketOrder

  const OPUS_SILENCE: seq<Byte> := [0xF8, 0xFF, 0xFE]

  predicate VoiceLike(p: Packet) {
    p.payload != [] && p.payload != OPUS_SILENCE
  }

  datatype SourceState = SourceState(
    inUtterance: bool,
    lastVoiceLikeAt: real,
    startedAt: Option<real>,
    packets: seq<Packet>,
    body: seq<Packet>,
    preroll: seq<Packet>,
    lastOnsetDropAt: real)

  const IDLE := SourceState(false, 0.0, None, [], [], [], 0.0)

  datatype Utterance = Utterance(
    ssrc: nat, packets: seq<Packet>, body: seq<Packet>, startedAt: Option<real>, endedAt: real)

  // ---------- one source, one event at a time ----------

  datatype Event =
    | Routed(packet: Packet, at: real)
    | Polled(at: real)
    | OnsetDropped(at: real)
    | OnsetPassed
    | Stopped

  // A packet without an arrival time is taken to have arrived when it is routed.
  function Stamped(p: Packet, now: real): (r: Packet)
    ensures p.receivedAt.Some? ==> r == p
    ensures p.receivedAt == None ==> r.receivedAt == Some(now) && r.(receivedAt := None) == p
  {
    p.(receivedAt := Some(if p.receivedAt.Some? then p.receivedAt.value else now))
  }

  // `p` carries its arrival time already.
  function Route(st: SourceState, p: Packet, now: real, limit: nat): SourceState {
    var starts := VoiceLike(p) && !st.inUtterance;
    var before := if !starts then st.packets else if st.lastOnsetDropAt != 0.0 then [] else st.preroll;
    var open := st.inUtterance || starts;
    SourceState(
      open,
      if VoiceLike(p) then now else st.lastVoiceLikeAt,
      if starts then p.receivedAt else st.startedAt,
      if open then before + [p] else before,
      if starts then [p] else if open then st.body + [p] else st.body,
      TakeLast(st.preroll + [p], limit),
      st.lastOnsetDropAt)
  }

  predicate Ends(st: SourceState, now: real, endSilence: real) {
    st.inUtterance && now - st.lastVoiceLikeAt >= endSilence
  }

  function Closed(st: SourceState): SourceState {
    st.(inUtterance := false, packets := [], body := [], startedAt := None, preroll := [])
  }

  function Finished(ssrc: nat, st: SourceState, now: real): Utterance {
    Utterance(ssrc, st.packets, st.body, st.startedAt, now)
  }

  function After(st: SourceState, e: Event, limit: nat, endSilence: real): SourceState {
    match e
    case Routed(p, now) => Route(st, Stamped(p, now), now, limit)
    case Polled(now) => if Ends(st, now, endSilence) then Closed(st) else st
    case OnsetDropped(at) => st.(lastOnsetDropAt := at, preroll := [])
    case OnsetPassed => st.(lastOnsetDropAt := 0.0)
    case Stopped => IDLE
  }

  // ---------- a run of one source ----------

  function State(events: seq<Event>, limit: nat, endSilence: real): SourceState {
    if events == [] then IDLE
    else After(State(events[..|events| - 1], limit, endSilence), events[|events| - 1], limit, endSilence)
  }

  // Everything routed so far.
  function Stream(events: seq<Event>): seq<Packet> {
    if events == [] then []
    else
      var e := events[|events| - 1];
      Stream(events[..|events| - 1]) + Adds(e)
  }

  function Adds(e: Event): seq<Packet> {
    if e.Routed? then [Stamped(e.packet, e.at)] else []
  }

  // What a step makes of an open utterance: a poll may finish it, a stop drops it.
  function Closes(ssrc: nat, st: SourceState, e: Event, endSilence: real): seq<Option<Utterance>> {
    if e.Polled? && Ends(st, e.at, endSilence) then [Some(Finished(ssrc, st, e.at))]
    else if e.Stopped? && st.inUtterance then [None]
    else []
  }

  // The utterances that have come to an end so far, nothing for those that a stop dropped.
  function Outcomes(ssrc: nat, events: seq<Event>, limit: nat, endSilence: real): seq<Option<Utterance>> {
    if events == [] then []
    else
      var init, e := events[..|events| - 1], events[|events| - 1];
      Outcomes(ssrc, init, limit, endSilence) + Closes(ssrc, State(init, limit, endSilence), e, endSilence)
  }

  // Where an utterance lies in the stream: preroll from `start`, body from `body`, up to `end`.
  datatype Span = Span(start: nat, body: nat, end: nat)

  // ---------- finished utterances are slices ----------

  // The packets in front of the body are at most the preroll; the body starts with voice;
  // nothing voice-like lies between the previous utterance and this body.
  ghost predicate GoodSpan(stream: seq<Packet>, previousEnd: nat, span: Span, limit: nat) {
    && previousEnd <= span.start <= span.body < span.end <= |stream|
    && span.body - span.start <= limit
    && VoiceLike(stream[span.body])
    && forall i :: previousEnd <= i < span.body ==> !VoiceLike(stream[i])
  }

  function EndOf(spans: seq<Span>): nat {
    if spans == [] then 0 else spans[|spans| - 1].end
  }

  // The outcomes belong to the slices `spans` of the stream, disjoint and in order; the finished ones are the slices.
  ghost predicate Slices(done: seq<Option<Utterance>>, stream: seq<Packet>, spans: seq<Span>, limit: nat) {
    && |done| == |spans|
    && forall i :: 0 <= i < |spans| ==> SliceAt(done[i], stream, EndOf(spans[..i]), spans[i], limit)
  }

  ghost predicate IsSuffix(s: seq<Packet>, stream: seq<Packet>) {
    |s| <= |stream| && s == stream[|stream| - |s|..]
  }

  ghost predicate NoVoice(stream: seq<Packet>, from: nat) {
    forall i :: from <= i < |stream| ==> !VoiceLike(stream[i])
  }

  // What the state knows of the stream after the last finished utterance, which ended at `from`.
  ghost predicate Tracks(st: SourceState, stream: seq<Packet>, from: nat, open: Span, limit: nat) {
    && from <= |stream|
    && IsSuffix(st.preroll, stream) && |st.preroll| <= limit
    && if st.inUtterance then TracksOpen(st, stream, from, open, limit) else TracksIdle(st, stream, from)
  }

  ghost predicate TracksIdle(st: SourceState, stream: seq<Packet>, from: nat) {
    && st.packets == [] && st.body == []
    && from + |st.preroll| <= |stream|
    && NoVoice(stream, from)
  }

  ghost predicate TracksOpen(st: SourceState, stream: seq<Packet>, from: nat, open: Span, limit: nat) {
    && open.end == |stream|
    && GoodSpan(stream, from, open, limit)
    && st.packets == stream[open.start..] && st.body == stream[open.body..]
  }

  lemma PrerollStep(preroll: seq<Packet>, stream: seq<Packet>, p: Packet, limit: nat)
    requires IsSuffix(preroll, stream)
    ensures var next := TakeLast(preroll + [p], limit);
            IsSuffix(next, stream + [p]) && |next| <= limit && |next| <= |preroll| + 1
  {
    var all := preroll + [p];
    assert (stream + [p])[|stream| - |preroll|..] == all;
    var next := TakeLast(all, limit);
    assert next == (stream + [p])[|stream| + 1 - |next|..];
  }

  lemma OpenGrows(st: SourceState, p: Packet, now: real, stream: seq<Packet>, from: nat, open: Span, limit: nat)
    requires st.inUtterance && TracksOpen(st, stream, from, open, limit)
    ensures TracksOpen(Route(st, p, now, limit), stream + [p], from, open.(end := |stream| + 1), limit)
  {
    var more := stream + [p];
    assert more[open.start..] == stream[open.start..] + [p];
    assert more[open.body..] == stream[open.body..] + [p];
  }

  lemma OpenStarts(st: SourceState, p: Packet, now: real, stream: seq<Packet>, from: nat, limit: nat)
    returns (open: Span)
    requires !st.inUtterance && VoiceLike(p)
    requires IsSuffix(st.preroll, stream) && |st.preroll| <= limit && TracksIdle(st, stream, from)
    ensures TracksOpen(Route(st, p, now, limit), stream + [p], from, open, limit)
  {
    var more := stream + [p];
    var before := if st.lastOnsetDropAt != 0.0 then [] else st.preroll;
    open := Span(|stream| - |before|, |stream|, |more|);
    assert more[open.start..] == before + [p];
    assert more[open.body..] == [p];
  }

  lemma RouteTracks(st: SourceState, p: Packet, now: real, stream: seq<Packet>, from: nat, open: Span, limit: nat)
    returns (next: Span)
    requires Tracks(st, stream, from, open, limit)
    ensures Tracks(Route(st, p, now, limit), stream + [p], from, next, limit)
  {
    PrerollStep(st.preroll, stream, p, limit);
    next := open;
    if st.inUtterance {
      OpenGrows(st, p, now, stream, from, open, limit);
      next := open.(end := |stream| + 1);
    } else if VoiceLike(p) {
      next := OpenStarts(st, p, now, stream, from, limit);
    }
  }

  // One event: the slices found so far stay, and a poll that ends an utterance adds the open one.
  lemma StepTracks(ssrc: nat, st: SourceState, e: Event, done: seq<Option<Utterance>>, stream: seq<Packet>,
                   spans: seq<Span>, open: Span, limit: nat, endSilence: real)
    returns (more: seq<Span>, next: Span)
    requires Slices(done, stream, spans, limit) && Tracks(st, stream, EndOf(spans), open, limit)
    ensures Slices(done + Closes(ssrc, st, e, endSilence), stream + Adds(e), more, limit)
    ensures Tracks(After(st, e, limit, endSilence), stream + Adds(e), EndOf(more), next, limit)
  {
    more, next := spans, open;
    assert done + [] == done && stream + [] == stream;
    match e {
      case Routed(p, now) =>
        next := RouteTracks(st, Stamped(p, now), now, stream, EndOf(spans), open, limit);
        SlicesOfLonger(done, stream, Stamped(p, now), spans, limit);
      case Polled(now) =>
        if Ends(st, now, endSilence) {
          SlicesSnoc(done, Some(Finished(ssrc, st, now)), stream, spans, open, limit);
          more := spans + [open];
        }
      case Stopped =>
        if st.inUtterance {
          SlicesSnoc(done, None, stream, spans, open, limit);
          more := spans + [open];
        }
      case OnsetDropped(_) =>
      case OnsetPassed =>
    }
  }

  lemma {:induction false} RunTracks(ssrc: nat, events: seq<Event>, limit: nat, endSilence: real)
    returns (spans: seq<Span>, open: Span)
    ensures Slices(Outcomes(ssrc, events, limit, endSilence), Stream(events), spans, limit)
    ensures Tracks(State(events, limit, endSilence), Stream(events), EndOf(spans), open, limit)
    decreases |events|
  {
    if events == [] {
      return [], Span(0, 0, 0);
    }
    var init, e := events[..|events| - 1], events[|events| - 1];
    spans, open := RunTracks(ssrc, init, limit, endSilence);
    spans, open := StepTracks(ssrc, State(init, limit, endSilence), e, Outcomes(ssrc, init, limit, endSilence),
                              Stream(init), spans, open, limit, endSilence);
  }

  ghost predicate SliceAt(u: Option<Utterance>, stream: seq<Packet>, previousEnd: nat, span: Span, limit: nat) {
    && GoodSpan(stream, previousEnd, span, limit)
    && (u.Some? ==> u.value.packets == stream[span.start..span.end] && u.value.body == stream[span.body..span.end])
  }

  lemma SlicesOfLonger(done: seq<Option<Utterance>>, stream: seq<Packet>, p: Packet, spans: seq<Span>, limit: nat)
    requires Slices(done, stream, spans, limit)
    ensures Slices(done, stream + [p], spans, limit)
  {
    forall i | 0 <= i < |spans|
      ensures SliceAt(done[i], stream + [p], EndOf(spans[..i]), spans[i], limit)
    {
      assert SliceAt(done[i], stream, EndOf(spans[..i]), spans[i], limit);
    }
  }

  lemma SlicesSnoc(done: seq<Option<Utterance>>, u: Option<Utterance>, stream: seq<Packet>, spans: seq<Span>,
                   span: Span, limit: nat)
    requires Slices(done, stream, spans, limit) && span.end == |stream|
    requires GoodSpan(stream, EndOf(spans), span, limit)
    requires u.Some? ==> u.value.packets == stream[span.start..] && u.value.body == stream[span.body..]
    ensures Slices(done + [u], stream, spans + [span], limit)
  {
    var more := spans + [span];
    forall i | 0 <= i < |more|
      ensures SliceAt((done + [u])[i], stream, EndOf(more[..i]), more[i], limit)
    {
      assert more[..i] == spans[..i];
      if i < |spans| {
        assert SliceAt(done[i], stream, EndOf(spans[..i]), spans[i], limit);
      } else {
        assert spans[..i] == spans;
      }
    }
  }

  // Over every run, the finished utterances are disjoint slices of the routed stream in order, each a
  // bounded preroll and a body that starts with voice; and no voice-like packet is outside a body, be it
  // finished, dropped by a stop or still open.
  lemma FinishedUtterancesAreSlices(ssrc: nat, events: seq<Event>, limit: nat, endSilence: real)
    ensures exists spans :: Slices(Outcomes(ssrc, events, limit, endSilence), Stream(events), spans, limit)
                            && VoiceIsCovered(Stream(events), spans, State(events, limit, endSilence))
  {
    var spans, open := RunTracks(ssrc, events, limit, endSilence);
    var st, stream := State(events, limit, endSilence), Stream(events);
    forall i | 0 <= i < |stream| && VoiceLike(stream[i]) && !InSomeBody(spans, i)
      ensures st.inUtterance && |stream| - |st.body| <= i
    {
      Uncovered(Outcomes(ssrc, events, limit, endSilence), stream, spans, limit, i);
    }
    assert VoiceIsCovered(stream, spans, st);
  }

  ghost predicate InSomeBody(spans: seq<Span>, i: nat) {
    exists k :: 0 <= k < |spans| && spans[k].body <= i < spans[k].end
  }

  // Each voice-like packet is in a body that has ended or in the body being collected.
  ghost predicate VoiceIsCovered(stream: seq<Packet>, spans: seq<Span>, st: SourceState) {
    forall i :: 0 <= i < |stream| && VoiceLike(stream[i]) ==>
      InSomeBody(spans, i) || (st.inUtterance && |stream| - |st.body| <= i)
  }

  lemma {:induction false} InitSlices(done: seq<Option<Utterance>>, stream: seq<Packet>, spans: seq<Span>, limit: nat)
    requires Slices(done, stream, spans, limit) && spans != []
    ensures Slices(done[..|spans| - 1], stream, spans[..|spans| - 1], limit)
  {
    var n := |spans| - 1;
    forall k | 0 <= k < n
      ensures SliceAt(done[..n][k], stream, EndOf(spans[..n][..k]), spans[..n][k], limit)
    {
      InitSliceAt(done, stream, spans, limit, n, k);
    }
  }

  lemma {:induction false} InitSliceAt(done: seq<Option<Utterance>>, stream: seq<Packet>, spans: seq<Span>, limit: nat,
                                       n: nat, k: nat)
    requires Slices(done, stream, spans, limit) && k < n <= |spans|
    ensures SliceAt(done[..n][k], stream, EndOf(spans[..n][..k]), spans[..n][k], limit)
  {
    assert spans[..n][..k] == spans[..k] && spans[..n][k] == spans[k] && done[..n][k] == done[k];
    assert SliceAt(done[k], stream, EndOf(spans[..k]), spans[k], limit);
  }

  lemma {:induction false} Uncovered(done: seq<Option<Utterance>>, stream: seq<Packet>, spans: seq<Span>, limit: nat,
                                     i: nat)
    requires Slices(done, stream, spans, limit)
    requires i < |stream| && VoiceLike(stream[i]) && !InSomeBody(spans, i)
    ensures EndOf(spans) <= i
    decreases |spans|
  {
    if spans != [] {
      var n := |spans| - 1;
      InitSlices(done, stream, spans, limit);
      assert forall k :: 0 <= k < n ==> spans[..n][k] == spans[k];
      Uncovered(done[..n], stream, spans[..n], limit, i);
      assert SliceAt(done[n], stream, EndOf(spans[..n]), spans[n], limit);
      assert !(spans[n].body <= i < spans[n].end);
    }
  }

  // An utterance is only cut off after a pause: every end comes at least the end silence
  // after the last voice-like packet was routed.
  lemma {:induction false} PauseBeforeEnd(ssrc: nat, events: seq<Event>, limit: nat, endSilence: real, now: real)
    requires Ends(State(events, limit, endSilence), now, endSilence)
    ensures exists k: nat :: LastVoice(events, k) && now - events[k].at >= endSilence
    decreases |events|
  {
    LastVoiceIsRemembered(events, limit, endSilence);
  }

  ghost predicate LastVoice(events: seq<Event>, k: nat) {
    && k < |events| && events[k].Routed? && VoiceLike(events[k].packet)
    && forall j :: k < j < |events| ==> !(events[j].Routed? && VoiceLike(events[j].packet))
  }

  ghost predicate Remembers(st: SourceState, events: seq<Event>) {
    st.inUtterance ==> exists k: nat :: LastVoice(events, k) && events[k].at == st.lastVoiceLikeAt
  }

  lemma {:induction false} LastVoiceIsRemembered(events: seq<Event>, limit: nat, endSilence: real)
    ensures Remembers(State(events, limit, endSilence), events)
    decreases |events|
  {
    if events != [] {
      var init, e := events[..|events| - 1], events[|events| - 1];
      LastVoiceIsRemembered(init, limit, endSilence);
      RememberStep(State(init, limit, endSilence), init, e, limit, endSilence);
      assert events == init + [e];
    }
  }

  lemma RememberStep(st: SourceState, init: seq<Event>, e: Event, limit: nat, endSilence: real)
    requires Remembers(st, init)
    ensures Remembers(After(st, e, limit, endSilence), init + [e])
  {
    var events := init + [e];
    if e.Routed? && VoiceLike(e.packet) {
      assert LastVoice(events, |init|);
    } else if After(st, e, limit, endSilence).inUtterance {
      var k: nat :| LastVoice(init, k) && init[k].at == st.lastVoiceLikeAt;
      assert LastVoice(events, k);
    }
  }

  // ---------- the router's tables ----------

  // A full queue refuses further utterances.
  function Enqueue(queue: seq<Utterance>, u: Utterance, capacity: nat): seq<Utterance> {
    if |queue| < capacity then queue + [u] else queue
  }

  // The utterances of the ended sources, put into the queue in the order the sources were visited.
  function EnqueueAll(queue: seq<Utterance>, order: seq<nat>, states: map<nat, SourceState>, now: real, capacity: nat)
    : seq<Utterance>
    requires forall k :: 0 <= k < |order| ==> order[k] in states
  {
    if order == [] then queue
    else
      var n := |order| - 1;
      Enqueue(EnqueueAll(queue, order[..n], states, now, capacity), Finished(order[n], states[order[n]], now), capacity)
  }

  lemma {:induction false} QueueStaysBounded(queue: seq<Utterance>, order: seq<nat>, states: map<nat, SourceState>,
                                             now: real, capacity: nat)
    requires forall k :: 0 <= k < |order| ==> order[k] in states
    requires |queue| <= capacity
    ensures queue <= EnqueueAll(queue, order, states, now, capacity)
    ensures |EnqueueAll(queue, order, states, now, capacity)| ==
            if |queue| + |order| <= capacity then |queue| + |order| else capacity
    ensures var all := EnqueueAll(queue, order, states, now, capacity);
            forall i :: |queue| <= i < |all| ==>
              var ssrc := order[i - |queue|];
              all[i] == Utterance(ssrc, states[ssrc].packets, states[ssrc].body, states[ssrc].startedAt, now)
    decreases |order|
  {
    if order != [] {
      QueueStaysBounded(queue, order[..|order| - 1], states, now, capacity);
    }
  }

  ghost predicate Distinct(order: seq<nat>) {
    forall i, j :: 0 <= i < j < |order| ==> order[i] != order[j]
  }

  lemma EnqueueOneMore(queue: seq<Utterance>, order: seq<nat>, states: map<nat, SourceState>, now: real, capacity: nat,
                       ssrc: nat)
    requires (forall k :: 0 <= k < |order| ==> order[k] in states) && ssrc in states
    ensures forall k :: 0 <= k < |order + [ssrc]| ==> (order + [ssrc])[k] in states
    ensures EnqueueAll(queue, order + [ssrc], states, now, capacity) ==
            Enqueue(EnqueueAll(queue, order, states, now, capacity), Finished(ssrc, states[ssrc], now), capacity)
  {
    assert (order + [ssrc])[..|order|] == order;
  }

  // Every source outside `left` has been polled, and `order` lists the ones that ended.
  ghost predicate EndedAll(before: map<nat, SourceState>, states: map<nat, SourceState>, left: set<nat>,
                           order: seq<nat>, now: real, limit: nat, endSilence: real)
  {
    && left <= before.Keys == states.Keys
    && (forall s :: s in states ==>
          states[s] == if s in left then before[s] else After(before[s], Polled(now), limit, endSilence))
    && Distinct(order)
    && (forall s :: s in order <==> s in before && s !in left && Ends(before[s], now, endSilence))
    && forall k :: 0 <= k < |order| ==> order[k] in before
  }

  lemma EndedStep(before: map<nat, SourceState>, states: map<nat, SourceState>, left: set<nat>, order: seq<nat>,
                  now: real, limit: nat, endSilence: real, ssrc: nat)
    requires EndedAll(before, states, left, order, now, limit, endSilence) && ssrc in left
    ensures states[ssrc] == before[ssrc]
    ensures EndedAll(before, states[ssrc := After(before[ssrc], Polled(now), limit, endSilence)], left - {ssrc},
                     if Ends(before[ssrc], now, endSilence) then order + [ssrc] else order, now, limit, endSilence)
  {
    assert ssrc !in order;
    assert states[ssrc := before[ssrc]] == states;
  }

  class VoiceRouter {
    var states: map<nat, SourceState>
    var utteranceQueue: seq<Utterance>
    var utteranceCount: nat
    const prerollLimit: nat
    const endSilence: real
    const capacity: nat

    constructor (prerollLimit: nat, endSilence: real, capacity: nat)
      ensures states == map[] && utteranceQueue == [] && utteranceCount == 0
      ensures this.prerollLimit == prerollLimit && this.endSilence == endSilence && this.capacity == capacity
    {
      this.prerollLimit, this.endSilence, this.capacity := prerollLimit, endSilence, capacity;
      states, utteranceQueue, utteranceCount := map[], [], 0;
    }

    function StateOf(ssrc: nat): SourceState
      reads this
    {
      if ssrc in states then states[ssrc] else IDLE
    }

    method RoutePacket(p: Packet, now: real)
      modifies this`states
      ensures states == old(states)[p.ssrc := After(old(StateOf(p.ssrc)), Routed(p, now), prerollLimit, endSilence)]
    {
      var current := p.(receivedAt := Some(if p.receivedAt.Some? then p.receivedAt.value else now));
      var state := StateOf(p.ssrc);
      if p.payload != [] && p.payload != OPUS_SILENCE {
        state := state.(lastVoiceLikeAt := now);
        if !state.inUtterance {
          state := state.(inUtterance := true, startedAt := current.receivedAt);
          var preroll := if state.lastOnsetDropAt != 0.0 then [] else state.preroll;
          state := state.(packets := preroll, body := []);
        }
      }
      if state.inUtterance {
        state := state.(packets := state.packets + [current], body := state.body + [current]);
      }
      state := state.(preroll := TakeLast(state.preroll + [current], prerollLimit));
      assert [] + [current] == [current];
      states := states[p.ssrc := state];
    }

    // Ends every utterance whose source has been silent for the end silence.
    method EndSilentUtterances(now: real) returns (ghost order: seq<nat>)
      modifies this
      ensures EndedAll(old(states), states, {}, order, now, prerollLimit, endSilence)
      ensures utteranceQueue == EnqueueAll(old(utteranceQueue), order, old(states), now, capacity)
      ensures utteranceCount == old(utteranceCount) + |order|
    {
      order := [];
      var left := states.Keys;
      ghost var before, queue := states, utteranceQueue;
      while left != {}
        invariant EndedAll(before, states, left, order, now, prerollLimit, endSilence)
        invariant utteranceQueue == EnqueueAll(queue, order, before, now, capacity)
        invariant utteranceCount == old(utteranceCount) + |order|
        decreases |left|
      {
        var ssrc :| ssrc in left;
        EndedStep(before, states, left, order, now, prerollLimit, endSilence, ssrc);
        left := left - {ssrc};
        var state := states[ssrc];
        if !state.inUtterance || now - state.lastVoiceLikeAt < endSilence {
          continue;
        }
        EnqueueOneMore(queue, order, before, now, capacity, ssrc);
        EndUtterance(ssrc, now);
        order := order + [ssrc];
      }
    }

    // Hands the collected packets to the queue, if it has room, and starts over.
    method EndUtterance(ssrc: nat, now: real)
      requires ssrc in states
      modifies this
      ensures states == old(states)[ssrc := Closed(old(states)[ssrc])]
      ensures utteranceQueue == Enqueue(old(utteranceQueue), Finished(ssrc, old(states)[ssrc], now), capacity)
      ensures utteranceCount == old(utteranceCount) + 1
    {
      var state := states[ssrc];
      utteranceCount := utteranceCount + 1;
      var u := Utterance(ssrc, state.packets, state.body, state.startedAt, now);
      if |utteranceQueue| < capacity {
        utteranceQueue := utteranceQueue + [u];
      }
      states := states[ssrc := state.(inUtterance := false, packets := [], body := [], startedAt := None,
                                      preroll := [])];
    }

    // Stopping forgets every source and what is still queued.
    method StopListening()
      modifies this`states, this`utteranceQueue
      ensures states == map[] && utteranceQueue == []
      ensures forall ssrc :: StateOf(ssrc) == After(old(StateOf(ssrc)), Stopped, prerollLimit, endSilence)
    {
      states, utteranceQueue := map[], [];
    }

    // A finished utterance was thrown away at its onset: the source's preroll goes with it.
    method NoteOnsetDrop(ssrc: nat, at: real)
      modifies this`states
      ensures states == if ssrc in old(states)
                        then old(states)[ssrc := After(old(states)[ssrc], OnsetDropped(at), prerollLimit, endSilence)]
                        else old(states)
    {
      if ssrc in states {
        states := states[ssrc := states[ssrc].(lastOnsetDropAt := at, preroll := [])];
      }
    }

    // A finished utterance passed the same gate.
    method NoteOnsetPass(ssrc: nat)
      modifies this`states
      ensures states == if ssrc in old(states)
                        then old(states)[ssrc := After(old(states)[ssrc], OnsetPassed, prerollLimit, endSilence)]
                        else old(states)
    {
      if ssrc in states {
        states := states[ssrc := states[ssrc].(lastOnsetDropAt := 0.0)];
      }
    }
  }
}
