// What the segmenter holds of a source, told from the events alone: which polls end an utterance, when one begins,
// and which packets it begins with.
module UtteranceHistory {
  import opened Wrappers
  import opened PacketOrder
  import opened UtteranceSegmenter

  // A routed packet that is neither empty nor the codec's silence.
  ghost predicate Voice(e: Event) {
    e.Routed? && e.packet.payload != [] && e.packet.payload != [0xF8, 0xFF, 0xFE]
  }

  // The last event ends the utterance, if there is one: a stop, or a poll the end silence after the last voice.
  ghost predicate Closes(events: seq<Event>, endSilence: real)
    decreases |events|, 0
  {
    events != [] &&
    var n := |events| - 1;
    || events[n].Stopped?
    || (events[n].Polled?
        && exists v: nat :: OpenSince(events[..n], v, endSilence) && events[n].at - events[v].at >= endSilence)
  }

  // An utterance is open, and event `v` was its last voice so far.
  ghost predicate OpenSince(events: seq<Event>, v: nat, endSilence: real)
    decreases |events|, 1
  {
    && v < |events| && Voice(events[v])
    && (forall j :: v < j < |events| ==> !Voice(events[j]))
    && forall k :: v + 1 < k <= |events| ==> !Closes(events[..k], endSilence)
  }

  ghost predicate IsOpen(events: seq<Event>, endSilence: real) {
    exists v: nat :: OpenSince(events, v, endSilence)
  }

  // The last event clears the preroll.
  ghost predicate Clears(events: seq<Event>, endSilence: real) {
    events != [] && (events[|events| - 1].OnsetDropped? || Closes(events, endSilence))
  }

  // The preroll was last cleared by the event before number `c`, or never if that is zero.
  ghost predicate ClearSince(events: seq<Event>, c: nat, endSilence: real) {
    && c <= |events| && (c > 0 ==> Clears(events[..c], endSilence))
    && forall k :: c < k <= |events| ==> !Clears(events[..k], endSilence)
  }

  // An utterance was dropped at its onset, and none has passed since. A time of zero counts as none.
  ghost predicate DropInForce(events: seq<Event>) {
    exists d :: DroppedAt(events, d)
  }

  ghost predicate DroppedAt(events: seq<Event>, d: int) {
    && 0 <= d < |events| && events[d].OnsetDropped? && events[d].at != 0.0
    && forall j :: d < j < |events| ==> !events[j].OnsetDropped? && !events[j].OnsetPassed? && !events[j].Stopped?
  }

  // ---------- open or not ----------

  lemma OpenGoesOn(init: seq<Event>, e: Event, v: nat, endSilence: real)
    requires v < |init|
    ensures OpenSince(init + [e], v, endSilence) <==>
            OpenSince(init, v, endSilence) && !Voice(e) && !Closes(init + [e], endSilence)
  {
    var events := init + [e];
    assert forall k :: 0 <= k <= |init| ==> events[..k] == init[..k];
    assert events[..|events|] == events && events[|init|] == e;
    if OpenSince(init, v, endSilence) && !Voice(e) && !Closes(events, endSilence) {
      forall k | v + 1 < k <= |events|
        ensures !Closes(events[..k], endSilence)
      {
        assert k <= |init| ==> !Closes(init[..k], endSilence);
      }
    }
    if OpenSince(events, v, endSilence) {
      forall k | v + 1 < k <= |init|
        ensures !Closes(init[..k], endSilence)
      {
        assert !Closes(events[..k], endSilence);
      }
      assert !Closes(events[..|events|], endSilence);
      assert !Voice(events[|init|]);
      forall j | v < j < |init|
        ensures !Voice(init[j])
      {
        assert !Voice(events[j]);
      }
    }
  }

  // The state remembers whether an utterance is open and when its last voice was.
  ghost predicate KnowsOpen(st: SourceState, events: seq<Event>, endSilence: real) {
    && (st.inUtterance <==> IsOpen(events, endSilence))
    && forall v: nat :: OpenSince(events, v, endSilence) ==> st.lastVoiceLikeAt == events[v].at
  }

  lemma PollCloses(st: SourceState, init: seq<Event>, at: real, endSilence: real)
    requires KnowsOpen(st, init, endSilence)
    ensures Ends(st, at, endSilence) <==> Closes(init + [Polled(at)], endSilence)
  {
    var events := init + [Polled(at)];
    assert events[..|init|] == init;
    if Ends(st, at, endSilence) {
      var v: nat :| OpenSince(init, v, endSilence);
      assert events[v] == init[v];
    }
    if Closes(events, endSilence) {
      var v: nat :| OpenSince(events[..|init|], v, endSilence) && at - events[v].at >= endSilence;
      assert events[v] == init[v];
    }
  }

  lemma VoiceOpens(init: seq<Event>, e: Event, endSilence: real)
    requires Voice(e)
    ensures OpenSince(init + [e], |init|, endSilence)
    ensures forall v: nat :: OpenSince(init + [e], v, endSilence) ==> v == |init|
  {
    assert (init + [e])[|init|] == e;
  }

  lemma OpenStep(st: SourceState, init: seq<Event>, e: Event, limit: nat, endSilence: real)
    requires KnowsOpen(st, init, endSilence)
    ensures KnowsOpen(After(st, e, limit, endSilence), init + [e], endSilence)
  {
    var events, next := init + [e], After(st, e, limit, endSilence);
    if Voice(e) {
      VoiceOpens(init, e, endSilence);
    } else {
      assert Closes(events, endSilence) <==> e.Stopped? || (e.Polled? && Ends(st, e.at, endSilence)) by {
        assert events[..|init|] == init && events[|init|] == e;
        if e.Polled? {
          PollCloses(st, init, e.at, endSilence);
        }
      }
      forall v: nat
        ensures OpenSince(events, v, endSilence) <==> OpenSince(init, v, endSilence) && !Closes(events, endSilence)
      {
        if v < |init| {
          OpenGoesOn(init, e, v, endSilence);
        } else {
          assert v == |init| ==> events[v] == e;
        }
      }
    }
  }

  lemma {:induction false} OpenExactly(events: seq<Event>, limit: nat, endSilence: real)
    ensures KnowsOpen(State(events, limit, endSilence), events, endSilence)
    decreases |events|
  {
    if events != [] {
      var init, e := events[..|events| - 1], events[|events| - 1];
      OpenExactly(init, limit, endSilence);
      OpenStep(State(init, limit, endSilence), init, e, limit, endSilence);
      assert events == init + [e];
    }
  }

  // ---------- the preroll ----------

  // The preroll is the last packets routed since it was cleared, as many as it may hold.
  ghost predicate KnowsPreroll(st: SourceState, events: seq<Event>, limit: nat, endSilence: real) {
    forall c: nat :: ClearSince(events, c, endSilence) ==> st.preroll == TakeLast(Stream(events[c..]), limit)
  }

  lemma StreamSnoc(events: seq<Event>, e: Event)
    ensures Stream(events + [e]) == Stream(events) + Adds(e)
  {
    assert (events + [e])[..|events|] == events;
  }

  lemma ClearGoesOn(init: seq<Event>, e: Event, c: nat, endSilence: real)
    requires c <= |init|
    ensures ClearSince(init + [e], c, endSilence) <==>
            ClearSince(init, c, endSilence) && !Clears(init + [e], endSilence)
  {
    var events := init + [e];
    assert forall k :: 0 <= k <= |init| ==> events[..k] == init[..k];
    assert events[..|events|] == events;
    if ClearSince(init, c, endSilence) && !Clears(events, endSilence) {
      forall k | c < k <= |events|
        ensures !Clears(events[..k], endSilence)
      {
        assert k <= |init| ==> !Clears(init[..k], endSilence);
      }
    }
    if ClearSince(events, c, endSilence) {
      forall k | c < k <= |init|
        ensures !Clears(init[..k], endSilence)
      {
        assert !Clears(events[..k], endSilence);
      }
      assert !Clears(events[..|events|], endSilence);
    }
  }

  lemma TakeLastStep(all: seq<Packet>, more: seq<Packet>, limit: nat)
    ensures TakeLast(TakeLast(all, limit) + more, limit) == TakeLast(all + more, limit)
  {
    var kept := TakeLast(all, limit);
    TakesTheLast(all, limit);
    SuffixGrows(all, kept, more);
    var a, b := TakeLast(kept + more, limit), TakeLast(all + more, limit);
    TakesTheLast(kept + more, limit);
    TakesTheLast(all + more, limit);
    SuffixOfSuffix(all + more, kept + more, a);
    assert |a| == |b|;
  }

  lemma SuffixGrows(all: seq<Packet>, kept: seq<Packet>, more: seq<Packet>)
    requires |kept| <= |all| && kept == all[|all| - |kept|..]
    ensures kept + more == (all + more)[|all + more| - |kept + more|..]
  {
  }

  lemma SuffixOfSuffix(all: seq<Packet>, kept: seq<Packet>, a: seq<Packet>)
    requires |kept| <= |all| && kept == all[|all| - |kept|..]
    requires |a| <= |kept| && a == kept[|kept| - |a|..]
    ensures a == all[|all| - |a|..]
  {
  }

  lemma PrerollAfter(st: SourceState, init: seq<Event>, e: Event, limit: nat, endSilence: real)
    requires KnowsOpen(st, init, endSilence) && |st.preroll| <= limit
    ensures After(st, e, limit, endSilence).preroll ==
            if Clears(init + [e], endSilence) then [] else TakeLast(st.preroll + Adds(e), limit)
  {
    var events := init + [e];
    assert events[|init|] == e && events[..|init|] == init;
    assert st.preroll + [] == st.preroll;
    if e.Polled? {
      PollCloses(st, init, e.at, endSilence);
    }
  }

  lemma PrerollStep(preroll: seq<Packet>, init: seq<Event>, e: Event, limit: nat, endSilence: real, c: nat)
    requires ClearSince(init, c, endSilence) ==> preroll == TakeLast(Stream(init[c..]), limit)
    requires c <= |init| && ClearSince(init + [e], c, endSilence)
    ensures TakeLast(preroll + Adds(e), limit) == TakeLast(Stream((init + [e])[c..]), limit)
  {
    ClearGoesOn(init, e, c, endSilence);
    assert (init + [e])[c..] == init[c..] + [e];
    StreamSnoc(init[c..], e);
    TakeLastStep(Stream(init[c..]), Adds(e), limit);
  }

  lemma NewestClearing(events: seq<Event>, c: nat, endSilence: real)
    requires ClearSince(events, c, endSilence)
    ensures Clears(events, endSilence) <==> c == |events| && c > 0
  {
    assert events[..|events|] == events;
  }

  lemma PrerollKnown(st: SourceState, events: seq<Event>, limit: nat, endSilence: real)
    requires events != [] && |st.preroll| <= limit
    requires KnowsOpen(st, events[..|events| - 1], endSilence)
    requires KnowsPreroll(st, events[..|events| - 1], limit, endSilence)
    ensures KnowsPreroll(After(st, events[|events| - 1], limit, endSilence), events, limit, endSilence)
    ensures |After(st, events[|events| - 1], limit, endSilence).preroll| <= limit
  {
    var init, e := events[..|events| - 1], events[|events| - 1];
    assert events == init + [e];
    PrerollAfter(st, init, e, limit, endSilence);
    forall c: nat | ClearSince(events, c, endSilence)
      ensures After(st, e, limit, endSilence).preroll == TakeLast(Stream(events[c..]), limit)
    {
      NewestClearing(events, c, endSilence);
      if c <= |init| {
        PrerollStep(st.preroll, init, e, limit, endSilence, c);
      } else {
        assert events[c..] == [];
      }
    }
  }

  lemma NothingRouted(limit: nat, endSilence: real)
    ensures KnowsPreroll(IDLE, [], limit, endSilence)
  {
    forall c: nat | ClearSince([], c, endSilence)
      ensures Stream([][c..]) == []
    {
      assert c == 0;
    }
  }

  lemma {:induction false} PrerollExactly(events: seq<Event>, limit: nat, endSilence: real)
    ensures KnowsPreroll(State(events, limit, endSilence), events, limit, endSilence)
    ensures |State(events, limit, endSilence).preroll| <= limit
    decreases |events|
  {
    if events == [] {
      NothingRouted(limit, endSilence);
    } else {
      var init := events[..|events| - 1];
      OpenExactly(init, limit, endSilence);
      PrerollExactly(init, limit, endSilence);
      PrerollKnown(State(init, limit, endSilence), events, limit, endSilence);
    }
  }

  // Some place is where the preroll was last cleared.
  lemma {:induction false} LastClearing(events: seq<Event>, endSilence: real) returns (c: nat)
    ensures ClearSince(events, c, endSilence)
    decreases |events|
  {
    if events == [] {
      return 0;
    }
    var init, e := events[..|events| - 1], events[|events| - 1];
    assert events == init + [e] && events[..|events|] == events;
    if Clears(events, endSilence) {
      return |events|;
    }
    c := LastClearing(init, endSilence);
    ClearGoesOn(init, e, c, endSilence);
  }

  // ---------- dropped onsets ----------

  lemma DropGoesOn(init: seq<Event>, e: Event)
    ensures DropInForce(init + [e]) <==>
            (e.OnsetDropped? && e.at != 0.0)
            || (DropInForce(init) && !e.OnsetDropped? && !e.OnsetPassed? && !e.Stopped?)
  {
    var events := init + [e];
    assert events[|init|] == e && forall j :: 0 <= j < |init| ==> events[j] == init[j];
    if e.OnsetDropped? && e.at != 0.0 {
      assert DroppedAt(events, |init|);
    }
    if DropInForce(init) && !e.OnsetDropped? && !e.OnsetPassed? && !e.Stopped? {
      var d :| DroppedAt(init, d);
      assert DroppedAt(events, d);
    }
    if DropInForce(events) {
      var d :| DroppedAt(events, d);
      assert d < |init| ==> DroppedAt(init, d);
    }
  }

  lemma {:induction false} DropExactly(events: seq<Event>, limit: nat, endSilence: real)
    ensures State(events, limit, endSilence).lastOnsetDropAt != 0.0 <==> DropInForce(events)
    decreases |events|
  {
    if events != [] {
      var init, e := events[..|events| - 1], events[|events| - 1];
      DropExactly(init, limit, endSilence);
      DropGoesOn(init, e);
      assert events == init + [e];
    }
  }

  // ---------- what an utterance begins with, and what it collects ----------

  // Event `b` began the utterance that is open.
  ghost predicate BegunAt(events: seq<Event>, b: nat, endSilence: real) {
    && b < |events| && Voice(events[b]) && !IsOpen(events[..b], endSilence)
    && forall k :: b + 1 < k <= |events| ==> !Closes(events[..k], endSilence)
  }

  // The packets in front of an utterance that begins after these events, the preroll having been cleared at `c`.
  function Lead(before: seq<Event>, c: nat, dropped: bool, limit: nat): seq<Packet>
    requires c <= |before|
  {
    if dropped then [] else TakeLast(Stream(before[c..]), limit)
  }

  // The open utterance is its lead and every packet routed since it began.
  ghost predicate Collects(packets: seq<Packet>, body: seq<Packet>, startedAt: Option<real>, events: seq<Event>,
                           b: nat, c: nat, limit: nat)
    requires b < |events| && events[b].Routed? && c <= b
  {
    && packets == Lead(events[..b], c, DropInForce(events[..b]), limit) + Stream(events[b..])
    && body == Stream(events[b..])
    && startedAt == Some(if events[b].packet.receivedAt.Some? then events[b].packet.receivedAt.value else events[b].at)
  }

  ghost predicate KnowsCollected(st: SourceState, events: seq<Event>, limit: nat, endSilence: real) {
    && (!st.inUtterance ==> st.packets == [] && st.body == [] && st.startedAt == None)
    && forall b: nat, c: nat :: BegunAt(events, b, endSilence) && ClearSince(events[..b], c, endSilence) ==>
         Collects(st.packets, st.body, st.startedAt, events, b, c, limit)
  }

  lemma BegunGoesOn(init: seq<Event>, e: Event, b: nat, endSilence: real)
    requires b < |init|
    ensures BegunAt(init + [e], b, endSilence) <==> BegunAt(init, b, endSilence) && !Closes(init + [e], endSilence)
  {
    var events := init + [e];
    assert forall k :: 0 <= k <= |init| ==> events[..k] == init[..k];
    assert events[..|events|] == events;
    if BegunAt(init, b, endSilence) && !Closes(events, endSilence) {
      forall k | b + 1 < k <= |events|
        ensures !Closes(events[..k], endSilence)
      {
        assert k <= |init| ==> !Closes(init[..k], endSilence);
      }
    }
    if BegunAt(events, b, endSilence) {
      forall k | b + 1 < k <= |init|
        ensures !Closes(init[..k], endSilence)
      {
        assert !Closes(events[..k], endSilence);
      }
      assert !Closes(events[..|events|], endSilence);
    }
  }

  lemma {:induction false} BegunIsOpen(events: seq<Event>, b: nat, endSilence: real)
    requires BegunAt(events, b, endSilence)
    ensures IsOpen(events, endSilence)
    decreases |events|
  {
    var init, e := events[..|events| - 1], events[|events| - 1];
    assert events == init + [e];
    if Voice(e) {
      VoiceOpens(init, e, endSilence);
    } else {
      BegunGoesOn(init, e, b, endSilence);
      BegunIsOpen(init, b, endSilence);
      var v: nat :| OpenSince(init, v, endSilence);
      OpenGoesOn(init, e, v, endSilence);
    }
  }

  lemma BeginsNow(init: seq<Event>, e: Event, b: nat, endSilence: real)
    requires BegunAt(init + [e], b, endSilence)
    ensures if b == |init| then Voice(e) && !IsOpen(init, endSilence)
            else b < |init| && BegunAt(init, b, endSilence) && !Closes(init + [e], endSilence)
  {
    if b < |init| {
      BegunGoesOn(init, e, b, endSilence);
    } else {
      assert (init + [e])[..b] == init;
    }
  }

  // The first packets of an utterance.
  lemma BeginStep(st: SourceState, init: seq<Event>, e: Event, c: nat, limit: nat, endSilence: real)
    requires Voice(e) && !st.inUtterance && ClearSince(init, c, endSilence)
    requires st.preroll == TakeLast(Stream(init[c..]), limit)
    requires st.lastOnsetDropAt != 0.0 <==> DropInForce(init)
    ensures var next, events := After(st, e, limit, endSilence), init + [e];
            Collects(next.packets, next.body, next.startedAt, events, |init|, c, limit)
  {
    var events := init + [e];
    assert events[..|init|] == init && events[|init|..] == [e];
    assert Stream([e]) == Adds(e) by {
      StreamSnoc([], e);
      assert [] + [e] == [e];
    }
  }

  lemma CollectStep(packets: seq<Packet>, body: seq<Packet>, startedAt: Option<real>, init: seq<Event>, e: Event,
                    b: nat, c: nat, limit: nat)
    requires b < |init| && init[b].Routed? && c <= b && Collects(packets, body, startedAt, init, b, c, limit)
    ensures Collects(packets + Adds(e), body + Adds(e), startedAt, init + [e], b, c, limit)
  {
    var events := init + [e];
    assert events[..b] == init[..b] && events[b..] == init[b..] + [e];
    StreamSnoc(init[b..], e);
    Regroup(Lead(init[..b], c, DropInForce(init[..b]), limit), Stream(init[b..]), Adds(e));
  }

  lemma Regroup(lead: seq<Packet>, packets: seq<Packet>, more: seq<Packet>)
    ensures lead + packets + more == lead + (packets + more)
  {
  }

  // What a step that closes nothing does to an open utterance.
  lemma OpenKeeps(st: SourceState, init: seq<Event>, e: Event, limit: nat, endSilence: real)
    requires KnowsOpen(st, init, endSilence) && st.inUtterance && !Closes(init + [e], endSilence)
    ensures var next := After(st, e, limit, endSilence);
            && next.packets == st.packets + Adds(e) && next.body == st.body + Adds(e)
            && next.startedAt == st.startedAt
  {
    assert (init + [e])[|init|] == e && (init + [e])[..|init|] == init;
    assert st.packets + [] == st.packets && st.body + [] == st.body;
    if e.Polled? {
      PollCloses(st, init, e.at, endSilence);
    }
  }

  lemma CollectedStep(st: SourceState, init: seq<Event>, e: Event, limit: nat, endSilence: real, b: nat, c: nat)
    requires KnowsOpen(st, init, endSilence) && KnowsPreroll(st, init, limit, endSilence)
    requires KnowsCollected(st, init, limit, endSilence)
    requires st.lastOnsetDropAt != 0.0 <==> DropInForce(init)
    requires BegunAt(init + [e], b, endSilence) && ClearSince((init + [e])[..b], c, endSilence)
    ensures var next := After(st, e, limit, endSilence);
            Collects(next.packets, next.body, next.startedAt, init + [e], b, c, limit)
  {
    BeginsNow(init, e, b, endSilence);
    if b == |init| {
      assert (init + [e])[..b] == init;
      BeginStep(st, init, e, c, limit, endSilence);
    } else {
      assert (init + [e])[..b] == init[..b];
      BegunIsOpen(init, b, endSilence);
      OpenKeeps(st, init, e, limit, endSilence);
      CollectStep(st.packets, st.body, st.startedAt, init, e, b, c, limit);
    }
  }

  lemma IdleIsEmpty(st: SourceState, e: Event, limit: nat, endSilence: real)
    requires !st.inUtterance ==> st.packets == [] && st.body == [] && st.startedAt == None
    ensures var next := After(st, e, limit, endSilence);
            !next.inUtterance ==> next.packets == [] && next.body == [] && next.startedAt == None
  {
  }

  // Over every run: an utterance that is open holds, from the packet that began it on, every packet routed; in front
  // of that, with a dropped onset in force, nothing, and otherwise the last packets routed since the preroll was
  // cleared, as many as it may hold.
  lemma {:induction false} CollectedExactly(events: seq<Event>, limit: nat, endSilence: real)
    ensures KnowsCollected(State(events, limit, endSilence), events, limit, endSilence)
    decreases |events|
  {
    if events != [] {
      var init := events[..|events| - 1];
      OpenExactly(init, limit, endSilence);
      PrerollExactly(init, limit, endSilence);
      DropExactly(init, limit, endSilence);
      CollectedExactly(init, limit, endSilence);
      CollectedKnown(State(init, limit, endSilence), events, limit, endSilence);
    }
  }

  lemma CollectedKnown(st: SourceState, events: seq<Event>, limit: nat, endSilence: real)
    requires events != []
    requires var init := events[..|events| - 1];
             && KnowsOpen(st, init, endSilence) && KnowsPreroll(st, init, limit, endSilence)
             && KnowsCollected(st, init, limit, endSilence) && (st.lastOnsetDropAt != 0.0 <==> DropInForce(init))
    ensures KnowsCollected(After(st, events[|events| - 1], limit, endSilence), events, limit, endSilence)
  {
    var init, e := events[..|events| - 1], events[|events| - 1];
    var next := After(st, e, limit, endSilence);
    assert events == init + [e];
    IdleIsEmpty(st, e, limit, endSilence);
    forall b: nat, c: nat | BegunAt(events, b, endSilence) && ClearSince(events[..b], c, endSilence)
      ensures Collects(next.packets, next.body, next.startedAt, events, b, c, limit)
    {
      CollectedStep(st, init, e, limit, endSilence, b, c);
    }
  }

  // An open utterance has begun somewhere.
  lemma {:induction false} SomeBeginning(events: seq<Event>, endSilence: real) returns (b: nat)
    requires IsOpen(events, endSilence)
    ensures BegunAt(events, b, endSilence)
    decreases |events|
  {
    var init, e := events[..|events| - 1], events[|events| - 1];
    assert events == init + [e] && events[..|init|] == init;
    if IsOpen(init, endSilence) && !Closes(events, endSilence) {
      b := SomeBeginning(init, endSilence);
      BegunGoesOn(init, e, b, endSilence);
    } else {
      b := |init|;
      var v: nat :| OpenSince(events, v, endSilence);
      if v < |init| {
        OpenGoesOn(init, e, v, endSilence);
      }
    }
  }

  // Every end: an utterance comes out exactly of a poll that closes an open one, as that one's lead and packets,
  // and is lost exactly in a stop.
  lemma OutcomeExactly(ssrc: nat, init: seq<Event>, e: Event, limit: nat, endSilence: real, b: nat, c: nat)
    ensures var before, after := Outcomes(ssrc, init, limit, endSilence), Outcomes(ssrc, init + [e], limit, endSilence);
            if !IsOpen(init, endSilence) || !Closes(init + [e], endSilence) then after == before
            else if e.Stopped? then after == before + [None]
            else |after| == |before| + 1 && after[..|before|] == before && after[|before|].Some?
                 && after[|before|].value.ssrc == ssrc && after[|before|].value.endedAt == e.at
                 && (BegunAt(init, b, endSilence) && ClearSince(init[..b], c, endSilence) ==>
                       var u := after[|before|].value;
                       Collects(u.packets, u.body, u.startedAt, init, b, c, limit))
  {
    var events := init + [e];
    assert events[..|init|] == init && events[|init|] == e;
    OpenExactly(init, limit, endSilence);
    CollectedExactly(init, limit, endSilence);
    if e.Polled? {
      PollCloses(State(init, limit, endSilence), init, e.at, endSilence);
    }
    var before := Outcomes(ssrc, init, limit, endSilence);
    assert before + [] == before;
  }
}
