// What a decoder's record says, told from the events alone, and so which of them replace the decoder.
module DecoderHistory {
  import opened Wrappers
  import opened Sequence16
  import opened DecoderHealth

  // An event, and whether it replaced the decoder or made the first one.
  datatype Mark = Mark(event: Event, replaced: bool, first: bool) {
    // The record begins anew: with a decoder just replaced, or with nothing.
    predicate Ends() {
      replaced || Erases()
    }

    predicate Erases() {
      first || event.Clear?
    }

    predicate IsAttempt() {
      event.Decoded? || event.NotDecoded?
    }

    // An attempt to decode, or a replacement.
    predicate Notes() {
      IsAttempt() || (replaced && event.Prepare?)
    }

    // An attempt with a number, or a replacement, with or without one.
    predicate Numbers() {
      (IsAttempt() && event.sequence.Some?) || (replaced && (event.Prepare? || event.NotDecoded?))
    }
  }

  type History = seq<Mark>

  ghost function HistoryOf(events: Events): (h: History)
    ensures |h| == |events| && forall k :: 0 <= k < |h| ==> h[k].event == events[k].0
  {
    if events == [] then []
    else
      var n := |events| - 1;
      var h, e := HistoryOf(events[..n]), events[n].0;
      h + [Mark(e, Replaces(Run(events[..n]), e), e.Prepare? && !HasDecoder(h))]
  }

  // ---------- what the history says ----------

  // A decoder was asked for or replaced, and the source has not been forgotten since.
  ghost predicate HasDecoder(h: History) {
    exists i: nat :: GotAt(h, i)
  }

  ghost predicate GotAt(h: History, i: nat) {
    i < |h| && (h[i].event.Prepare? || h[i].replaced) && forall k :: i < k < |h| ==> !h[k].event.Clear?
  }

  // A frame was decoded since the decoder is there.
  ghost predicate DecodedSince(h: History) {
    exists i: nat :: WellAt(h, i)
  }

  ghost predicate WellAt(h: History, i: nat) {
    i < |h| && h[i].event.Decoded? && forall k :: i < k < |h| ==> !h[k].Ends()
  }

  // The last event noted, and the last that said where in the stream the source is.
  ghost predicate LastNoted(h: History, i: nat) {
    i < |h| && h[i].Notes() && forall k :: i < k < |h| ==> !h[k].Notes() && !h[k].Erases()
  }

  ghost predicate LastNumbered(h: History, i: nat) {
    i < |h| && h[i].Numbers() && forall k :: i < k < |h| ==> !h[k].Numbers() && !h[k].Erases()
  }

  // Nothing was decoded, and the record was not begun anew, since the first `b` events.
  ghost predicate FailingSince(h: History, b: nat) {
    && b <= |h| && (b > 0 ==> h[b - 1].event.Decoded? || h[b - 1].Ends())
    && forall k :: b <= k < |h| ==> !h[k].event.Decoded? && !h[k].Ends()
  }

  // ---------- one event more ----------

  lemma DecoderStep(h: History, m: Mark)
    ensures HasDecoder(h + [m]) <==> m.event.Prepare? || m.replaced || (HasDecoder(h) && !m.event.Clear?)
  {
    var more := h + [m];
    forall i: nat | i < |h|
      ensures GotAt(more, i) <==> GotAt(h, i) && !m.event.Clear?
    {
      assert more[|h|] == m && forall k :: i < k < |h| ==> more[k] == h[k];
    }
    assert GotAt(more, |h|) <==> m.event.Prepare? || m.replaced;
  }

  lemma DecodedStep(h: History, m: Mark)
    ensures DecodedSince(h + [m]) <==> m.event.Decoded? || (DecodedSince(h) && !m.Ends())
  {
    var more := h + [m];
    forall i: nat | i < |h|
      ensures WellAt(more, i) <==> WellAt(h, i) && !m.Ends()
    {
      assert more[|h|] == m && forall k :: i < k < |h| ==> more[k] == h[k];
    }
    assert WellAt(more, |h|) <==> m.event.Decoded?;
  }

  lemma NotedStep(h: History, m: Mark, i: nat)
    ensures LastNoted(h + [m], i) <==>
            if m.Notes() then i == |h| else LastNoted(h, i) && !m.Erases()
  {
    var more := h + [m];
    assert more[|h|] == m && forall k :: 0 <= k < |h| ==> more[k] == h[k];
  }

  lemma NumberedStep(h: History, m: Mark, i: nat)
    ensures LastNumbered(h + [m], i) <==>
            if m.Numbers() then i == |h| else LastNumbered(h, i) && !m.Erases()
  {
    var more := h + [m];
    assert more[|h|] == m && forall k :: 0 <= k < |h| ==> more[k] == h[k];
  }

  lemma FailingStep(h: History, m: Mark, b: nat)
    ensures FailingSince(h + [m], b) <==>
            if m.event.Decoded? || m.Ends() then b == |h| + 1 else FailingSince(h, b)
  {
    var more := h + [m];
    assert more[|h|] == m && forall k :: 0 <= k < |h| ==> more[k] == h[k];
  }

  // ---------- the record ----------

  lemma {:induction false} DecoderExactly(events: Events)
    ensures Run(events).decoder.Some? <==> HasDecoder(HistoryOf(events))
    decreases |events|
  {
    if events != [] {
      var n := |events| - 1;
      DecoderExactly(events[..n]);
      var h := HistoryOf(events[..n]);
      DecoderStep(h, HistoryOf(events)[n]);
      assert HistoryOf(events) == h + [HistoryOf(events)[n]];
    }
  }

  lemma {:induction false} CleanExactly(events: Events)
    ensures StatsOf(Run(events)).clean <==> DecodedSince(HistoryOf(events))
    decreases |events|
  {
    if events != [] {
      var n := |events| - 1;
      CleanExactly(events[..n]);
      DecoderExactly(events[..n]);
      var h := HistoryOf(events[..n]);
      DecodedStep(h, HistoryOf(events)[n]);
      assert HistoryOf(events) == h + [HistoryOf(events)[n]];
    }
  }

  ghost predicate NotedAt(h: History, t: real, i: nat) {
    LastNoted(h, i) && h[i].event.now == t
  }

  lemma {:induction false} LastAtExactly(events: Events, t: real)
    ensures StatsOf(Run(events)).lastAt == Some(t) <==> exists i: nat :: NotedAt(HistoryOf(events), t, i)
    decreases |events|
  {
    if events != [] {
      var n := |events| - 1;
      LastAtExactly(events[..n], t);
      DecoderExactly(events[..n]);
      var h, m := HistoryOf(events[..n]), HistoryOf(events)[n];
      assert HistoryOf(events) == h + [m];
      forall i: nat
        ensures NotedAt(h + [m], t, i) <==>
                if m.Notes() then i == n && m.event.now == t else NotedAt(h, t, i) && !m.Erases()
      {
        NotedStep(h, m, i);
      }
      assert m.Notes() && m.event.now == t ==> NotedAt(h + [m], t, n);
    }
  }

  ghost predicate NumberedAt(h: History, s: Seq16, i: nat) {
    LastNumbered(h, i) && h[i].event.sequence == Some(s)
  }

  lemma {:induction false} LastSequenceExactly(events: Events, s: Seq16)
    ensures StatsOf(Run(events)).lastSequence == Some(s) <==> exists i: nat :: NumberedAt(HistoryOf(events), s, i)
    decreases |events|
  {
    if events != [] {
      var n := |events| - 1;
      LastSequenceExactly(events[..n], s);
      DecoderExactly(events[..n]);
      var h, m := HistoryOf(events[..n]), HistoryOf(events)[n];
      assert HistoryOf(events) == h + [m];
      forall i: nat
        ensures NumberedAt(h + [m], s, i) <==>
                if m.Numbers() then i == n && m.event.sequence == Some(s) else NumberedAt(h, s, i) && !m.Erases()
      {
        NumberedStep(h, m, i);
      }
      assert m.Numbers() && m.event.sequence == Some(s) ==> NumberedAt(h + [m], s, n);
    }
  }

  lemma {:induction false} FailuresExactly(events: Events, b: nat)
    requires FailingSince(HistoryOf(events), b)
    ensures StatsOf(Run(events)).failures == Failures(events[b..])
    decreases |events|
  {
    if events == [] {
      assert events[b..] == [];
    } else {
      var n := |events| - 1;
      var h, m := HistoryOf(events[..n]), HistoryOf(events)[n];
      assert HistoryOf(events) == h + [m];
      FailingStep(h, m, b);
      DecoderExactly(events[..n]);
      if m.event.Decoded? || m.Ends() {
        assert events[b..] == [];
      } else {
        FailuresExactly(events[..n], b);
        assert events[b..][..n - b] == events[..n][b..] && events[b..][n - b] == events[n];
      }
    }
  }

  lemma {:induction false} SomeFailingSince(h: History) returns (b: nat)
    ensures FailingSince(h, b)
    decreases |h|
  {
    b := 0;
    if h != [] {
      var n := |h| - 1;
      b := SomeFailingSince(h[..n]);
      b := if h[n].event.Decoded? || h[n].Ends() then n + 1 else b;
      FailingStep(h[..n], h[n], b);
      assert h[..n] + [h[n]] == h;
    }
  }

  // ---------- when a decoder is replaced ----------

  // The source has been silent for a second and a half, or more.
  ghost predicate SilentFor(h: History, now: real) {
    exists i: nat :: LastNoted(h, i) && now - h[i].event.now >= 1.5
  }

  // The number is not up to twenty-four ahead of the last one known.
  ghost predicate FarFrom(h: History, sequence: Seq16) {
    exists i: nat :: LastNumbered(h, i) && IsFar(h[i].event.sequence, sequence)
  }

  predicate IsFar(last: Option<Seq16>, sequence: Seq16) {
    last.Some? && !(1 <= (sequence - last.value) % 65536 <= 24)
  }

  // The last three attempts, at least, failed.
  ghost predicate FailedThrice(events: Events) {
    exists b: nat :: FailingSince(HistoryOf(events), b) && Failures(events[b..]) >= 3
  }

  ghost predicate ReplacesNow(events: Events, e: Event) {
    var h := HistoryOf(events);
    && DecodedSince(h)
    && match e
       case Prepare(sequence, now) =>
         HasDecoder(h) && (SilentFor(h, now) || (sequence.Some? && FarFrom(h, sequence.value)))
       case NotDecoded(_, _) => FailedThrice(events)
       case _ => false
  }

  lemma SilentExactly(events: Events, now: real)
    ensures SilentFor(HistoryOf(events), now) <==>
            StatsOf(Run(events)).lastAt.Some? && now - StatsOf(Run(events)).lastAt.value >= 1.5
  {
    var h, lastAt := HistoryOf(events), StatsOf(Run(events)).lastAt;
    if i: nat :| LastNoted(h, i) && now - h[i].event.now >= 1.5 {
      assert NotedAt(h, h[i].event.now, i);
      LastAtExactly(events, h[i].event.now);
    }
    if lastAt.Some? {
      LastAtExactly(events, lastAt.value);
    }
  }

  lemma FarExactly(events: Events, sequence: Seq16)
    ensures FarFrom(HistoryOf(events), sequence) <==> IsFar(StatsOf(Run(events)).lastSequence, sequence)
  {
    var h, last := HistoryOf(events), StatsOf(Run(events)).lastSequence;
    if i: nat :| LastNumbered(h, i) && IsFar(h[i].event.sequence, sequence) {
      assert NumberedAt(h, h[i].event.sequence.value, i);
      LastSequenceExactly(events, h[i].event.sequence.value);
    }
    if last.Some? {
      LastSequenceExactly(events, last.value);
    }
  }

  lemma FailedExactly(events: Events)
    ensures FailedThrice(events) <==> StatsOf(Run(events)).failures >= 3
  {
    var b := SomeFailingSince(HistoryOf(events));
    FailuresExactly(events, b);
    if c: nat :| FailingSince(HistoryOf(events), c) && Failures(events[c..]) >= 3 {
      FailuresExactly(events, c);
    }
  }

  lemma JumpIsFar(last: Option<Seq16>, sequence: Seq16)
    ensures last.Some? && SequenceGap(last, sequence) >= 24 <==> IsFar(last, sequence)
  {
  }

  // The next event replaces the decoder exactly if a frame was decoded since it is there and: a packet comes after a
  // silence of a second and a half, or with a number that is not up to twenty-four ahead of the last one known; or a
  // frame fails as the fourth in a row.
  lemma ReplacedExactly(events: Events, e: Event)
    ensures Replaces(Run(events), e) <==> ReplacesNow(events, e)
  {
    CleanExactly(events);
    DecoderExactly(events);
    if e.Prepare? {
      SilentExactly(events, e.now);
      if e.sequence.Some? {
        FarExactly(events, e.sequence.value);
        JumpIsFar(StatsOf(Run(events)).lastSequence, e.sequence.value);
      }
    }
    FailedExactly(events);
  }
}
