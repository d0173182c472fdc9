// When the audio decoder of a media source is replaced: after an idle time, a jump in the sequence numbers or
// too many failures in a row, but only once it has decoded something cleanly.
module DecoderHealth {
  import opened Wrappers
  import opened Sequence16

  const IDLE_SECONDS: real := 1.5
  const GAP_LIMIT: nat := 24
  const FAILURE_LIMIT: nat := 4

  datatype Stats = Stats(failures: nat, lastSequence: Option<Seq16>, lastAt: Option<real>, clean: bool,
                         resetBeforeClean: bool)

  const UNUSED := Stats(0, None, None, false, false)

  // What is kept for one source. Decoders are told apart by number.
  datatype Channel = Channel(decoder: Option<nat>, stats: Option<Stats>)

  const UNKNOWN := Channel(None, None)

  datatype Event =
    | Prepare(sequence: Option<Seq16>, now: real)
    | Decoded(sequence: Option<Seq16>, now: real)
    | NotDecoded(sequence: Option<Seq16>, now: real)
    | BeginSegment
    | Clear

  // ---------- one step ----------

  function StatsOf(c: Channel): Stats {
    if c.stats.Some? then c.stats.value else UNUSED
  }

  // A new decoder, numbered `id`.
  function Reset(c: Channel, sequence: Option<Seq16>, now: real, id: nat): Channel {
    var flag := c.stats.None? || c.stats.value.resetBeforeClean || !c.stats.value.clean;
    Channel(Some(id), Some(Stats(0, sequence, Some(now), false, flag)))
  }

  function WithDecoder(c: Channel, id: nat): Channel {
    if c.decoder.Some? then c else Channel(Some(id), Some(UNUSED))
  }

  predicate Idle(s: Stats, now: real) {
    s.clean && s.lastAt.Some? && now - s.lastAt.value >= IDLE_SECONDS
  }

  predicate Jumps(s: Stats, sequence: Option<Seq16>) {
    s.clean && sequence.Some? && s.lastSequence.Some? && SequenceGap(s.lastSequence, sequence.value) >= GAP_LIMIT
  }

  function Failed(s: Stats, sequence: Option<Seq16>, now: real): Stats {
    s.(failures := s.failures + 1, lastAt := Some(now),
       lastSequence := if sequence.Some? then sequence else s.lastSequence)
  }

  // Whether the step replaces the decoder.
  predicate Replaces(c: Channel, e: Event) {
    match e
    case Prepare(sequence, now) => c.decoder.Some? && (Idle(StatsOf(c), now) || Jumps(StatsOf(c), sequence))
    case NotDecoded(sequence, now) => StatsOf(c).clean && StatsOf(c).failures + 1 >= FAILURE_LIMIT
    case _ => false
  }

  function Step(c: Channel, e: Event, id: nat): Channel {
    match e
    case Prepare(sequence, now) => if Replaces(c, e) then Reset(c, sequence, now, id) else WithDecoder(c, id)
    case Decoded(sequence, now) =>
      var s := StatsOf(c);
      c.(stats := Some(s.(failures := 0, clean := true, lastAt := Some(now),
                          lastSequence := if sequence.Some? then sequence else s.lastSequence)))
    case NotDecoded(sequence, now) =>
      var failed := c.(stats := Some(Failed(StatsOf(c), sequence, now)));
      if Replaces(c, e) then Reset(failed, sequence, now, id) else failed
    case BeginSegment => c.(stats := Some(StatsOf(c).(resetBeforeClean := false)))
    case Clear => UNKNOWN
  }

  // ---------- runs ----------

  // A run: the events of one source, each with the number a decoder made in it would get.
  type Events = seq<(Event, nat)>

  function Run(events: Events): Channel {
    if events == [] then UNKNOWN
    else
      var n := |events| - 1;
      Step(Run(events[..n]), events[n].0, events[n].1)
  }

  // How often the decoder was replaced, and how often that was for failures.
  function Replacements(events: Events): nat {
    if events == [] then 0
    else
      var n := |events| - 1;
      Replacements(events[..n]) + if Replaces(Run(events[..n]), events[n].0) then 1 else 0
  }

  function FailureReplacements(events: Events): nat {
    if events == [] then 0
    else
      var n := |events| - 1;
      FailureReplacements(events[..n]) +
      if events[n].0.NotDecoded? && Replaces(Run(events[..n]), events[n].0) then 1 else 0
  }

  function Successes(events: Events): nat {
    if events == [] then 0
    else Successes(events[..|events| - 1]) + if events[|events| - 1].0.Decoded? then 1 else 0
  }

  function Failures(events: Events): nat {
    if events == [] then 0
    else Failures(events[..|events| - 1]) + if events[|events| - 1].0.NotDecoded? then 1 else 0
  }

  function CleanOne(c: Channel): nat {
    if StatsOf(c).clean then 1 else 0
  }

  // The record of a decoder reset before its first clean decode is never set, in no run: every replacement
  // is guarded by the clean decode it is supposed to be missing.
  lemma {:induction false} ResetBeforeCleanNeverShows(events: Events)
    ensures !StatsOf(Run(events)).resetBeforeClean
    ensures Run(events).decoder.Some? ==> Run(events).stats.Some?
    decreases |events|
  {
    if events != [] {
      ResetBeforeCleanNeverShows(events[..|events| - 1]);
    }
  }

  // Each replacement uses up a noted success of its own, so without one no decoder is ever replaced.
  lemma {:induction false} ReplacementsNeedSuccesses(events: Events)
    ensures Replacements(events) + CleanOne(Run(events)) <= Successes(events)
    decreases |events|
  {
    if events != [] {
      ReplacementsNeedSuccesses(events[..|events| - 1]);
    }
  }

  // Each replacement for failures uses up as many failures as the limit, and a decoder that has been clean
  // is always below it.
  lemma {:induction false} FailureReplacementsNeedFailures(events: Events)
    ensures FAILURE_LIMIT * FailureReplacements(events) + StatsOf(Run(events)).failures <= Failures(events)
    ensures StatsOf(Run(events)).clean ==> StatsOf(Run(events)).failures < FAILURE_LIMIT
    decreases |events|
  {
    if events != [] {
      var n := |events| - 1;
      FailureReplacementsNeedFailures(events[..n]);
      if events[n].0.NotDecoded? && Replaces(Run(events[..n]), events[n].0) {
        assert FAILURE_LIMIT * (FailureReplacements(events[..n]) + 1) ==
               FAILURE_LIMIT * FailureReplacements(events[..n]) + FAILURE_LIMIT;
      }
    }
  }

  // Of a decoder in use and not idle, only a packet a short way ahead keeps it: one seen before, or an
  // older one, replaces it like a long loss does.
  lemma KeptExactlyOnShortAdvance(c: Channel, last: Seq16, sequence: Seq16, now: real)
    requires c.decoder.Some? && StatsOf(c).clean && !Idle(StatsOf(c), now) && StatsOf(c).lastSequence == Some(last)
    ensures !Replaces(c, Prepare(Some(sequence), now)) <==> 1 <= Delta(sequence, last) <= GAP_LIMIT
  {
  }

  // ---------- the client's decoders ----------

  class Decoders {
    var decoders: map<nat, nat>
    var stats: map<nat, Stats>
    var made: nat

    constructor ()
      ensures forall s :: Of(s) == UNKNOWN
    {
      decoders, stats, made := map[], map[], 0;
    }

    function Of(ssrc: nat): Channel
      reads this
    {
      Channel(if ssrc in decoders then Some(decoders[ssrc]) else None,
              if ssrc in stats then Some(stats[ssrc]) else None)
    }

    // A source that has a decoder has its record, and every number is taken once.
    ghost predicate Valid()
      reads this
    {
      && (forall s :: s in decoders ==> s in stats && decoders[s] < made)
      && forall s, t :: s in decoders && t in decoders && decoders[s] == decoders[t] ==> s == t
    }

    twostate predicate OthersUnchanged(ssrc: nat)
      reads this
    {
      forall s :: s != ssrc ==> Of(s) == old(Of(s))
    }

    method GetDecoder(ssrc: nat) returns (decoder: nat)
      requires Valid()
      modifies this
      ensures Valid() && OthersUnchanged(ssrc)
      ensures Of(ssrc) == WithDecoder(old(Of(ssrc)), old(made)) && Of(ssrc).decoder == Some(decoder)
      ensures if old(ssrc in decoders) then made == old(made) && decoder == old(decoders)[ssrc]
              else made == old(made) + 1 && decoder == old(made)
    {
      if ssrc !in decoders {
        decoders := decoders[ssrc := made];
        stats := stats[ssrc := UNUSED];
        made := made + 1;
      }
      return decoders[ssrc];
    }

    method ResetDecoder(ssrc: nat, sequence: Option<Seq16>, now: real) returns (decoder: nat)
      requires Valid()
      modifies this
      ensures Valid() && OthersUnchanged(ssrc)
      ensures Of(ssrc) == Reset(old(Of(ssrc)), sequence, now, old(made)) && Of(ssrc).decoder == Some(decoder)
      ensures decoder == old(made) && made == old(made) + 1
    {
      var flag := ssrc !in stats || stats[ssrc].resetBeforeClean || !stats[ssrc].clean;
      decoder := made;
      made := made + 1;
      decoders := decoders[ssrc := decoder];
      stats := stats[ssrc := Stats(0, sequence, Some(now), false, flag)];
    }

    method PrepareDecoder(ssrc: nat, sequence: Option<Seq16>, now: real) returns (decoder: nat)
      requires Valid()
      modifies this
      ensures Valid() && OthersUnchanged(ssrc)
      ensures Of(ssrc) == Step(old(Of(ssrc)), Prepare(sequence, now), old(made)) && Of(ssrc).decoder == Some(decoder)
      // the decoder is a new one exactly if there was none or it is replaced
      ensures if old(ssrc !in decoders) || Replaces(old(Of(ssrc)), Prepare(sequence, now))
              then decoder == old(made) else decoder == old(decoders)[ssrc]
    {
      decoder := GetDecoder(ssrc);
      var wasClean := stats[ssrc].clean;
      var lastAt := stats[ssrc].lastAt;
      if wasClean && lastAt.Some? && now - lastAt.value >= IDLE_SECONDS {
        decoder := ResetDecoder(ssrc, sequence, now);
        wasClean := stats[ssrc].clean;
      }
      var lastSequence := stats[ssrc].lastSequence;
      if wasClean && sequence.Some? && lastSequence.Some? && SequenceGap(lastSequence, sequence.value) >= GAP_LIMIT {
        decoder := ResetDecoder(ssrc, sequence, now);
      }
    }

    method NoteSuccess(ssrc: nat, sequence: Option<Seq16>, now: real)
      requires Valid()
      modifies this
      ensures Valid() && OthersUnchanged(ssrc) && made == old(made)
      ensures Of(ssrc) == Step(old(Of(ssrc)), Decoded(sequence, now), old(made))
    {
      var s := if ssrc in stats then stats[ssrc] else UNUSED;
      s := s.(failures := 0, clean := true);
      if sequence.Some? {
        s := s.(lastSequence := sequence);
      }
      stats := stats[ssrc := s.(lastAt := Some(now))];
    }

    method NoteFailure(ssrc: nat, sequence: Option<Seq16>, now: real)
      requires Valid()
      modifies this
      ensures Valid() && OthersUnchanged(ssrc)
      ensures Of(ssrc) == Step(old(Of(ssrc)), NotDecoded(sequence, now), old(made))
      ensures Of(ssrc).decoder == if Replaces(old(Of(ssrc)), NotDecoded(sequence, now)) then Some(old(made))
                                  else old(Of(ssrc)).decoder
    {
      var s := if ssrc in stats then stats[ssrc] else UNUSED;
      s := s.(failures := s.failures + 1);
      if sequence.Some? {
        s := s.(lastSequence := sequence);
      }
      stats := stats[ssrc := s.(lastAt := Some(now))];
      if s.clean && s.failures >= FAILURE_LIMIT {
        var decoder := ResetDecoder(ssrc, sequence, now);
      }
    }

    method BeginSegmentFor(ssrc: nat)
      requires Valid()
      modifies this`stats
      ensures Valid() && OthersUnchanged(ssrc)
      ensures Of(ssrc) == Step(old(Of(ssrc)), BeginSegment, old(made))
    {
      var s := if ssrc in stats then stats[ssrc] else UNUSED;
      stats := stats[ssrc := s.(resetBeforeClean := false)];
    }

    method ClearAll()
      modifies this`decoders, this`stats
      ensures Valid() && forall s :: Of(s) == UNKNOWN
    {
      decoders, stats := map[], map[];
    }
  }
}
