// The gate that drops the silence in front of synthesised speech while the
// samples are still arriving in chunks.
module SilenceGate {
  import opened Wrappers

  type Samples = seq<real>

  // Frame length, preroll and longest wait in samples; `loud` is the loudness test of one frame.
  datatype Settings = Settings(frame: nat, preroll: nat, maxWait: nat, loud: Samples -> bool) {
    predicate Valid() {
      frame >= 1
    }

    // The start of the first loud frame at or after `start`; frames are whole and laid end to end.
    function FirstLoud(samples: Samples, start: nat): (r: Option<nat>)
      requires Valid()
      ensures r.Some? ==> start <= r.value && r.value + frame <= |samples|
      decreases |samples| - start
    {
      if start + frame > |samples| then None
      else if loud(samples[start..start + frame]) then Some(start)
      else FirstLoud(samples, start + frame)
    }

    // Where the output begins when the first loud frame starts at `start`.
    function KeepFrom(start: nat): nat {
      if start <= preroll then 0 else start - preroll
    }
  }

  // Frame number `i`, frames being laid end to end from the first sample, lies within the samples and is loud.
  ghost predicate LoudFrame(samples: Samples, i: nat, s: Settings) {
    i * s.frame + s.frame <= |samples| && s.loud(samples[i * s.frame..i * s.frame + s.frame])
  }

  // Frame number `i` is the first loud one.
  ghost predicate FirstLoudFrame(samples: Samples, i: nat, s: Settings) {
    LoudFrame(samples, i, s) && forall j: nat :: j < i ==> !LoudFrame(samples, j, s)
  }

  ghost predicate NoLoudFrame(samples: Samples, s: Settings) {
    forall j: nat :: !LoudFrame(samples, j, s)
  }

  lemma LaterFrames(i: nat, j: nat, frame: nat)
    requires i <= j
    ensures i * frame <= j * frame
  {
  }

  lemma NextFrame(i: nat, frame: nat)
    ensures (i + 1) * frame == i * frame + frame
  {
  }

  lemma {:induction false} SearchFrom(samples: Samples, i: nat, s: Settings) returns (n: Option<nat>)
    requires s.Valid() && forall j: nat :: j < i ==> !LoudFrame(samples, j, s)
    ensures n == None ==> s.FirstLoud(samples, i * s.frame) == None && NoLoudFrame(samples, s)
    ensures n.Some? ==> s.FirstLoud(samples, i * s.frame) == Some(n.value * s.frame)
                        && FirstLoudFrame(samples, n.value, s)
    decreases |samples| - i * s.frame
  {
    NextFrame(i, s.frame);
    if i * s.frame + s.frame > |samples| {
      forall j: nat
        ensures !LoudFrame(samples, j, s)
      {
        if i <= j {
          LaterFrames(i, j, s.frame);
        }
      }
      return None;
    }
    if LoudFrame(samples, i, s) {
      return Some(i);
    }
    n := SearchFrom(samples, i + 1, s);
  }

  lemma OneFirstLoudFrame(samples: Samples, i: nat, j: nat, s: Settings)
    requires FirstLoudFrame(samples, i, s) && FirstLoudFrame(samples, j, s)
    ensures i == j
  {
  }

  // The search finds exactly the first loud one of all the whole frames, and nothing exactly if none is loud.
  lemma FirstLoudExactly(samples: Samples, s: Settings)
    requires s.Valid()
    ensures forall i: nat :: FirstLoudFrame(samples, i, s) ==> s.FirstLoud(samples, 0) == Some(i * s.frame)
    ensures forall k :: s.FirstLoud(samples, 0) == Some(k) ==>
              exists i: nat :: FirstLoudFrame(samples, i, s) && k == i * s.frame
    ensures s.FirstLoud(samples, 0) == None <==> NoLoudFrame(samples, s)
  {
    var n := SearchFrom(samples, 0, s);
    forall i: nat | FirstLoudFrame(samples, i, s)
      ensures s.FirstLoud(samples, 0) == Some(i * s.frame)
    {
      if n.Some? {
        OneFirstLoudFrame(samples, i, n.value, s);
      }
    }
  }

  datatype Gate = Gate(pending: Samples, isOpen: bool, trimmed: nat)

  const CLOSED := Gate([], false, 0)

  function Process(g: Gate, chunk: Samples, s: Settings): (Gate, Samples)
    requires s.Valid()
  {
    var pending := g.pending + chunk;
    if g.isOpen then (g, chunk)
    else
      match s.FirstLoud(pending, 0)
      case Some(start) => (Gate([], true, g.trimmed + s.KeepFrom(start)), pending[s.KeepFrom(start)..])
      case None =>
        if |pending| >= s.maxWait then (Gate([], true, g.trimmed), pending)
        else (Gate(pending, false, g.trimmed), [])
  }

  // ---------- a run over any splitting into chunks ----------

  function Concat(chunks: seq<Samples>): Samples {
    if chunks == [] then [] else Concat(chunks[..|chunks| - 1]) + chunks[|chunks| - 1]
  }

  function State(chunks: seq<Samples>, s: Settings): Gate
    requires s.Valid()
  {
    if chunks == [] then CLOSED else Process(State(chunks[..|chunks| - 1], s), chunks[|chunks| - 1], s).0
  }

  function Output(chunks: seq<Samples>, s: Settings): Samples
    requires s.Valid()
  {
    if chunks == [] then []
    else
      var init := chunks[..|chunks| - 1];
      Output(init, s) + Process(State(init, s), chunks[|chunks| - 1], s).1
  }

  // A chunk ended after the longest wait but before `end`.
  ghost predicate EndsEarly(chunks: seq<Samples>, maxWait: nat, end: nat) {
    exists j :: 1 <= j <= |chunks| && maxWait <= |Concat(chunks[..j])| < end
  }

  // The samples dropped: the lead-in of the first loud frame, unless some chunk ended past
  // the longest wait before that frame was complete.
  ghost function Trim(chunks: seq<Samples>, s: Settings): nat
    requires s.Valid()
  {
    match s.FirstLoud(Concat(chunks), 0)
    case None => 0
    case Some(start) => if EndsEarly(chunks, s.maxWait, start + s.frame) then 0 else s.KeepFrom(start)
  }

  // What the first loud frame of a longer input has to do with the input so far.
  lemma {:induction false} FirstLoudExtends(a: Samples, b: Samples, start: nat, s: Settings)
    requires s.Valid()
    ensures s.FirstLoud(a, start).Some? ==> s.FirstLoud(a + b, start) == s.FirstLoud(a, start)
    ensures s.FirstLoud(a, start) == None && s.FirstLoud(a + b, start).Some? ==>
              s.FirstLoud(a + b, start).value + s.frame > |a|
    decreases |a| - start
  {
    if start + s.frame <= |a| {
      assert (a + b)[start..start + s.frame] == a[start..start + s.frame];
      FirstLoudExtends(a, b, start + s.frame, s);
    }
  }

  lemma EarlyStep(chunks: seq<Samples>, maxWait: nat, end: nat)
    requires chunks != []
    ensures EndsEarly(chunks, maxWait, end) <==>
            EndsEarly(chunks[..|chunks| - 1], maxWait, end) || maxWait <= |Concat(chunks)| < end
  {
    var n := |chunks| - 1;
    assert forall j :: 0 <= j <= n ==> chunks[..n][..j] == chunks[..j];
    assert chunks[..n + 1] == chunks;
    if EndsEarly(chunks[..n], maxWait, end) {
      var j :| 1 <= j <= n && maxWait <= |Concat(chunks[..n][..j])| < end;
      assert maxWait <= |Concat(chunks[..j])| < end;
    }
    if EndsEarly(chunks, maxWait, end) {
      var j :| 1 <= j <= n + 1 && maxWait <= |Concat(chunks[..j])| < end;
      assert j <= n ==> maxWait <= |Concat(chunks[..n][..j])| < end;
    }
  }

  // Chunks that all ended before the longest wait, or nothing at all, end nowhere early.
  ghost predicate Waiting(chunks: seq<Samples>, s: Settings)
    requires s.Valid()
  {
    && State(chunks, s) == Gate(Concat(chunks), false, 0)
    && Output(chunks, s) == []
    && s.FirstLoud(Concat(chunks), 0) == None
    && (chunks != [] ==> |Concat(chunks)| < s.maxWait)
    && forall end :: !EndsEarly(chunks, s.maxWait, end)
  }

  ghost predicate Open(chunks: seq<Samples>, s: Settings)
    requires s.Valid()
  {
    && State(chunks, s) == Gate([], true, Trim(chunks, s))
    && Trim(chunks, s) <= |Concat(chunks)|
    && Output(chunks, s) == Concat(chunks)[Trim(chunks, s)..]
    && (s.FirstLoud(Concat(chunks), 0) == None ==> |Concat(chunks)| >= s.maxWait)
  }

  lemma OpenStep(chunks: seq<Samples>, s: Settings)
    requires s.Valid() && chunks != [] && Open(chunks[..|chunks| - 1], s)
    ensures Open(chunks, s)
  {
    var init, c := chunks[..|chunks| - 1], chunks[|chunks| - 1];
    TrimIsFixed(chunks, s);
    FirstLoudExtends(Concat(init), c, 0, s);
    TailGrows(Concat(init), c, Trim(init, s));
  }

  lemma TailGrows(a: Samples, b: Samples, k: nat)
    requires k <= |a|
    ensures (a + b)[k..] == a[k..] + b
  {
  }

  // What an open gate has trimmed never changes.
  lemma TrimIsFixed(chunks: seq<Samples>, s: Settings)
    requires s.Valid() && chunks != [] && Open(chunks[..|chunks| - 1], s)
    ensures Trim(chunks, s) == Trim(chunks[..|chunks| - 1], s)
  {
    var init, c := chunks[..|chunks| - 1], chunks[|chunks| - 1];
    FirstLoudExtends(Concat(init), c, 0, s);
    var loud := s.FirstLoud(Concat(chunks), 0);
    if loud.Some? {
      EarlyStep(chunks, s.maxWait, loud.value + s.frame);
      if s.FirstLoud(Concat(init), 0) == None {
        assert init != [];
        assert init[..|init|] == init;
      }
    }
  }

  lemma WaitingStep(chunks: seq<Samples>, s: Settings)
    requires s.Valid() && chunks != [] && Waiting(chunks[..|chunks| - 1], s)
    ensures Waiting(chunks, s) || Open(chunks, s)
  {
    var init := chunks[..|chunks| - 1];
    var all := Concat(chunks);
    forall end
      ensures EndsEarly(chunks, s.maxWait, end) <==> s.maxWait <= |all| < end
    {
      EarlyStep(chunks, s.maxWait, end);
      assert !EndsEarly(init, s.maxWait, end);
    }
    if s.FirstLoud(all, 0) == None && |all| >= s.maxWait {
      assert all[0..] == all;
    }
  }

  lemma {:induction false} RunIsWaitingOrOpen(chunks: seq<Samples>, s: Settings)
    requires s.Valid()
    ensures Waiting(chunks, s) || Open(chunks, s)
    decreases |chunks|
  {
    if chunks == [] {
      forall end
        ensures !EndsEarly(chunks, s.maxWait, end)
      {
      }
    } else {
      var init := chunks[..|chunks| - 1];
      RunIsWaitingOrOpen(init, s);
      if Open(init, s) {
        OpenStep(chunks, s);
      } else {
        WaitingStep(chunks, s);
      }
    }
  }

  // Everything that ever comes out: the outputs in order and then what a flush lets go.
  function Total(chunks: seq<Samples>, s: Settings): Samples
    requires s.Valid()
  {
    Output(chunks, s) + State(chunks, s).pending
  }

  // Nothing is lost but the trimmed lead-in, at any point of any run; and a closed gate never
  // holds as many samples as the longest wait.
  lemma OnlyTheLeadInIsLost(chunks: seq<Samples>, s: Settings)
    requires s.Valid()
    ensures var g := State(chunks, s);
            && g.trimmed == Trim(chunks, s) <= |Concat(chunks)|
            && Total(chunks, s) == Concat(chunks)[g.trimmed..]
            && (g.isOpen ==> g.pending == [])
            && (!g.isOpen && chunks != [] ==> |g.pending| < s.maxWait)
  {
    RunIsWaitingOrOpen(chunks, s);
  }

  lemma OneChunk(input: Samples)
    ensures Concat([input]) == input
  {
    assert [input][..0] == [];
    assert [] + input == input;
  }

  lemma OneChunkRun(input: Samples, s: Settings)
    requires s.Valid()
    ensures (State([input], s), Output([input], s)) == Process(CLOSED, input, s)
  {
    assert [input][..0] == [];
    assert [] + Process(CLOSED, input, s).1 == Process(CLOSED, input, s).1;
  }

  lemma OneShotTrim(input: Samples, s: Settings)
    requires s.Valid()
    ensures Trim([input], s) == match s.FirstLoud(input, 0) case None => 0 case Some(start) => s.KeepFrom(start)
  {
    OneChunk(input);
    if s.FirstLoud(input, 0).Some? {
      var end := s.FirstLoud(input, 0).value + s.frame;
      EarlyStep([input], s.maxWait, end);
      assert !EndsEarly([input][..0], s.maxWait, end);
    }
  }

  // What a run trims, in terms of the frames alone: everything up to the preroll of the first loud frame, unless a
  // chunk ended past the longest wait before that frame was complete; and nothing without a loud frame.
  lemma TrimmedExactly(chunks: seq<Samples>, i: nat, s: Settings)
    requires s.Valid()
    ensures NoLoudFrame(Concat(chunks), s) ==> State(chunks, s).trimmed == 0
    ensures FirstLoudFrame(Concat(chunks), i, s) ==>
              State(chunks, s).trimmed ==
              if i * s.frame <= s.preroll || EndsEarly(chunks, s.maxWait, i * s.frame + s.frame) then 0
              else i * s.frame - s.preroll
    ensures chunks != [] ==>
              (State(chunks, s).isOpen <==> !NoLoudFrame(Concat(chunks), s) || |Concat(chunks)| >= s.maxWait)
  {
    FirstLoudExactly(Concat(chunks), s);
    RunIsWaitingOrOpen(chunks, s);
  }

  // A splitting makes no difference exactly when nothing would be trimmed anyway, or no chunk
  // ends after the longest wait but before the first loud frame is complete.
  lemma SplittingMatters(chunks: seq<Samples>, s: Settings)
    requires s.Valid()
    ensures var input := Concat(chunks);
            Total(chunks, s) == Total([input], s) <==>
            match s.FirstLoud(input, 0)
            case None => true
            case Some(start) => s.KeepFrom(start) == 0 || !EndsEarly(chunks, s.maxWait, start + s.frame)
  {
    var input := Concat(chunks);
    OnlyTheLeadInIsLost(chunks, s);
    OnlyTheLeadInIsLost([input], s);
    OneChunk(input);
    OneShotTrim(input, s);
    SameTail(input, Trim(chunks, s), Trim([input], s));
  }

  lemma SameTail(input: Samples, a: nat, b: nat)
    requires a <= |input| && b <= |input|
    ensures input[a..] == input[b..] <==> a == b
  {
    assert |input[a..]| == |input| - a && |input[b..]| == |input| - b;
  }

  ghost predicate SplittingNeverMatters(input: Samples, s: Settings)
    requires s.Valid()
  {
    forall chunks :: Concat(chunks) == input ==> Total(chunks, s) == Total([input], s)
  }

  // An input comes out the same however it is split, exactly when it has no loud frame, or its first loud
  // frame is complete within the longest wait, or starts within the preroll.
  lemma IndependentExactly(input: Samples, s: Settings)
    requires s.Valid()
    ensures SplittingNeverMatters(input, s) <==>
            match s.FirstLoud(input, 0)
            case None => true
            case Some(start) => start + s.frame <= s.maxWait || start <= s.preroll
  {
    if NeverTooLate(input, s) {
      forall chunks | Concat(chunks) == input
        ensures Total(chunks, s) == Total([input], s)
      {
        SplittingIsHarmless(chunks, s);
      }
    } else {
      var chunks := HarmfulSplitting(input, s);
    }
  }

  ghost predicate NeverTooLate(input: Samples, s: Settings)
    requires s.Valid()
  {
    match s.FirstLoud(input, 0)
    case None => true
    case Some(start) => start + s.frame <= s.maxWait || start <= s.preroll
  }

  lemma SplittingIsHarmless(chunks: seq<Samples>, s: Settings)
    requires s.Valid() && NeverTooLate(Concat(chunks), s)
    ensures Total(chunks, s) == Total([Concat(chunks)], s)
  {
    NoChunkEndsEarly(chunks, s, s.FirstLoud(Concat(chunks), 0));
    SplittingMatters(chunks, s);
  }

  lemma HarmfulSplitting(input: Samples, s: Settings) returns (chunks: seq<Samples>)
    requires s.Valid() && !NeverTooLate(input, s)
    ensures Concat(chunks) == input && Total(chunks, s) != Total([input], s)
  {
    chunks := [input[..s.maxWait], input[s.maxWait..]];
    EarlySplit(input, s.maxWait, s.FirstLoud(input, 0).value + s.frame);
    SplittingMatters(chunks, s);
  }

  lemma NoChunkEndsEarly(chunks: seq<Samples>, s: Settings, loud: Option<nat>)
    ensures loud.Some? && loud.value + s.frame <= s.maxWait ==> !EndsEarly(chunks, s.maxWait, loud.value + s.frame)
  {
  }

  lemma EarlySplit(input: Samples, k: nat, end: nat)
    requires k < end <= |input|
    ensures var chunks := [input[..k], input[k..]];
            Concat(chunks) == input && EndsEarly(chunks, k, end)
  {
    var chunks := [input[..k], input[k..]];
    SplitInTwo(input, k);
    assert k <= |Concat(chunks[..1])| < end;
  }

  lemma SplitInTwo(input: Samples, k: nat)
    requires k <= |input|
    ensures var chunks := [input[..k], input[k..]];
            Concat(chunks) == input && Concat(chunks[..1]) == input[..k]
  {
    var chunks := [input[..k], input[k..]];
    OneChunk(input[..k]);
    assert chunks[..1] == [input[..k]];
    assert chunks[..|chunks| - 1] == chunks[..1];
    assert input[..k] + input[k..] == input;
  }

  // ---------- the gate itself ----------

  class LeadingSilenceGate {
    var pending: Samples
    var isOpen: bool
    var trimmedSamples: nat
    const settings: Settings

    constructor (settings: Settings)
      ensures Value() == CLOSED && this.settings == settings
    {
      this.settings := settings;
      pending, isOpen, trimmedSamples := [], false, 0;
    }

    function Value(): Gate
      reads this
    {
      Gate(pending, isOpen, trimmedSamples)
    }

    method ProcessChunk(chunk: Samples) returns (output: Samples)
      requires settings.Valid()
      requires isOpen ==> pending == []
      modifies this
      ensures (Value(), output) == Process(old(Value()), chunk, settings)
      ensures isOpen ==> pending == []
    {
      if isOpen {
        return chunk;
      }
      if chunk != [] {
        pending := pending + chunk;
      }
      assert chunk == [] ==> old(pending) + chunk == old(pending);
      var frame := settings.frame;
      var start := 0;
      while start + frame <= |pending|
        invariant settings.FirstLoud(pending, 0) == settings.FirstLoud(pending, start)
        invariant pending == old(pending) + chunk && !isOpen && trimmedSamples == old(trimmedSamples)
        decreases |pending| - start
      {
        var window := pending[start..start + frame];
        if settings.loud(window) {
          var keepFrom := if start <= settings.preroll then 0 else start - settings.preroll;
          trimmedSamples := trimmedSamples + keepFrom;
          output := pending[keepFrom..];
          pending := [];
          isOpen := true;
          return;
        }
        start := start + frame;
      }
      if |pending| >= settings.maxWait {
        isOpen := true;
        output := pending;
        pending := [];
        return;
      }
      return [];
    }

    method Flush() returns (output: Samples)
      modifies this
      ensures output == old(pending) && pending == [] && isOpen && trimmedSamples == old(trimmedSamples)
    {
      output := pending;
      pending := [];
      isOpen := true;
    }
  }

  lemma OneChunkTrims(samples: Samples, s: Settings)
    requires s.Valid()
    ensures NoLoudFrame(samples, s) ==> Trim([samples], s) == 0
    ensures forall i: nat :: FirstLoudFrame(samples, i, s) ==>
              Trim([samples], s) == if i * s.frame <= s.preroll then 0 else i * s.frame - s.preroll
  {
    FirstLoudExactly(samples, s);
    OneShotTrim(samples, s);
  }

  // Trimming a finished recording: one chunk and a flush.
  method TrimLeadingSilence(samples: Samples, settings: Settings) returns (output: Samples, trimmed: nat)
    requires settings.Valid()
    ensures trimmed == Trim([samples], settings) <= |samples|
    ensures output == samples[trimmed..]
    ensures NoLoudFrame(samples, settings) ==> trimmed == 0
    ensures forall i: nat :: FirstLoudFrame(samples, i, settings) ==>
              trimmed == if i * settings.frame <= settings.preroll then 0 else i * settings.frame - settings.preroll
  {
    var gate := new LeadingSilenceGate(settings);
    var audible := gate.ProcessChunk(samples);
    OneChunkRun(samples, settings);
    var pending := gate.Flush();
    OnlyTheLeadInIsLost([samples], settings);
    OneChunk(samples);
    OneChunkTrims(samples, settings);
    if audible != [] && pending != [] {
      output := audible + pending;
    } else if audible != [] {
      output := audible;
    } else {
      output := pending;
    }
    assert output == audible + pending;
    trimmed := gate.trimmedSamples;
  }
}
