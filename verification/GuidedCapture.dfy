// Collecting a fixed number of distinct voice clips. In guided mode each clip is
// prompted for: the capture is disarmed while a clip is judged and armed again
// once the speaker has been told the outcome.
module GuidedCapture {
  import opened Wrappers

  // A digest stands for the clip it is taken of.
  type Digest = nat

  datatype Code =
    | ParticipantGuard | ListenerBinding | TimingInvalid | OutputNotEmpty | WriteFailed
    | StatusSendFailed | CaptureFailed | External(which: nat)

  datatype Clip = Clip(digest: Digest, startedAt: Option<real>, armedAt: Option<real>)

  // `files[i]` is the clip counted under number i + 1, and `stray` one that was written under the next number but
  // never counted; `prompts` counts the armings whose prompt is under way.
  datatype Capture = Capture(
    guided: bool, exactCount: nat,
    armed: bool, armedAt: Option<real>, hasCallback: bool, prompts: nat,
    savedCount: nat, rejectedCount: nat, hashes: set<Digest>, files: seq<Clip>, stray: Option<Clip>,
    done: bool, error: Option<Code>)

  // The clip files on disk, the one with number i + 1 at place i.
  function OnDisk(s: Capture): seq<Clip> {
    s.files + if s.stray.Some? then [s.stray.value] else []
  }

  function Started(guided: bool, exactCount: nat): Capture {
    Capture(guided, exactCount, !guided, None, false, 0, 0, 0, {}, [], None, false, None)
  }

  // ---------- what a call meets ----------

  datatype Audio = Unusable | Usable(digest: Digest, storable: bool, rejectedShape: bool)

  // Why a clip cannot be written: a file with its name is there, writing fails before the file has its name or
  // after, or something unforeseen happens.
  datatype WriteProblem = NameTaken | BeforeRename | AfterRename | Unforeseen

  // `checksBreak` and `clipBreaks`: an exception nobody provided for, before the capture is disarmed or after.
  datatype Offer = Offer(
    checksBreak: bool, ownerPresent: bool, bindingCurrent: bool, startedAt: Option<real>,
    clipBreaks: bool, transportCorrupted: bool, audio: Audio, problem: Option<WriteProblem>)

  // A message that fails may bring a failure code of its own.
  datatype Answer = Sent | SendFailed(own: Option<Code>) | CallCancelled

  // What else can happen at any time, also while a message is under way: something fails, an arming sends its
  // prompt, or such a prompt is answered.
  datatype Other = Failed(code: Code) | PromptStarts | PromptEnds(outcome: Answer, at: real)

  // One message to the speaker: what happens while it is under way, how it ends and when.
  datatype Notice = Notice(answer: Answer, at: real, meanwhile: seq<Other>)

  // ---------- the steps ----------

  function Fail(s: Capture, code: Code): Capture {
    if s.done || s.error.Some? then s else s.(error := Some(code), done := true)
  }

  // Guided arming is refused unless there is something to arm.
  predicate MayArm(s: Capture) {
    s.guided && !s.armed && !s.done
  }

  // An arming takes effect when its prompt went out, whatever has become of the capture by then.
  predicate Arms(s: Capture, x: Other) {
    x.PromptEnds? && x.outcome.Sent? && s.prompts > 0
  }

  function OtherStep(s: Capture, x: Other): Capture {
    match x
    case Failed(code) => Fail(s, code)
    case PromptStarts => if MayArm(s) then s.(prompts := s.prompts + 1) else s
    case PromptEnds(_, at) =>
      if s.prompts == 0 then s
      else
        var t := s.(prompts := s.prompts - 1);
        if Arms(s, x) then t.(hasCallback := true, armedAt := Some(at), armed := true) else t
  }

  function Others(s: Capture, xs: seq<Other>): Capture {
    if xs == [] then s else OtherStep(Others(s, xs[..|xs| - 1]), xs[|xs| - 1])
  }

  // A whole arming during which no offer is taken.
  function Arm(s: Capture, n: Notice): Capture {
    if MayArm(s) then OtherStep(Others(OtherStep(s, PromptStarts), n.meanwhile), PromptEnds(n.answer, n.at)) else s
  }

  function SendCode(n: Notice): Code {
    if n.answer.SendFailed? && n.answer.own.Some? then n.answer.own.value else StatusSendFailed
  }

  // With any failure of the message reported as one of the status.
  function Plain(n: Notice): Notice {
    if n.answer.SendFailed? then n.(answer := SendFailed(None)) else n
  }

  // It is nothing but asides, so every run may hold it.
  lemma ArmIsAsides(s: Capture, n: Notice)
    requires MayArm(s)
    ensures Arm(s, n) == Others(s, [PromptStarts] + n.meanwhile + [PromptEnds(n.answer, n.at)])
  {
    OthersJoin(s, [PromptStarts], n.meanwhile);
    var before := [PromptStarts] + n.meanwhile;
    assert (before + [PromptEnds(n.answer, n.at)])[..|before|] == before;
    assert [PromptStarts][..0] == [];
  }

  lemma {:induction false} OthersJoin(s: Capture, xs: seq<Other>, ys: seq<Other>)
    ensures Others(s, xs + ys) == Others(Others(s, xs), ys)
    decreases |ys|
  {
    if ys == [] {
      assert xs + ys == xs;
    } else {
      OthersJoin(s, xs, ys[..|ys| - 1]);
      assert (xs + ys)[..|xs + ys| - 1] == xs + ys[..|ys| - 1];
    }
  }

  // Tell the speaker and arm again.
  function Rearm(s: Capture, n: Notice): Capture {
    var t := Others(s, n.meanwhile);
    match n.answer
    case Sent => t.(armed := true, armedAt := Some(n.at))
    case SendFailed(_) => Fail(t, SendCode(n))
    case CallCancelled => t
  }

  // Tell the speaker that the last clip is in.
  function Finish(s: Capture, n: Notice): Capture {
    var t := Others(s, n.meanwhile);
    match n.answer
    case Sent => t.(done := true)
    case SendFailed(_) => Fail(t, SendCode(n))
    case CallCancelled => t
  }

  datatype Verdict =
    | Ignored | Unarmed | Stops(code: Code) | TooEarly | Rejected
    | Unwritable(failure: Code, left: bool) | Stored(digest: Digest)

  function Unexpected(s: Capture): Code {
    if s.guided then StatusSendFailed else CaptureFailed
  }

  // What becomes of an offered clip.
  function Judge(s: Capture, o: Offer): Verdict {
    if s.done then Ignored
    else if s.guided && !s.armed then Unarmed
    else if o.checksBreak then Stops(Unexpected(s))
    else if !o.ownerPresent then Stops(ParticipantGuard)
    else if !o.bindingCurrent then Stops(ListenerBinding)
    else if s.guided && (o.startedAt == None || s.armedAt == None) then Stops(TimingInvalid)
    else if s.guided && o.startedAt.value < s.armedAt.value then TooEarly
    else JudgeClip(s, o)
  }

  function JudgeClip(s: Capture, o: Offer): Verdict {
    if o.clipBreaks then Unwritable(Unexpected(s), false)
    else if o.transportCorrupted || o.audio.Unusable? then Rejected
    else if (s.guided && o.audio.rejectedShape) || !o.audio.storable || o.audio.digest in s.hashes then Rejected
    else if o.problem.Some? then Unwritable(ProblemCode(s, o.problem.value), o.problem.value.AfterRename?)
    else Stored(o.audio.digest)
  }

  function ProblemCode(s: Capture, problem: WriteProblem): Code {
    match problem
    case NameTaken => OutputNotEmpty
    case BeforeRename => WriteFailed
    case AfterRename => WriteFailed
    case Unforeseen => Unexpected(s)
  }

  // A file that is there but not counted.
  function Left(s: Capture, o: Offer, left: bool): Capture {
    if left && o.audio.Usable? then s.(stray := Some(Clip(o.audio.digest, o.startedAt, s.armedAt))) else s
  }

  // Sound that cannot be read at all is rejected in a place of its own.
  predicate Unreadable(o: Offer) {
    !o.transportCorrupted && o.audio.Unusable?
  }

  function Disarmed(s: Capture): Capture {
    s.(armed := s.armed && !s.guided)
  }

  function Counted(s: Capture): Capture {
    s.(rejectedCount := s.rejectedCount + 1)
  }

  // With one more clip stored; outside guided mode the last one ends the capture.
  function Kept(s: Capture, digest: Digest, startedAt: Option<real>): Capture {
    s.(hashes := s.hashes + {digest}, savedCount := s.savedCount + 1,
       files := s.files + [Clip(digest, startedAt, s.armedAt)],
       done := s.done || (!s.guided && s.savedCount + 1 == s.exactCount))
  }

  // The call from where it looks at the clip itself, disarmed in guided mode.
  function Settle(s: Capture, o: Offer, n: Notice): Capture {
    match JudgeClip(s, o)
    case Unwritable(code, left) => Fail(Left(s, o, left), code)
    case Stored(digest) =>
      var t := Kept(s, digest, o.startedAt);
      if !s.guided then t
      else if t.savedCount == t.exactCount then Finish(t, n)
      else Rearm(t, n)
    case _ => if s.guided then Rearm(Counted(s), if Unreadable(o) then Plain(n) else n) else Counted(s)
  }

  function Accept(s: Capture, o: Offer, n: Notice): Capture {
    match Judge(s, o)
    case Ignored => s
    case Unarmed => Counted(s)
    case Stops(code) => Fail(s, code)
    case TooEarly => Counted(s)
    case _ => Settle(Disarmed(s), o, n)
  }

  // The lock lets one offer in at a time; everything else is an aside, on its own or within an offer's message.
  datatype Event = Aside(other: Other) | Offered(offer: Offer, notice: Notice)

  function Step(s: Capture, e: Event): Capture {
    match e
    case Aside(x) => OtherStep(s, x)
    case Offered(o, n) => Accept(s, o, n)
  }

  function Run(guided: bool, exactCount: nat, events: seq<Event>): Capture {
    if events == [] then Started(guided, exactCount)
    else Step(Run(guided, exactCount, events[..|events| - 1]), events[|events| - 1])
  }

  // ---------- what every run keeps ----------

  // The counted clips are distinct, one file each, and the counters agree with them.
  ghost predicate Consistent(s: Capture) {
    && s.savedCount == |s.files| == |s.hashes|
    && (forall i :: 0 <= i < |s.files| ==> s.files[i].digest in s.hashes)
    && (forall i, j :: 0 <= i < j < |s.files| ==> s.files[i].digest != s.files[j].digest)
  }

  predicate InTime(c: Clip) {
    c.startedAt.Some? && c.armedAt.Some? && c.startedAt.value >= c.armedAt.value
  }

  // A guided clip began after the arming in force when it was stored, and armed means armed at a known time.
  ghost predicate ArmedProperly(s: Capture) {
    && (!s.guided ==> s.armed && s.prompts == 0)
    && (s.guided && s.armed ==> s.armedAt.Some? && s.hasCallback)
    && (s.guided ==> forall i :: 0 <= i < |s.files| ==> InTime(s.files[i]))
  }

  ghost predicate EndsProperly(s: Capture) {
    && (s.error.Some? ==> s.done)
    && (s.done && s.error == None ==> s.savedCount == s.exactCount)
    && (s.stray.Some? ==> s.error == Some(WriteFailed))
  }

  ghost predicate Inv(s: Capture) {
    Consistent(s) && ArmedProperly(s) && EndsProperly(s)
  }

  // The clips, the counters and the kind of capture are the same.
  predicate SameClips(s: Capture, t: Capture) {
    && s.guided == t.guided && s.exactCount == t.exactCount && s.savedCount == t.savedCount
    && s.rejectedCount == t.rejectedCount && s.hashes == t.hashes && s.files == t.files && s.stray == t.stray
  }

  // What asides cannot do: touch a clip, disarm, forget the callback, or take back an end.
  ghost predicate OnlyAsides(s: Capture, t: Capture) {
    && SameClips(s, t)
    && (s.armed ==> t.armed) && (s.hasCallback ==> t.hasCallback)
    && (s.done ==> t.done && t.error == s.error)
  }

  lemma FailKeepsInv(s: Capture, code: Code)
    requires Inv(s)
    ensures Inv(Fail(s, code)) && Fail(s, code).done && OnlyAsides(s, Fail(s, code))
  {
  }

  lemma OtherKeepsInv(s: Capture, x: Other)
    requires Inv(s)
    ensures Inv(OtherStep(s, x)) && OnlyAsides(s, OtherStep(s, x))
  {
  }

  lemma {:induction false} OthersKeepInv(s: Capture, xs: seq<Other>)
    requires Inv(s)
    ensures Inv(Others(s, xs)) && OnlyAsides(s, Others(s, xs))
    decreases |xs|
  {
    if xs != [] {
      OthersKeepInv(s, xs[..|xs| - 1]);
      OtherKeepsInv(Others(s, xs[..|xs| - 1]), xs[|xs| - 1]);
    }
  }

  // Telling the speaker, whatever comes of it.
  lemma RearmKeepsInv(s: Capture, n: Notice)
    requires Inv(s) && s.guided && s.hasCallback
    ensures Inv(Rearm(s, n)) && SameClips(s, Rearm(s, n))
  {
    OthersKeepInv(s, n.meanwhile);
    FailKeepsInv(Others(s, n.meanwhile), SendCode(n));
  }

  lemma FinishKeepsInv(s: Capture, n: Notice)
    requires Inv(s) && s.guided && s.savedCount == s.exactCount
    ensures Inv(Finish(s, n)) && SameClips(s, Finish(s, n))
  {
    OthersKeepInv(s, n.meanwhile);
    FailKeepsInv(Others(s, n.meanwhile), SendCode(n));
  }

  lemma LeftKeepsInv(s: Capture, o: Offer, left: bool, code: Code)
    requires Inv(s) && !s.done && (left ==> code == WriteFailed)
    ensures Inv(Fail(Left(s, o, left), code)) && SameClips(Left(s, o, left), Fail(Left(s, o, left), code))
    ensures Fail(Left(s, o, left), code).done && Fail(Left(s, o, left), code).error == Some(code)
  {
  }

  lemma KeptIsConsistent(s: Capture, digest: Digest, startedAt: Option<real>)
    requires Consistent(s) && digest !in s.hashes
    ensures Consistent(Kept(s, digest, startedAt))
  {
  }

  lemma KeptIsProper(s: Capture, digest: Digest, startedAt: Option<real>)
    requires ArmedProperly(s) && EndsProperly(s) && !s.done
    requires s.guided ==> InTime(Clip(digest, startedAt, s.armedAt))
    ensures ArmedProperly(Kept(s, digest, startedAt)) && EndsProperly(Kept(s, digest, startedAt))
  {
  }

  lemma StoredKeepsInv(s: Capture, o: Offer, n: Notice)
    requires Inv(s) && !s.done && JudgeClip(s, o).Stored?
    requires s.guided ==> s.hasCallback && InTime(Clip(o.audio.digest, o.startedAt, s.armedAt))
    ensures Inv(Settle(s, o, n))
    ensures SameClips(Kept(s, o.audio.digest, o.startedAt), Settle(s, o, n))
  {
    var t := Kept(s, o.audio.digest, o.startedAt);
    KeptIsConsistent(s, o.audio.digest, o.startedAt);
    KeptIsProper(s, o.audio.digest, o.startedAt);
    if s.guided && t.savedCount == t.exactCount {
      FinishKeepsInv(t, n);
    } else if s.guided {
      RearmKeepsInv(t, n);
    }
  }

  lemma SettleKeepsInv(s: Capture, o: Offer, n: Notice)
    requires Inv(s) && !s.done
    requires s.guided ==> s.hasCallback && InTime(Clip(0, o.startedAt, s.armedAt))
    ensures Inv(Settle(s, o, n))
    ensures JudgeClip(s, o).Rejected? ==> SameClips(Counted(s), Settle(s, o, n))
    ensures JudgeClip(s, o).Unwritable? ==>
              && SameClips(Left(s, o, JudgeClip(s, o).left), Settle(s, o, n))
              && Settle(s, o, n).done && Settle(s, o, n).error == Some(JudgeClip(s, o).failure)
    ensures JudgeClip(s, o).Stored? ==> SameClips(Kept(s, o.audio.digest, o.startedAt), Settle(s, o, n))
  {
    match JudgeClip(s, o)
    case Unwritable(code, left) => LeftKeepsInv(s, o, left, code);
    case Stored(_) => StoredKeepsInv(s, o, n);
    case _ =>
      if s.guided {
        RearmKeepsInv(Counted(s), if Unreadable(o) then Plain(n) else n);
      }
  }

  // An offer is stored, counted as rejected, or the reason that the capture stopped, and nothing else happens to
  // the clips.
  ghost predicate AccountedFor(s: Capture, o: Offer, t: Capture) {
    match Judge(s, o)
    case Ignored => t == s
    case Unarmed => SameClips(Counted(s), t)
    case TooEarly => SameClips(Counted(s), t)
    case Rejected => SameClips(Counted(s), t)
    case Stops(code) => SameClips(s, t) && t.error == Some(code) && t.done
    case Unwritable(code, left) => SameClips(Left(s, o, left), t) && t.error == Some(code) && t.done
    case Stored(digest) => digest !in s.hashes && SameClips(Kept(s, digest, o.startedAt), t)
  }

  lemma EveryOfferIsAccountedFor(s: Capture, o: Offer, n: Notice)
    requires Inv(s)
    ensures Inv(Accept(s, o, n)) && AccountedFor(s, o, Accept(s, o, n))
  {
    match Judge(s, o)
    case Ignored =>
    case Unarmed =>
    case TooEarly =>
    case Stops(code) => FailKeepsInv(s, code);
    case _ => SettleKeepsInv(Disarmed(s), o, n);
  }

  lemma StepKeepsInv(s: Capture, e: Event)
    requires Inv(s)
    ensures Inv(Step(s, e))
  {
    match e
    case Aside(x) => OtherKeepsInv(s, x);
    case Offered(o, n) => EveryOfferIsAccountedFor(s, o, n);
  }

  lemma StepKeepsKind(s: Capture, e: Event)
    requires Inv(s)
    ensures Step(s, e).guided == s.guided && Step(s, e).exactCount == s.exactCount
  {
    if e.Offered? {
      EveryOfferIsAccountedFor(s, e.offer, e.notice);
    }
  }

  lemma {:induction false} RunKeepsInv(guided: bool, exactCount: nat, events: seq<Event>)
    ensures var s := Run(guided, exactCount, events);
            Inv(s) && s.guided == guided && s.exactCount == exactCount
    decreases |events|
  {
    if events != [] {
      RunKeepsInv(guided, exactCount, events[..|events| - 1]);
      StepKeepsInv(Run(guided, exactCount, events[..|events| - 1]), events[|events| - 1]);
      StepKeepsKind(Run(guided, exactCount, events[..|events| - 1]), events[|events| - 1]);
    }
  }

  // Once a capture is done, neither its clips nor its counters nor its outcome change any more; only a prompt
  // still under way can arm it, to no effect.
  lemma DoneIsFinal(s: Capture, e: Event)
    requires Inv(s) && s.done
    ensures var t := Step(s, e); t.done && t.error == s.error && SameClips(s, t)
  {
    if e.Aside? {
      OtherKeepsInv(s, e.other);
    }
  }

  // ---------- the file that is left over ----------

  predicate Leaves(s: Capture, e: Event) {
    e.Offered? && Judge(s, e.offer).Unwritable? && Judge(s, e.offer).left
  }

  ghost predicate LeavesAt(guided: bool, exactCount: nat, events: seq<Event>, i: nat) {
    i < |events| && Leaves(Run(guided, exactCount, events[..i]), events[i])
  }

  ghost predicate SomeLeaves(guided: bool, exactCount: nat, events: seq<Event>) {
    exists i: nat :: LeavesAt(guided, exactCount, events, i)
  }

  lemma StrayStep(s: Capture, e: Event)
    requires Inv(s)
    ensures Step(s, e).stray.Some? <==> s.stray.Some? || Leaves(s, e)
  {
    if e.Aside? {
      OtherKeepsInv(s, e.other);
    } else {
      EveryOfferIsAccountedFor(s, e.offer, e.notice);
    }
  }

  // The files on disk are the counted clips, and one more exactly when a write failed after its rename; then the
  // capture is done with that failure.
  lemma {:induction false} StrayExactly(guided: bool, exactCount: nat, events: seq<Event>)
    ensures var s := Run(guided, exactCount, events);
            && |OnDisk(s)| == s.savedCount + (if SomeLeaves(guided, exactCount, events) then 1 else 0)
            && s.files == OnDisk(s)[..s.savedCount]
            && (SomeLeaves(guided, exactCount, events) ==> s.done && s.error == Some(WriteFailed))
    decreases |events|
  {
    RunKeepsInv(guided, exactCount, events);
    if events != [] {
      var n := |events| - 1;
      var init := events[..n];
      StrayExactly(guided, exactCount, init);
      RunKeepsInv(guided, exactCount, init);
      StrayStep(Run(guided, exactCount, init), events[n]);
      SomeLeavesStep(guided, exactCount, events);
    }
  }

  lemma SomeLeavesStep(guided: bool, exactCount: nat, events: seq<Event>)
    requires events != []
    ensures var init, e := events[..|events| - 1], events[|events| - 1];
            SomeLeaves(guided, exactCount, events) <==>
            SomeLeaves(guided, exactCount, init) || Leaves(Run(guided, exactCount, init), e)
  {
    var n := |events| - 1;
    var init := events[..n];
    forall i: nat | i < n
      ensures LeavesAt(guided, exactCount, init, i) <==> LeavesAt(guided, exactCount, events, i)
    {
      assert init[..i] == events[..i];
    }
    assert LeavesAt(guided, exactCount, events, n) <==> Leaves(Run(guided, exactCount, init), events[n]);
  }

  // ---------- what a message's time brings ----------

  ghost predicate ArmsMeanwhile(s: Capture, xs: seq<Other>) {
    exists i: nat :: ArmsAt(s, xs, i)
  }

  ghost predicate ArmsAt(s: Capture, xs: seq<Other>, i: nat) {
    i < |xs| && Arms(Others(s, xs[..i]), xs[i])
  }

  ghost predicate FailsMeanwhile(xs: seq<Other>) {
    exists i :: 0 <= i < |xs| && xs[i].Failed?
  }

  lemma ArmsOneMore(s: Capture, xs: seq<Other>)
    requires xs != []
    ensures var init := xs[..|xs| - 1];
            ArmsMeanwhile(s, xs) <==> ArmsMeanwhile(s, init) || Arms(Others(s, init), xs[|xs| - 1])
  {
    var n := |xs| - 1;
    forall i: nat | i < n
      ensures ArmsAt(s, xs[..n], i) <==> ArmsAt(s, xs, i)
    {
      assert xs[..n][..i] == xs[..i];
    }
    assert ArmsAt(s, xs, n) <==> Arms(Others(s, xs[..n]), xs[n]);
  }

  lemma {:induction false} OthersArm(s: Capture, xs: seq<Other>)
    ensures Others(s, xs).armed <==> s.armed || ArmsMeanwhile(s, xs)
    decreases |xs|
  {
    if xs != [] {
      OthersArm(s, xs[..|xs| - 1]);
      ArmsOneMore(s, xs);
    }
  }

  lemma {:induction false} OthersEnd(s: Capture, xs: seq<Other>)
    requires s.error.Some? ==> s.done
    ensures var t := Others(s, xs); (t.error.Some? ==> t.done) && (t.done <==> s.done || FailsMeanwhile(xs))
    decreases |xs|
  {
    if xs != [] {
      var init := xs[..|xs| - 1];
      OthersEnd(s, init);
      assert forall i :: 0 <= i < |init| ==> init[i] == xs[i];
    }
  }

  lemma OthersArmOrEnd(s: Capture, xs: seq<Other>)
    requires s.error.Some? ==> s.done
    ensures var t := Others(s, xs);
            && (t.armed <==> s.armed || ArmsMeanwhile(s, xs))
            && (t.done <==> s.done || FailsMeanwhile(xs))
            && (t.error.Some? ==> t.done)
  {
    OthersArm(s, xs);
    OthersEnd(s, xs);
  }

  // ---------- never too many clips ----------

  // All clips are in.
  predicate Full(s: Capture) {
    s.savedCount >= s.exactCount
  }

  // Another offer is within the target.
  ghost predicate WithinTarget(s: Capture) {
    forall o, n :: Accept(s, o, n).savedCount <= s.exactCount
  }

  // A full capture that takes another clip.
  predicate Overarmed(s: Capture) {
    Full(s) && s.armed && !s.done
  }

  // The event arms a full capture and leaves it so: an arming's prompt went out then, either on its own or during
  // the message about the last clip, which was cancelled, with nothing failing meanwhile.
  ghost predicate ArmsFull(s: Capture, e: Event) {
    match e
    case Aside(x) => Arms(s, x) && Full(s) && !s.done
    case Offered(o, n) =>
      && s.guided && Judge(s, o).Stored? && s.savedCount + 1 == s.exactCount
      && n.answer.CallCancelled?
      && ArmsMeanwhile(Kept(Disarmed(s), o.audio.digest, o.startedAt), n.meanwhile) && !FailsMeanwhile(n.meanwhile)
  }

  lemma {:induction false} UnusedDigest(used: set<Digest>) returns (d: Digest)
    ensures d !in used && forall x :: x in used ==> x < d
    decreases |used|
  {
    if used == {} {
      d := 0;
    } else {
      var x :| x in used;
      d := UnusedDigest(used - {x});
      assert used == (used - {x}) + {x};
      d := if x >= d then x + 1 else d;
    }
  }

  function GoodOffer(digest: Digest, startedAt: Option<real>): Offer {
    Offer(false, true, true, startedAt, false, false, Usable(digest, true, false), None)
  }

  lemma GoodOfferIsStored(s: Capture, digest: Digest)
    requires Inv(s) && s.armed && !s.done && digest !in s.hashes
    ensures Judge(s, GoodOffer(digest, s.armedAt)) == Stored(digest)
  {
  }

  lemma WithinTargetExactly(s: Capture)
    requires Inv(s)
    ensures WithinTarget(s) <==> s.savedCount <= s.exactCount && !Overarmed(s)
  {
    if s.savedCount <= s.exactCount && !Overarmed(s) {
      forall o, n
        ensures Accept(s, o, n).savedCount <= s.exactCount
      {
        EveryOfferIsAccountedFor(s, o, n);
      }
    } else {
      var digest := UnusedDigest(s.hashes);
      var o, n := GoodOffer(digest, s.armedAt), Notice(Sent, 0.0, []);
      EveryOfferIsAccountedFor(s, o, n);
      if Overarmed(s) {
        GoodOfferIsStored(s, digest);
      }
      assert Accept(s, o, n).savedCount > s.exactCount;
    }
  }

  lemma ArmsFullOverarms(s: Capture, e: Event)
    requires Inv(s) && ArmsFull(s, e)
    ensures Overarmed(Step(s, e))
  {
    if e.Offered? {
      var t := Kept(Disarmed(s), e.offer.audio.digest, e.offer.startedAt);
      OthersArmOrEnd(t, e.notice.meanwhile);
      EveryOfferIsAccountedFor(s, e.offer, e.notice);
    }
  }

  // Only such an event makes a capture within its target take more.
  lemma OnlyArmsFullOverarms(s: Capture, e: Event)
    requires Inv(s) && s.savedCount <= s.exactCount && !Overarmed(s) && s.exactCount >= 1 && !ArmsFull(s, e)
    ensures Step(s, e).savedCount <= s.exactCount && !Overarmed(Step(s, e))
  {
    if e.Offered? {
      EveryOfferIsAccountedFor(s, e.offer, e.notice);
      if Judge(s, e.offer).Stored? && s.savedCount + 1 == s.exactCount {
        LastClipEnds(s, e.offer, e.notice);
      }
    }
  }

  lemma LastClipEnds(s: Capture, o: Offer, n: Notice)
    requires Inv(s) && Judge(s, o).Stored? && s.savedCount + 1 == s.exactCount && !ArmsFull(s, Offered(o, n))
    ensures !Overarmed(Accept(s, o, n))
  {
    var t := Kept(Disarmed(s), o.audio.digest, o.startedAt);
    OthersArmOrEnd(t, n.meanwhile);
  }

  // From a capture within its target, an event keeps the next offer within it exactly unless it arms a full capture.
  lemma ArmingIsSafeExactly(s: Capture, e: Event)
    requires Inv(s) && WithinTarget(s) && s.exactCount >= 1
    ensures WithinTarget(Step(s, e)) <==> !ArmsFull(s, e)
  {
    WithinTargetExactly(s);
    StepKeepsInv(s, e);
    StepKeepsKind(s, e);
    WithinTargetExactly(Step(s, e));
    if ArmsFull(s, e) {
      ArmsFullOverarms(s, e);
    } else {
      OnlyArmsFullOverarms(s, e);
    }
  }

  ghost predicate NeverArmsFull(guided: bool, exactCount: nat, events: seq<Event>) {
    forall i: nat :: !ArmsFullAt(guided, exactCount, events, i)
  }

  ghost predicate ArmsFullAt(guided: bool, exactCount: nat, events: seq<Event>, i: nat) {
    i < |events| && ArmsFull(Run(guided, exactCount, events[..i]), events[i])
  }

  lemma NeverArmsFullBefore(guided: bool, exactCount: nat, events: seq<Event>, k: nat)
    requires k <= |events| && NeverArmsFull(guided, exactCount, events)
    ensures NeverArmsFull(guided, exactCount, events[..k])
  {
    forall i: nat
      ensures !ArmsFullAt(guided, exactCount, events[..k], i)
    {
      assert !ArmsFullAt(guided, exactCount, events, i);
      assert i < k ==> events[..k][..i] == events[..i];
    }
  }

  ghost predicate AlwaysWithinTarget(guided: bool, exactCount: nat, events: seq<Event>) {
    forall k :: 0 <= k <= |events| ==> WithinTarget(Run(guided, exactCount, events[..k]))
  }

  lemma {:induction false} StaysWithin(guided: bool, exactCount: nat, events: seq<Event>)
    requires exactCount >= 1 && NeverArmsFull(guided, exactCount, events)
    ensures var s := Run(guided, exactCount, events); s.savedCount <= s.exactCount && !Overarmed(s)
    decreases |events|
  {
    if events != [] {
      var n := |events| - 1;
      var init := events[..n];
      NeverArmsFullBefore(guided, exactCount, events, n);
      assert !ArmsFullAt(guided, exactCount, events, n);
      StaysWithin(guided, exactCount, init);
      RunKeepsInv(guided, exactCount, init);
      StepKeepsKind(Run(guided, exactCount, init), events[n]);
      OnlyArmsFullOverarms(Run(guided, exactCount, init), events[n]);
    }
  }

  // At every point of a run the next offer is within the target if, and only if, no event arms a full capture.
  lemma NeverTooManyClips(guided: bool, exactCount: nat, events: seq<Event>)
    requires exactCount >= 1
    ensures AlwaysWithinTarget(guided, exactCount, events) <==> NeverArmsFull(guided, exactCount, events)
  {
    if NeverArmsFull(guided, exactCount, events) {
      forall k | 0 <= k <= |events|
        ensures WithinTarget(Run(guided, exactCount, events[..k]))
      {
        NeverArmsFullBefore(guided, exactCount, events, k);
        StaysWithin(guided, exactCount, events[..k]);
        RunKeepsInv(guided, exactCount, events[..k]);
        WithinTargetExactly(Run(guided, exactCount, events[..k]));
      }
    } else {
      var i: nat :| ArmsFullAt(guided, exactCount, events, i);
      RunKeepsInv(guided, exactCount, events[..i]);
      RunKeepsInv(guided, exactCount, events[..i + 1]);
      assert events[..i + 1][..i] == events[..i];
      ArmsFullOverarms(Run(guided, exactCount, events[..i]), events[i]);
      WithinTargetExactly(Run(guided, exactCount, events[..i + 1]));
    }
  }

  // ---------- runs that go wrong ----------

  const NOW: real := 0.0

  lemma RunSnoc(guided: bool, exactCount: nat, events: seq<Event>, e: Event)
    ensures Run(guided, exactCount, events + [e]) == Step(Run(guided, exactCount, events), e)
  {
    assert (events + [e])[..|events|] == events;
  }

  // Armed, with the clips 0 up to `k` in.
  ghost predicate Collected(s: Capture, exactCount: nat, k: nat) {
    && s.guided && s.exactCount == exactCount && s.savedCount == k && !s.done && s.error == None
    && s.armed && s.armedAt == Some(NOW) && s.prompts == 0
    && forall d :: d in s.hashes ==> d < k
  }

  lemma ArmedRun(exactCount: nat, events: seq<Event>) returns (more: seq<Event>)
    requires var s := Run(true, exactCount, events); MayArm(s) && s.prompts == 0
    ensures var s := Run(true, exactCount, events);
            Run(true, exactCount, more) == s.(hasCallback := true, armedAt := Some(NOW), armed := true)
  {
    RunSnoc(true, exactCount, events, Aside(PromptStarts));
    RunSnoc(true, exactCount, events + [Aside(PromptStarts)], Aside(PromptEnds(Sent, NOW)));
    more := events + [Aside(PromptStarts)] + [Aside(PromptEnds(Sent, NOW))];
  }

  lemma {:induction false} CollectingRun(exactCount: nat, k: nat) returns (events: seq<Event>)
    requires k < exactCount
    ensures Collected(Run(true, exactCount, events), exactCount, k)
    decreases k
  {
    if k == 0 {
      events := ArmedRun(exactCount, []);
    } else {
      events := CollectingRun(exactCount, k - 1);
      var e := Offered(GoodOffer(k - 1, Some(NOW)), Notice(Sent, NOW, []));
      RunSnoc(true, exactCount, events, e);
      events := events + [e];
    }
  }

  // A write that fails after its rename: one file more on disk than was counted.
  lemma SomeRunLeavesAFile(exactCount: nat, k: nat) returns (events: seq<Event>)
    requires k < exactCount
    ensures var s := Run(true, exactCount, events); s.savedCount == k && |OnDisk(s)| == k + 1 && s.done
  {
    events := CollectingRun(exactCount, k);
    RunKeepsInv(true, exactCount, events);
    var e := Offered(GoodOffer(k, Some(NOW)).(problem := Some(AfterRename)), Notice(Sent, NOW, []));
    RunSnoc(true, exactCount, events, e);
    events := events + [e];
  }

  // The message about the last clip is cancelled: everything is in, but the capture is neither armed nor done.
  lemma SomeRunIsStuck(exactCount: nat) returns (events: seq<Event>)
    requires exactCount >= 1
    ensures var s := Run(true, exactCount, events);
            && s.savedCount == exactCount && !s.armed && !s.done && s.error == None && s.prompts == 0
            && s.guided && s.exactCount == exactCount && forall d :: d in s.hashes ==> d < exactCount
  {
    events := CollectingRun(exactCount, exactCount - 1);
    var e := Offered(GoodOffer(exactCount - 1, Some(NOW)), Notice(CallCancelled, NOW, []));
    RunSnoc(true, exactCount, events, e);
    events := events + [e];
  }

  // Armed again after that, it stores one clip too many.
  lemma SomeRunExceeds(exactCount: nat) returns (events: seq<Event>)
    requires exactCount >= 1
    ensures Run(true, exactCount, events).savedCount == exactCount + 1
  {
    events := SomeRunIsStuck(exactCount);
    events := ArmedRun(exactCount, events);
    var e := Offered(GoodOffer(exactCount, Some(NOW)), Notice(Sent, NOW, []));
    RunSnoc(true, exactCount, events, e);
    events := events + [e];
  }

  // ---------- never stuck ----------

  // Whether the call has a message to send.
  predicate Tells(s: Capture, o: Offer) {
    s.guided && (Judge(s, o).Rejected? || Judge(s, o).Stored?)
  }

  // The call is cancelled during its message, and until then nothing fails and no prompt goes out.
  ghost predicate LeftDisarmed(s: Capture, o: Offer, n: Notice) {
    && Tells(s, o) && n.answer.CallCancelled?
    && !FailsMeanwhile(n.meanwhile) && !ArmsMeanwhile(ToldAbout(s, o), n.meanwhile)
  }

  // The capture as the message goes out.
  function ToldAbout(s: Capture, o: Offer): Capture {
    if Judge(s, o).Stored? then Kept(Disarmed(s), o.audio.digest, o.startedAt) else Counted(Disarmed(s))
  }

  // A call leaves a capture that was armed or done armed or done again, exactly unless it is left disarmed so.
  lemma ArmedOrDoneAfterwards(s: Capture, o: Offer, n: Notice)
    requires Inv(s) && (s.armed || s.done)
    ensures var t := Accept(s, o, n); t.armed || t.done <==> !LeftDisarmed(s, o, n)
  {
    if Tells(s, o) {
      TellsOnce(s, o, n);
      TellingArmsOrEnds(ToldAbout(s, o), n);
      TellingArmsOrEnds(ToldAbout(s, o), Plain(n));
    }
  }

  lemma TellsOnce(s: Capture, o: Offer, n: Notice)
    requires Inv(s) && Tells(s, o)
    ensures var told, t := ToldAbout(s, o), Accept(s, o, n);
            && !told.armed && !told.done && told.error == None
            && (t == Finish(told, n) || t == Rearm(told, n) || t == Rearm(told, Plain(n)))
  {
  }

  lemma TellingArmsOrEnds(s: Capture, n: Notice)
    requires !s.armed && !s.done && s.error == None
    ensures var left := n.answer.CallCancelled? && !FailsMeanwhile(n.meanwhile) && !ArmsMeanwhile(s, n.meanwhile);
            && (Finish(s, n).armed || Finish(s, n).done <==> !left)
            && (Rearm(s, n).armed || Rearm(s, n).done <==> !left)
  {
    OthersArmOrEnd(s, n.meanwhile);
  }

  ghost predicate NoCallCancelled(events: seq<Event>) {
    forall i :: 0 <= i < |events| && events[i].Offered? ==> !events[i].notice.answer.CallCancelled?
  }

  // Once armed, a run whose calls all finish is always armed or done: the next clip is taken or none is needed.
  lemma NeverStuck(guided: bool, exactCount: nat, events: seq<Event>, k: nat)
    requires k <= |events| && Run(guided, exactCount, events[..k]).armed && NoCallCancelled(events)
    ensures var s := Run(guided, exactCount, events); s.armed || s.done
  {
    StuckFree(guided, exactCount, events, k, |events|);
    assert events[..|events|] == events;
  }

  lemma {:induction false} StuckFree(guided: bool, exactCount: nat, events: seq<Event>, k: nat, n: nat)
    requires k <= n <= |events| && Run(guided, exactCount, events[..k]).armed && NoCallCancelled(events)
    ensures var s := Run(guided, exactCount, events[..n]); s.armed || s.done
    decreases n
  {
    if k < n {
      StuckFree(guided, exactCount, events, k, n - 1);
      var init := events[..n - 1];
      assert events[..n][..n - 1] == init;
      RunKeepsInv(guided, exactCount, init);
      if events[n - 1].Offered? {
        ArmedOrDoneAfterwards(Run(guided, exactCount, init), events[n - 1].offer, events[n - 1].notice);
      } else {
        OtherKeepsInv(Run(guided, exactCount, init), events[n - 1].other);
      }
    }
  }

  // ---------- the capture itself ----------

  class CorpusCapture {
    const guided: bool
    const exactCount: nat
    var armed: bool
    var armedAt: Option<real>
    var hasCallback: bool
    // how many armings are waiting for their prompt to go out
    var prompts: nat
    var savedCount: nat
    var rejectedCount: nat
    var hashes: set<Digest>
    var files: seq<Clip>
    // a clip file on disk that was never counted
    var stray: Option<Clip>
    var done: bool
    var errorCode: Option<Code>

    constructor (guided: bool, exactCount: nat)
      ensures Value() == Started(guided, exactCount)
    {
      this.guided, this.exactCount := guided, exactCount;
      armed, armedAt, hasCallback, prompts := !guided, None, false, 0;
      savedCount, rejectedCount, hashes, files, stray := 0, 0, {}, [], None;
      done, errorCode := false, None;
    }

    function Value(): Capture
      reads this
    {
      Capture(guided, exactCount, armed, armedAt, hasCallback, prompts, savedCount, rejectedCount, hashes, files, stray,
              done, errorCode)
    }

    method FailNow(code: Code)
      modifies this
      ensures Value() == Fail(old(Value()), code)
      ensures old(done || errorCode.Some?) ==> done == old(done) && errorCode == old(errorCode)
      ensures old(!done && errorCode == None) ==> done && errorCode == Some(code)
    {
      if done || errorCode.Some? {
        return;
      }
      errorCode := Some(code);
      done := true;
    }

    // The first half of an arming, up to its prompt; refused when there is nothing to arm.
    method StartArming() returns (ok: bool)
      modifies this
      ensures ok <==> guided && !old(armed) && !old(done)
      ensures Value() == old(Value()).(prompts := old(prompts) + if ok then 1 else 0)
      ensures ok <==> MayArm(old(Value()))
      ensures Value() == OtherStep(old(Value()), PromptStarts)
    {
      if !guided || armed || done {
        return false;
      }
      prompts := prompts + 1;
      return true;
    }

    // The second half, once the prompt is answered.
    method FinishArming(outcome: Answer, at: real)
      requires prompts > 0
      modifies this
      ensures prompts == old(prompts) - 1 && done == old(done) && errorCode == old(errorCode)
      ensures if outcome.Sent? then armed && armedAt == Some(at) && hasCallback
              else armed == old(armed) && armedAt == old(armedAt) && hasCallback == old(hasCallback)
      ensures Value() == OtherStep(old(Value()), PromptEnds(outcome, at))
    {
      prompts := prompts - 1;
      if outcome.Sent? {
        hasCallback := true;
        armedAt := Some(at);
        armed := true;
      }
    }

    method TakeAside(x: Other)
      modifies this
      ensures Value() == OtherStep(old(Value()), x)
    {
      match x {
        case Failed(code) => FailNow(code);
        case PromptStarts => var ok := StartArming();
        case PromptEnds(outcome, at) =>
          if prompts > 0 {
            FinishArming(outcome, at);
          }
      }
    }

    // Sends one message; anything but another offer may happen while it is under way.
    method Notify(n: Notice) returns (answer: Answer)
      modifies this
      ensures Value() == Others(old(Value()), n.meanwhile) && answer == n.answer
    {
      var i := 0;
      while i < |n.meanwhile|
        invariant 0 <= i <= |n.meanwhile|
        invariant Value() == Others(old(Value()), n.meanwhile[..i])
      {
        assert n.meanwhile[..i + 1][..i] == n.meanwhile[..i];
        TakeAside(n.meanwhile[i]);
        i := i + 1;
      }
      assert n.meanwhile[..i] == n.meanwhile;
      return n.answer;
    }

    method NotifyAndRearm(n: Notice) returns (answer: Answer)
      modifies this
      ensures answer == n.answer
      ensures Value() == if n.answer.Sent? then Rearm(old(Value()), n) else Others(old(Value()), n.meanwhile)
    {
      answer := Notify(n);
      if answer.Sent? {
        armedAt := Some(n.at);
        armed := true;
      }
    }

    // Stores a clip that is not there yet; nothing when it is unusable, a failure when it cannot be written. When
    // that happens after the file has got its name, the file stays where it is, uncounted.
    method Store(o: Offer, digest: Digest, storable: bool) returns (r: Result<bool, Code>)
      requires o.audio.Usable? && o.audio.digest == digest
      modifies this
      ensures !storable || digest in old(hashes) ==>
                r == Success(false) && Value() == Counted(old(Value()))
      ensures storable && digest !in old(hashes) && o.problem.Some? ==>
                && r == Failure(ProblemCode(old(Value()), o.problem.value))
                && Value() == Left(old(Value()), o, o.problem.value.AfterRename?)
      ensures storable && digest !in old(hashes) && o.problem == None ==>
                r == Success(true) && Value() == Kept(old(Value()), digest, o.startedAt)
    {
      if !storable || digest in hashes {
        rejectedCount := rejectedCount + 1;
        return Success(false);
      }
      if o.problem.Some? {
        match o.problem.value {
          case NameTaken => return Failure(OutputNotEmpty);
          case BeforeRename => return Failure(WriteFailed);
          case AfterRename =>
            stray := Some(Clip(digest, o.startedAt, armedAt));
            return Failure(WriteFailed);
          case Unforeseen => return Failure(if guided then StatusSendFailed else CaptureFailed);
        }
      }
      files := files + [Clip(digest, o.startedAt, armedAt)];
      hashes := hashes + {digest};
      savedCount := savedCount + 1;
      if savedCount == exactCount && !guided {
        done := true;
      }
      return Success(true);
    }

    // Rejects a clip: count it, and in guided mode tell the speaker to try again.
    method RejectAndRearm(n: Notice)
      modifies this
      ensures Value() == if guided then Rearm(Counted(old(Value())), n) else Counted(old(Value()))
    {
      rejectedCount := rejectedCount + 1;
      if guided {
        var answer := NotifyAndRearm(n);
        if answer.SendFailed? {
          FailNow(if answer.own.Some? then answer.own.value else StatusSendFailed);
        }
      }
    }

    method AcceptCompletedPcm(o: Offer, n: Notice)
      modifies this
      ensures Value() == Accept(old(Value()), o, n)
    {
      if done {
        return;
      }
      if guided && !armed {
        rejectedCount := rejectedCount + 1;
        return;
      }
      if o.checksBreak {
        FailNow(if guided then StatusSendFailed else CaptureFailed);
        return;
      }
      if !o.ownerPresent {
        FailNow(ParticipantGuard);
        return;
      }
      if !o.bindingCurrent {
        FailNow(ListenerBinding);
        return;
      }
      if guided {
        if o.startedAt == None || armedAt == None {
          FailNow(TimingInvalid);
          return;
        }
        if o.startedAt.value < armedAt.value {
          rejectedCount := rejectedCount + 1;
          return;
        }
        armed := false;
      }
      AcceptTimely(o, n);
    }

    // The part of the call that looks at the clip itself, disarmed in guided mode.
    method AcceptTimely(o: Offer, n: Notice)
      requires !done
      modifies this
      ensures Value() == Settle(old(Value()), o, n)
    {
      if o.clipBreaks {
        FailNow(if guided then StatusSendFailed else CaptureFailed);
        return;
      }
      if o.transportCorrupted {
        RejectAndRearm(n);
        return;
      }
      if o.audio.Unusable? {
        RejectAndRearm(Plain(n));
        return;
      }
      if guided && (o.audio.rejectedShape || o.audio.digest in hashes) {
        RejectAndRearm(n);
        return;
      }
      StoreAndTell(o, n);
    }

    method StoreAndTell(o: Offer, n: Notice)
      requires !done && !o.clipBreaks && !o.transportCorrupted && o.audio.Usable?
      requires guided ==> !o.audio.rejectedShape && o.audio.digest !in hashes
      modifies this
      ensures Value() == Settle(old(Value()), o, n)
    {
      var stored := Store(o, o.audio.digest, o.audio.storable);
      if stored.Failure? {
        FailNow(stored.error);
        return;
      }
      if guided {
        AnswerStored(stored.value, n);
      }
    }

    // Tells the speaker what became of a clip: the last one ends the capture, any other arms it again.
    method AnswerStored(stored: bool, n: Notice)
      modifies this
      ensures Value() == if stored && old(savedCount) == exactCount then Finish(old(Value()), n)
                         else Rearm(old(Value()), n)
    {
      var answer: Answer;
      if stored && savedCount == exactCount {
        answer := Notify(n);
        if answer.Sent? {
          done := true;
        }
      } else {
        answer := NotifyAndRearm(n);
      }
      if answer.SendFailed? {
        FailNow(if answer.own.Some? then answer.own.value else StatusSendFailed);
      }
    }

    // A whole arming during which no offer is taken.
    method ArmGuidedCapture(n: Notice) returns (ok: bool)
      modifies this
      ensures ok <==> guided && !old(armed) && !old(done) && n.answer.Sent?
      ensures Value() == Arm(old(Value()), n)
    {
      ok := StartArming();
      if !ok {
        return;
      }
      var answer := Notify(n);
      if prompts > 0 {
        FinishArming(answer, n.at);
      }
      ok := answer.Sent?;
    }
  }
}
