// What one offered clip does to a capture, told from the offer and the capture alone: which of the checks let it in,
// what is stored or counted, which failure ends the capture, and what the answer to the message decides.
module CaptureOutcomes {
  import opened Wrappers
  import opened GuidedCapture

  // The capture takes offers, and the checks made before the clip itself is looked at raise nothing.
  predicate TakesOffers(s: Capture) {
    !s.done && (s.guided ==> s.armed)
  }

  predicate SourceIsRight(o: Offer) {
    !o.checksBreak && o.ownerPresent && o.bindingCurrent
  }

  predicate TimesKnown(s: Capture, o: Offer) {
    s.guided ==> o.startedAt.Some? && s.armedAt.Some?
  }

  predicate BeganAfterArming(s: Capture, o: Offer) {
    s.guided ==> o.startedAt.Some? && s.armedAt.Some? && s.armedAt.value <= o.startedAt.value
  }

  predicate LooksAtClip(s: Capture, o: Offer) {
    TakesOffers(s) && SourceIsRight(o) && BeganAfterArming(s, o) && !o.clipBreaks
  }

  // Whole, usable, of an allowed shape in guided mode, and not there yet.
  predicate GoodClip(s: Capture, o: Offer) {
    && !o.transportCorrupted && o.audio.Usable? && o.audio.storable
    && (s.guided ==> !o.audio.rejectedShape) && o.audio.digest !in s.hashes
  }

  predicate IsStored(s: Capture, o: Offer) {
    LooksAtClip(s, o) && GoodClip(s, o) && o.problem == None
  }

  // Offered while disarmed, begun before the arming, or not a good clip.
  predicate IsRejected(s: Capture, o: Offer) {
    || (!s.done && s.guided && !s.armed)
    || (TakesOffers(s) && SourceIsRight(o) && TimesKnown(s, o) && !BeganAfterArming(s, o))
    || (LooksAtClip(s, o) && !GoodClip(s, o))
  }

  lemma JudgedExactly(s: Capture, o: Offer)
    ensures Judge(s, o).Stored? <==> IsStored(s, o)
    ensures Judge(s, o).Unarmed? || Judge(s, o).TooEarly? || Judge(s, o).Rejected? <==> IsRejected(s, o)
    ensures Judge(s, o).Rejected? || Judge(s, o).Stored? <==>
            LooksAtClip(s, o) && (GoodClip(s, o) ==> o.problem == None)
  {
  }

  // A clip is added, with its digest, its start and the arming in force, exactly for an offer that passes everything;
  // the rejections grow by one exactly for one that is rejected; and a file is left over exactly when writing a good
  // clip failed after the file got its name.
  lemma StoredExactly(s: Capture, o: Offer, n: Notice)
    requires Inv(s)
    ensures var t := Accept(s, o, n);
            && (IsStored(s, o) ==>
                  && t.files == s.files + [Clip(o.audio.digest, o.startedAt, s.armedAt)]
                  && t.hashes == s.hashes + {o.audio.digest} && t.savedCount == s.savedCount + 1)
            && (!IsStored(s, o) ==> t.files == s.files && t.hashes == s.hashes && t.savedCount == s.savedCount)
            && t.rejectedCount == s.rejectedCount + (if IsRejected(s, o) then 1 else 0)
            && t.stray == if LooksAtClip(s, o) && GoodClip(s, o) && o.problem == Some(AfterRename)
                          then Some(Clip(o.audio.digest, o.startedAt, s.armedAt)) else s.stray
  {
    JudgedExactly(s, o);
    EveryOfferIsAccountedFor(s, o, n);
  }

  // The failure that ends the capture, if the offer itself does.
  function Ends(s: Capture, o: Offer): Option<Code> {
    var unforeseen := if s.guided then StatusSendFailed else CaptureFailed;
    if o.checksBreak then Some(unforeseen)
    else if !o.ownerPresent then Some(ParticipantGuard)
    else if !o.bindingCurrent then Some(ListenerBinding)
    else if !TimesKnown(s, o) then Some(TimingInvalid)
    else if !BeganAfterArming(s, o) then None
    else if o.clipBreaks then Some(unforeseen)
    else if !GoodClip(s, o) || o.problem == None then None
    else if o.problem == Some(NameTaken) then Some(OutputNotEmpty)
    else if o.problem == Some(Unforeseen) then Some(unforeseen)
    else Some(WriteFailed)
  }

  // The capture is over with the failure of the first check that fails; one that was over already stays as it is.
  lemma EndsExactly(s: Capture, o: Offer, n: Notice)
    requires Inv(s)
    ensures s.done ==> Accept(s, o, n) == s
    ensures TakesOffers(s) && Ends(s, o).Some? ==> Accept(s, o, n).done && Accept(s, o, n).error == Ends(s, o)
    ensures !s.done && !TakesOffers(s) ==> !Accept(s, o, n).done
    ensures TakesOffers(s) && Ends(s, o) == None ==> IsStored(s, o) || IsRejected(s, o)
  {
    EveryOfferIsAccountedFor(s, o, n);
  }

  // ---------- the message ----------

  // The first failure among what happens while the message is under way.
  ghost predicate FirstFailure(xs: seq<Other>, i: nat) {
    i < |xs| && xs[i].Failed? && forall j :: 0 <= j < i ==> !xs[j].Failed?
  }

  lemma {:induction false} FirstFailureEnds(s: Capture, xs: seq<Other>, i: nat)
    requires !s.done && s.error == None && FirstFailure(xs, i)
    ensures Others(s, xs).done && Others(s, xs).error == Some(xs[i].code)
    decreases |xs|
  {
    var last := |xs| - 1;
    if i < last {
      assert FirstFailure(xs[..last], i);
      FirstFailureEnds(s, xs[..last], i);
    } else {
      NoFailureMeanwhile(s, xs[..last]);
    }
  }

  lemma NoFailureMeanwhile(s: Capture, xs: seq<Other>)
    requires !s.done && s.error == None && !FailsMeanwhile(xs)
    ensures !Others(s, xs).done && Others(s, xs).error == None
  {
    OthersEnd(s, xs);
    OthersRaiseNothing(s, xs);
  }

  lemma {:induction false} OthersRaiseNothing(s: Capture, xs: seq<Other>)
    requires s.error == None && forall i :: 0 <= i < |xs| ==> !xs[i].Failed?
    ensures Others(s, xs).error == None
    decreases |xs|
  {
    if xs != [] {
      OthersRaiseNothing(s, xs[..|xs| - 1]);
    }
  }

  // The failure reported when the message cannot be sent: the one it brings, except after sound that cannot be read.
  function Unsent(o: Offer, n: Notice): Code
    requires n.answer.SendFailed?
  {
    if n.answer.own.Some? && (o.transportCorrupted || o.audio.Usable?) then n.answer.own.value else StatusSendFailed
  }

  // The clip is judged and the speaker is told.
  predicate IsTold(s: Capture, o: Offer) {
    s.guided && LooksAtClip(s, o) && (GoodClip(s, o) ==> o.problem == None)
  }

  // With nothing failing meanwhile, the answer decides: a message that went out ends the capture cleanly if the last
  // clip is in, and arms it again at that time otherwise; one that could not be sent ends it with that failure; and a
  // cancelled one does neither.
  lemma AnswerDecides(s: Capture, o: Offer, n: Notice)
    requires Inv(s) && IsTold(s, o) && !FailsMeanwhile(n.meanwhile)
    ensures var t := Accept(s, o, n);
            var last := IsStored(s, o) && s.savedCount + 1 == s.exactCount;
            match n.answer
            case Sent => t.error == None && t.done == last && (!last ==> t.armed && t.armedAt == Some(n.at))
            case SendFailed(_) => t.done && t.error == Some(Unsent(o, n))
            case CallCancelled => !t.done && t.error == None
  {
    JudgedExactly(s, o);
    var told := ToldAbout(s, o);
    NoFailureMeanwhile(told, n.meanwhile);
    OthersKeepShape(told, n.meanwhile);
  }

  lemma {:induction false} OthersKeepShape(s: Capture, xs: seq<Other>)
    ensures Others(s, xs).guided == s.guided && Others(s, xs).exactCount == s.exactCount
    decreases |xs|
  {
    if xs != [] {
      OthersKeepShape(s, xs[..|xs| - 1]);
    }
  }

  // A failure meanwhile ends the capture with the first such failure, whatever the answer.
  lemma FailureMeanwhileDecides(s: Capture, o: Offer, n: Notice, i: nat)
    requires Inv(s) && IsTold(s, o) && FirstFailure(n.meanwhile, i)
    ensures Accept(s, o, n).done && Accept(s, o, n).error == Some(n.meanwhile[i].code)
  {
    JudgedExactly(s, o);
    FirstFailureEnds(ToldAbout(s, o), n.meanwhile, i);
  }
}
