# Verified models of the Evelyn voice stack

This project models the parts of the Evelyn bot whose correctness depends on whole runs rather than on one
call: the voice receive pipeline, the transcript scoreboard's edit distance, the guard around a temporary
command publication, the streaming text and audio transducers of the speech service, the corpus capture and
the guard that borrows a host for a measurement. Code that changes state in place is a class whose methods are
proved against a specification function; the lemmas then speak about that function over all inputs and all runs.

`dafny verify dfyconfig.toml` checks everything.

| module | what it models |
|---|---|
| `Sequence16`, `PacketOrder`, `GapConcealment` | RTP sequence arithmetic, de-duplication and ordering, concealment of gaps |
| `ReorderBuffer`, `UtteranceSegmenter`, `UtteranceHistory` | the per-source reorder buffer and receive loop; cutting into utterances, and the same told from the events alone |
| `RetryQueue`, `UtteranceRetry` | the bounded retry queue of a source, and which of its utterances gets what comes out of it |
| `Bits`, `DaveFrame`, `RtpPacket` | LEB128 and the footer of end-to-end encrypted frames; RTP header, extension and padding |
| `DecoderHealth`, `DecoderHistory`, `ListenerLease`, `VoiceGateway`, `FrameReplay` | when decoders are replaced, and the same told from the events alone; listener tasks and their lease; who speaks on which source; session frames held back and replayed |
| `EditDistance` | the two-row table, its metric laws and its optimality over edit scripts |
| `CommandRegistry`, `OwnershipLedger`, `RegistryGuard`, `GuardRun` | canonical form, ownership ledger, capture and restore against a registry others change, one run of the guard |
| `SilenceGate`, `TextBoundaries`, `TextCommitter`, `SettledCuts` | the leading-silence gate; the incremental text committer, and when more text can no longer move its cuts |
| `GuidedCapture`, `CaptureOutcomes`, `LeaseBinding` | clip collection with guided arming, and what becomes of each offer; the capture's voice lease |
| `HostReadings`, `HostAnswers`, `HostLifecycle` | what the answers of a measurement host come to, which of them let each operation succeed, and the guard that borrows it |

Each specification function is met by statements that do not use it: over whole runs from the events alone, over the
answers of the outside world, or with the conditions written out.

The outside world is a parameter. Network answers, decryptors, clocks and container listings are functions or
arguments that may answer anything; a registry that others write to is a pair of functions applied before every call.

## Findings

- The reorder buffer's onset window and onset wait never have an effect: while nothing has been released, the
  chosen packet is always the expected one, so the hold is skipped (`ReorderBuffer.DrainIsDetermined`).
- The receive loop forces a drain after each arrival, so packets leave in the order they came and the buffer
  never holds one across turns (`ReorderBuffer.VoiceReorder.DecryptLoop`). The waiting guarantees belong to
  ordinary drains.
- `decoder_reset_before_first_clean` is never true: each replacement is guarded by the clean decode that the
  record says is missing (`DecoderHealth.ResetBeforeCleanNeverShows`). A packet seen before, or an older one,
  replaces the decoder as a long loss does (`DecoderHealth.KeptExactlyOnShortAdvance`).
- A guided capture is left neither armed nor done exactly when the call is cancelled during its message while
  nothing fails and no prompt goes out (`GuidedCapture.ArmedOrDoneAfterwards`, with the run
  `GuidedCapture.SomeRunIsStuck`). It exceeds its target exactly when an arming then takes effect on the full
  capture (`GuidedCapture.NeverTooManyClips`, with the run `GuidedCapture.SomeRunExceeds`).
- A capture's stop vouches for the client's lease exactly when no earlier lease had been confirmed, because the
  confirmation is never cleared (`LeaseBinding.StopVouchesExactly`, with the run
  `LeaseBinding.SomeStopDoesNotVouch`).
- The canonical form of a command list is independent of its order exactly when different commands differ in kind,
  name or id (`CommandRegistry.CanonicalExactlyPermutation`, with the input
  `CommandRegistry.DuplicatesShowTheirOrder`). Distinct ids, which every accepted listing has, are enough.
- The two maps between users and sources need not be inverse to each other: a user who changes the source leaves a
  stale entry (`VoiceGateway.ChangingSourcesBreaksInverse`). After any run they are inverse exactly when each binding
  that is still the last of its source is still the last of its user, and the other way round
  (`VoiceGateway.InverseOverRuns`); one binding keeps inverse maps inverse exactly when neither side was bound
  elsewhere (`VoiceGateway.InverseExactly`).
- A write that fails after its rename leaves a clip file that is not counted. It is the only file beyond the count,
  and the capture is done with that failure (`GuidedCapture.StrayExactly`, with the run
  `GuidedCapture.SomeRunLeavesAFile`).
- A frame held back is lost exactly when some delivery of a replay fails at it or before it
  (`FrameReplay.NothingLostExactly`), and frames that arrive during a replay are not held back at all
  (`FrameReplay.AsidesDoNothing`). Binding a new websocket while frames are held back lets them be given to the
  handlers of the new one (`FrameReplay.BindIsSafeExactly`, with the run `FrameReplay.SomeRunCrosses`).
- The retry queue belongs to a source and not to an utterance. A pass can take packets that another utterance put
  off, exactly when one that is not too old is queued (`UtteranceRetry.ForeignExactly`, with the run
  `UtteranceRetry.SomeRunCrosses`), and later utterances can keep an earlier one waiting through any number of passes
  (`UtteranceRetry.SomeRunWaits`).
- How text is split into fragments can decide its chunks. A cut is certain to stay exactly when it is settled: a cut
  at a sentence end once something stands behind it, another one once the text fills the window, or the slack
  (`SettledCuts.SettledExactly`). What has been handed out is independent of the fragments exactly when all of it was
  settled (`SettledCuts.FirstPiecesExactly`).
- Collecting readings for a baseline starts over with the reading that does not fit, so three agreeing readings in a
  row are taken exactly if a collection begins with the first of them (`HostReadings.ThreeAreTakenExactly`). With
  9000, 9200, 9400 and 9300 free the last three agree and are not taken (`HostReadings.AgreeingReadingsAreMissed`).
- How a recording is split into chunks matters exactly when its first loud frame is complete only after the
  longest wait and starts after the preroll (`SilenceGate.IndependentExactly`).
- A stretch of missing packets longer than the cap leaves a hole between the FEC candidate and the packet it
  stands before (`GapConcealment.ContiguousExactlyWithinCap`).

## Model

| member | source | states |
|---|---|---|
| EditDistance.Levenshtein | tools/ko_stt_scoreboard.py:123-142 | the two-row loop returns the recursively defined distance, early returns included |
| EditDistance.DistanceIsLeast | tools/ko_stt_scoreboard.py:123-142 | that distance is reached by some script of insertions, deletions and substitutions and no script is shorter |
| EditDistance.NoShorterScript | tools/ko_stt_scoreboard.py:123-142 | every script turning one sequence into the other has at least the distance many edits |
| EditDistance.ShortestScript | tools/ko_stt_scoreboard.py:123-142 | a script of exactly the distance exists, and is built |
| EditDistance.ZeroExactlyOnEqual | tools/ko_stt_scoreboard.py:123-142 | distance zero if and only if the sequences are equal |
| EditDistance.Symmetric | tools/ko_stt_scoreboard.py:123-142 | the distance does not depend on the direction |
| EditDistance.Triangle | tools/ko_stt_scoreboard.py:123-142 | the triangle inequality for any three sequences |
| EditDistance.LengthBounds | tools/ko_stt_scoreboard.py:123-142 | the distance lies between the length difference and the longer length |
| EditDistance.ScoreUnits | tools/ko_stt_scoreboard.py:145-153 | the score is built from the table's distance and the reference length, an empty reference included |
| EditDistance.ScoreIsRatio | tools/ko_stt_scoreboard.py:145-153 | the error is the distance for each unit of the reference, or 0 or 1 without any, and the accuracy what is left of 1, never below 0 |
| EditDistance.ScoreMeaning | tools/ko_stt_scoreboard.py:145-153 | accuracy lies in 0..1, is 1 exactly on an exact transcript and 0 exactly when the edits reach the reference length |
| Sequence16.MoveAnchor | evelyn_voice/client.py:1069-1072 | moving the anchor past a released number keeps the circular order of everything beyond it |
| Sequence16.GapBetween | evelyn_voice/client.py:1069-1072 | the gap between two numbers in circular order is the difference of their distances less one, across the wrap |
| PacketOrder.OrderedUniquePackets | evelyn_voice/client.py:1075-1104 | the result lists exactly the surviving packets in strictly increasing circular distance from the anchor, which is the given one or else the first packet's number |
| PacketOrder.SurvivorIsLastBest | evelyn_voice/client.py:1087-1103 | for exactly the sequence numbers seen, the survivor is the last of the best by raw packet first, then payload length |
| PacketOrder.ListingIsUnique | evelyn_voice/client.py:1075-1104 | survivors and anchor leave no freedom: there is one such list |
| PacketOrder.OrderingIsIdempotent | evelyn_voice/client.py:1075-1104 | ordering an ordered list again changes nothing, with or without an explicit anchor |
| GapConcealment.ExpandPacketsWithFakes | evelyn_voice/client.py:1250-1276 | the nested loop builds the expansion that `ConcealedExactly` and `FakesAreWellPlaced` describe |
| GapConcealment.DroppingFakesGivesBack | evelyn_voice/client.py:1250-1276 | taking the fakes out of an expansion gives the packets back in order |
| GapConcealment.ConcealedExactly | evelyn_voice/client.py:1256-1274 | a number is concealed exactly when it is 1 up to the cap behind a packet and not behind the gap to the next one; so a longer gap gets its first `cap` numbers |
| GapConcealment.NoCollision | evelyn_voice/client.py:1250-1276 | in an expansion of ordered packets no two slots share a number modulo 2^16 |
| GapConcealment.ExpansionIncreases | evelyn_voice/client.py:1250-1276 | the slots keep strictly increasing circular distance from the same anchor |
| GapConcealment.FakesAreWellPlaced | evelyn_voice/client.py:1260-1274 | a fake has a successor of the same source and time, and is the FEC candidate exactly when that successor is real |
| GapConcealment.ContiguousExactlyWithinCap | evelyn_voice/client.py:1250-1276 | the expansion is gapless modulo 2^16 if and only if each gap is within the cap |
| GapConcealment.OrderAndExpand | evelyn_voice/client.py:2815-2819 | for an arbitrary packet list: survivors once each, ordered; concealed exactly as above, so up to the cap of each gap; and gapless exactly if no gap is longer |
| ReorderBuffer.VoiceReorder.ChooseReorderSeq | evelyn_voice/client.py:1178-1191 | the buffered number nearest to the number expected next, or nearest to the smallest buffered one at first |
| ReorderBuffer.VoiceReorder.IngestPacket | evelyn_voice/client.py:1193-1211 | one arrival changes one source only, and a buffer that held the survivors of some arrivals holds the survivors of one more |
| ReorderBuffer.VoiceReorder.FileArrival | evelyn_voice/client.py:1193-1211 | a better packet replaces the one with its number and no other, the number keeps the time it was first seen, and the release history stays |
| ReorderBuffer.SeenFirstStays | evelyn_voice/client.py:1193-1211 | over any arrivals a number is held with the time of its first arrival, or the clock if that is unknown, whatever packets replace each other |
| ReorderBuffer.VoiceReorder.DrainState | evelyn_voice/client.py:1213-1248 | one drain releases a beginning of the circular order from its first anchor and leaves the rest untouched; forced, it leaves nothing; ordinary, each release has its reason and what is left is fewer than the window, young, and not the next number |
| ReorderBuffer.VoiceReorder.DrainReadyPackets | evelyn_voice/client.py:1213-1248 | the same for one source of the map: other sources unchanged, and the source kept with what is left, or removed exactly if nothing is |
| ReorderBuffer.NearestStaysNearest | evelyn_voice/client.py:1178-1191 | choosing from the anchor recomputed after releases agrees with the order from the first anchor |
| ReorderBuffer.HeldMayNotGo | evelyn_voice/client.py:1222-1240 | a packet left behind by an ordinary drain had no reason to go |
| ReorderBuffer.HoldsAllExactly | evelyn_voice/client.py:1213-1248 | an ordinary drain releases nothing if and only if something was released before, the next number is missing, the window is not full and nothing has waited long enough; and what has waited long enough goes |
| ReorderBuffer.ForcedDrainOrders | evelyn_voice/client.py:1213-1248 | a forced drain of the survivors of any arrivals releases exactly the list that ordering those arrivals from the release anchor gives |
| ReorderBuffer.DrainIsDetermined | evelyn_voice/client.py:1213-1248 | state, mode, jitter window, time and jitter wait fix what a drain releases and keeps; the onset settings have no influence |
| ReorderBuffer.VoiceReorder.FlushReadyReordered | evelyn_voice/client.py:2279-2287 | each targeted source gets one drain, forced or ordinary, exactly what the drains release is routed, and exactly the emptied sources are forgotten |
| ReorderBuffer.VoiceReorder.DecryptLoop | evelyn_voice/client.py:2409-2425 | over any arrivals and timeouts, packets are routed in arrival order and nothing is held at the end of a turn |
| UtteranceSegmenter.VoiceRouter.RoutePacket | evelyn_voice/client.py:2218-2277 | one packet, stamped with the time if it carries none, changes one source by the step that the statements about the events below determine |
| UtteranceSegmenter.VoiceRouter.EndSilentUtterances | evelyn_voice/client.py:2427-2478 | exactly the utterances silent for the end silence are closed, queued while there is room and counted |
| UtteranceSegmenter.VoiceRouter.EndUtterance | evelyn_voice/client.py:2443-2478 | closing hands over the collected packets and body and resets the source |
| UtteranceSegmenter.VoiceRouter.NoteOnsetDrop | evelyn_voice/client.py:2976-2983 | a dropped utterance clears the preroll and blocks the next one from using it |
| UtteranceSegmenter.VoiceRouter.NoteOnsetPass | evelyn_voice/client.py:3116-3119 | a passed utterance lifts that block |
| UtteranceSegmenter.VoiceRouter.StopListening | evelyn_voice/client.py:3292-3299 | stopping forgets every source and the queued utterances |
| UtteranceSegmenter.RunTracks | evelyn_voice/client.py:2218-2277 | over every run the state is determined by the routed stream behind the last finished slice |
| UtteranceSegmenter.FinishedUtterancesAreSlices | evelyn_voice/client.py:2218-2277 | over every run, stops included, finished utterances are disjoint contiguous slices of the source's stream in order, each at most the preroll limit and then a body starting with voice; every voice-like packet is in a body that was finished, dropped by a stop or is still open |
| UtteranceSegmenter.PauseBeforeEnd | evelyn_voice/client.py:2427-2442 | an utterance ends only after the end silence has passed since its last voice-like packet |
| UtteranceSegmenter.QueueStaysBounded | evelyn_voice/client.py:2443-2478 | the utterance queue never exceeds its capacity, never loses what it holds, and what joins it is exactly what its sources had collected |
| UtteranceHistory.OpenExactly | evelyn_voice/client.py:2218-2277 | over every run a source is in an utterance exactly if voice was routed since the last end, and an end is a poll at least the end silence after the last voice, or a stop |
| UtteranceHistory.PrerollExactly | evelyn_voice/client.py:2218-2277 | over every run the preroll is the last packets routed, up to the limit, since it was last cleared by an end, a drop or a stop |
| UtteranceHistory.DropExactly | evelyn_voice/client.py:2976-2983 | over every run the onset drop is in force exactly if one was noted, at a time other than zero, and no pass or stop came later |
| UtteranceHistory.CollectedExactly | evelyn_voice/client.py:2240-2277 | over every run an open utterance has collected all the packets since its first voice, and in front of them exactly the last ones up to the limit since the preroll was cleared, or none if a drop was in force |
| UtteranceHistory.OutcomeExactly | evelyn_voice/client.py:2427-2478 | an end hands over exactly those packets, that body and the time of its first voice, and nothing is handed over otherwise |
| RetryQueue.PendingPackets.QueuePacket | evelyn_voice/client.py:1803-1827 | an arrival joins the queue with no attempt counted, and exactly as many of the oldest leave as are too many |
| RetryQueue.PendingPackets.DrainPending | evelyn_voice/client.py:1871-1935 | one drain splits the queue into recovered, kept and dropped, and the numbers add up |
| RetryQueue.SplitIsExact | evelyn_voice/client.py:1871-1935 | by its age, the answer and its attempts, with the reasons written out, every queued item is recovered, kept or dropped; it lands behind the earlier ones of its kind, and a kept one is the same packet with its age, one attempt more and the last answer |
| RetryQueue.RunSplits | evelyn_voice/client.py:1803-1935 | over every run the queue is old items still below the attempt limit followed by later arrivals |
| RetryQueue.OldItemsLeave | evelyn_voice/client.py:1871-1935 | after as many drains as the attempt limit nothing old is left, whatever the decryptor answers |
| RetryQueue.NeverAboveCapacity | evelyn_voice/client.py:1803-1827 | over every run the queue stays within its capacity |
| RetryQueue.TheBoundIsReached | evelyn_voice/client.py:1871-1935 | the attempt limit is exact: a young packet can stay through every drain but the last |
| RetryQueue.PendingPackets.RequeueUntilDrained | evelyn_voice/client.py:2789-2814 | an utterance is passed again until a pass leaves nothing queued for its source; once other utterances queue nothing more there, at most the attempt limit of passes follow |
| UtteranceRetry.RunKeepsInv | evelyn_voice/client.py:2789-2814 | over every run of passes each packet put off is queued, taken by one utterance or lost, once, as the packet it was; and no queued packet is of a finished utterance |
| UtteranceRetry.DrainIsTheQueues | evelyn_voice/client.py:1871-1935 | what a pass keeps and takes is what the drain of the retry queue keeps and recovers |
| UtteranceRetry.ForeignExactly | evelyn_voice/client.py:2789-2796 | a pass may take a packet that another utterance put off if and only if one that is not too old is queued |
| UtteranceRetry.OwnWhenAlone | evelyn_voice/client.py:2789-2814 | over every run in which the utterances of a source do not overlap, each takes its own packets only |
| UtteranceRetry.SomeRunCrosses | evelyn_voice/client.py:2789-2814 | a run from the start in which the second utterance takes the packet of the first, which ends without it |
| UtteranceRetry.PacketsLeave | evelyn_voice/client.py:1871-1935 | after as many passes as the attempt limit, over any utterances, every queued packet was put off meanwhile |
| UtteranceRetry.FinishesExactly | evelyn_voice/client.py:2798-2814 | a waiting utterance is finished by its next pass if and only if that pass leaves nothing queued |
| UtteranceRetry.SomeRunWaits | evelyn_voice/client.py:2798-2814 | with a limit of three attempts or more, an utterance can be kept waiting through any number of its passes |
| DaveFrame.ReadUleb128 | evelyn_voice/client.py:569-580 | the shifting loop returns the number at the front and the position behind it, or nothing |
| DaveFrame.UlebRoundTrip | evelyn_voice/client.py:569-580 | reading inverts encoding exactly for the values below 2^70; a longer encoding is refused |
| DaveFrame.ReadsNumerals | evelyn_voice/client.py:569-580 | a number is read exactly when at most ten bytes form a numeral, all but the last with the top bit set, and it is their value by sevens of bits |
| DaveFrame.ReadBelow | evelyn_voice/client.py:569-580 | no number read reaches 2^70 |
| DaveFrame.FooterIsSpelt | evelyn_voice/client.py:599-611 | nonce and ranges are read exactly from the bytes that are numerals for them, one after the other and up to the last byte |
| DaveFrame.CanonicalIsShortest | evelyn_voice/client.py:569-580 | any bytes that read as a number are at least as long as its encoding |
| DaveFrame.ParseDavePayload | evelyn_voice/client.py:583-623 | the parser with its early returns computes the specified parse |
| DaveFrame.ParsesExactlyFrames | evelyn_voice/client.py:583-623 | a frame is recognised exactly when marker and size byte fit, ciphertext and footer fill it, and the bytes between tag and size byte spell nonce and ranges |
| DaveFrame.FrameRoundTrip | evelyn_voice/client.py:583-623 | for every nonce, ranges and nonempty ciphertext whose footer fits the size byte, parsing the printed frame returns them |
| DaveFrame.Reprint | evelyn_voice/client.py:583-623 | any frame that parses can be printed again from its parts, within the size byte, and parses to the same parts |
| RtpPacket.HeaderRoundTrip | evelyn_voice/client.py:626-668 | parsing a built header returns its fields and both lengths, for every extension and list of contributing sources |
| RtpPacket.HeaderParsesExactly | evelyn_voice/client.py:626-668 | a header is accepted if and only if some fields, of version two, give its bytes with the extension body behind them, and is read as those fields |
| RtpPacket.OpensExactly | evelyn_voice/client.py:1291-1311 | a packet opens exactly if it is its readable header, a sealed part and four bytes which, with twenty zeros, are the nonce that opens it |
| RtpPacket.PaddingStripsExactly | evelyn_voice/client.py:1324-1331 | padding named by its last byte is taken off, and refused when nothing remains |
| RtpPacket.AcceptedExactly | evelyn_voice/client.py:1278-1346 | a packet yields a payload exactly when some fields give its header, it opens under that, and the plaintext is extension body, that payload and announced padding; without a key none does |
| RtpPacket.PacketRoundTrip | evelyn_voice/client.py:1278-1346 | what is sealed under the clear header and the nonce of four bytes and twenty zeros comes back as payload and fields |
| DecoderHealth.Decoders.PrepareDecoder | evelyn_voice/client.py:1134-1153 | a source gets a new decoder exactly if it had none or `ReplacedExactly` says so, and keeps its own otherwise; other sources unchanged |
| DecoderHealth.Decoders.NoteSuccess | evelyn_voice/client.py:1155-1164 | a success ends the row of failures and marks the decoder clean |
| DecoderHealth.Decoders.NoteFailure | evelyn_voice/client.py:1166-1176 | a failure is counted, and a new decoder takes the place of the old exactly as `ReplacedExactly` says |
| DecoderHealth.ResetBeforeCleanNeverShows | evelyn_voice/client.py:1120-1132 | in no run is the record of a reset before the first clean decode set |
| DecoderHealth.ReplacementsNeedSuccesses | evelyn_voice/client.py:1134-1176 | over every run there are no more replacements than successes noted |
| DecoderHealth.FailureReplacementsNeedFailures | evelyn_voice/client.py:1166-1176 | each replacement for failures uses up a full limit of failures, and a clean decoder is always below the limit |
| DecoderHealth.KeptExactlyOnShortAdvance | evelyn_voice/client.py:1148-1152 | a clean, busy decoder is kept exactly when the packet is one to `GAP_LIMIT` numbers ahead |
| DecoderHistory.CleanExactly | evelyn_voice/client.py:1155-1164 | over every run a decoder counts as clean exactly if a frame was decoded since it is there |
| DecoderHistory.LastAtExactly | evelyn_voice/client.py:1134-1176 | over every run the time kept is that of the last attempt or replacement |
| DecoderHistory.LastSequenceExactly | evelyn_voice/client.py:1134-1176 | over every run the number kept is that of the last attempt that gave one, or of a later replacement |
| DecoderHistory.FailuresExactly | evelyn_voice/client.py:1166-1176 | over every run the failures counted are those since the last decoded frame or new decoder |
| DecoderHistory.ReplacedExactly | evelyn_voice/client.py:1134-1176 | after every run the next event replaces the decoder if and only if a frame was decoded with it and a packet comes after a second and a half of silence, or with a number that is not one to twenty-four ahead, or a frame fails as the fourth in a row |
| ListenerLease.VoiceListener.BindVoiceInputLease | evelyn_voice/client.py:888-899 | refused for a blank token, a release that cannot be called or with a lease already bound, otherwise one lease more |
| ListenerLease.VoiceListener.Listen | evelyn_voice/client.py:2304-2347 | refused without a lease or a transport; otherwise all three loops are there, the missing ones new tasks of the current generation, and nothing else changes |
| ListenerLease.VoiceListener.StopListening | evelyn_voice/client.py:3268-3309 | ends the generation, cancels the three loops and every utterance in work, and hands the lease to one release that waits for all of them |
| ListenerLease.VoiceListener.ListenerTaskFinished | evelyn_voice/client.py:857-886 | exactly an uncancelled end in the current generation ends it, takes the lease away and reports the failure |
| ListenerLease.RunsKeepInv | evelyn_voice/client.py:857-959 | over all interleavings every task that can work is owned and under a lease, and every lease ever bound is bound or in exactly one release |
| ListenerLease.LeasesAreSafe | evelyn_voice/client.py:888-942 | no task works without a lease, and no lease is given back twice or while bound |
| ListenerLease.ReleasedAfterItsTasks | evelyn_voice/client.py:904-942 | a lease is given back only after every task its stop cancelled has finished |
| ListenerLease.StopWaitsForAllWork | evelyn_voice/client.py:3268-3309 | the release of a stop waits for every task that could still work, and none can afterwards |
| ListenerLease.LoopsTogether | evelyn_voice/client.py:2304-2347 | over every run a listener has its three loops, three different tasks of the current generation, or none |
| ListenerLease.ListeningExactly | evelyn_voice/client.py:2304-2347 | over every run they are there exactly if listening was begun and since then neither a stop nor an uncancelled end of one of them came |
| ListenerLease.OneFailurePerGeneration | evelyn_voice/client.py:857-886 | each generation reports at most one failure, and a report ends its generation |
| ListenerLease.NothingOutstandingAfterDisconnect | evelyn_voice/client.py:3340-3354 | once a disconnect has drained the releases, every lease ever bound has been given back once |
| VoiceGateway.ProofBeatsAnnouncement | evelyn_voice/gateway.py:372-491 | over every order of messages the preferred user of a source is the last proved by decryption, else the last announced |
| VoiceGateway.SpeakerIsLastToSpeak | evelyn_voice/gateway.py:372-491 | over every run the current speaker is who spoke last, by proof if there was one by then, unless that user has left since |
| VoiceGateway.NobodyUnlessSpoken | evelyn_voice/gateway.py:372-491 | over every run there is no current speaker while nobody has spoken since the last clearing |
| VoiceGateway.InverseExactly | evelyn_voice/state.py:59-61 | a binding keeps inverse maps inverse if and only if neither side was bound elsewhere |
| VoiceGateway.InverseOverRuns | evelyn_voice/state.py:59-65 | after any run the maps are inverse to each other if and only if the last binding of each source is the last of its user and the other way round |
| VoiceGateway.ChangingSourcesBreaksInverse | evelyn_voice/state.py:59-65 | a run that ends with maps that are not inverse, and one more binding that mends them |
| VoiceGateway.VoiceRuntimeState.HandleSpeaking | evelyn_voice/gateway.py:372-491 | a speaking message binds and sets the speaker, unless decryption has proved another user |
| VoiceGateway.VoiceRuntimeState.ClearMappings | evelyn_voice/state.py:74-80 | clearing forgets every binding and the speaker |
| FrameReplay.EveryFrameWaitsOrLeft | evelyn_voice/gateway.py:202-311 | however messages, replays and websockets follow each other, each frame of the right kind that came on the websocket bound last, without a session and outside a replay, waits, is in the replay or has left, once and in order |
| FrameReplay.NothingLostExactly | evelyn_voice/gateway.py:202-221 | over every run all frames held back were taken by a handler, are in the replay or wait, if and only if no delivery fails |
| FrameReplay.AsidesDoNothing | evelyn_voice/gateway.py:203-221 | whatever sequence of messages begins or ends between two deliveries of a replay, on any websocket, none is held back and none starts another replay |
| FrameReplay.ReplayGoesOn | evelyn_voice/gateway.py:202-221 | a replay begins with all the frames that wait, gives them in order, one with each delivery, to the handlers of the websocket it began on, whatever happens between, and ends with the last |
| FrameReplay.ReplayBreaksOff | evelyn_voice/gateway.py:202-221 | a delivery that fails ends it: its frame was offered and not taken, the ones behind it were not even offered, and none of them waits any more |
| FrameReplay.BindIsSafeExactly | evelyn_voice/gateway.py:223-311 | after binding a new websocket no continuation gives it a frame of an earlier one, if and only if nothing was held back |
| FrameReplay.NothingCrosses | evelyn_voice/gateway.py:223-311 | over every run that binds only with nothing held back, each frame is given to handlers of the websocket it came on |
| FrameReplay.SomeRunCrosses | evelyn_voice/gateway.py:223-311 | a run from the start that gives a frame of one websocket to the next |
| FrameReplay.PendingFrames.BeginMessage | evelyn_voice/gateway.py:239-248 | a frame of the right kind on the present websocket is held back without a session and outside replays |
| FrameReplay.PendingFrames.ReplayPending | evelyn_voice/gateway.py:202-221 | the loop, with any messages and bindings during each delivery, does what the steps of the replay do one by one |
| CommandRegistry.CanonicalSorts | docker/discord_command_registry_guard.py:108-124 | the canonical form is a sorted permutation of the list |
| CommandRegistry.LexicographicExactly | docker/discord_command_registry_guard.py:108-124 | the order of texts is decided by the first place where they differ, or by length |
| CommandRegistry.CanonicalAscends | docker/discord_command_registry_guard.py:108-124 | the canonical form ascends by kind, then name, then id, with these compared that way |
| CommandRegistry.CanonicalIsStable | docker/discord_command_registry_guard.py:108-124 | and commands of one kind, name and id keep the order they came in |
| CommandRegistry.CanonicalExactlyPermutation | docker/discord_command_registry_guard.py:108-124 | equal canonical forms mean being a permutation of a list, for every other list, if and only if kind, name and id tell its commands apart |
| CommandRegistry.SomeOrderShows | docker/discord_command_registry_guard.py:108-124 | any list with two different commands of one kind, name and id has a permutation with another canonical form |
| CommandRegistry.DuplicatesShowTheirOrder | docker/discord_command_registry_guard.py:108-124 | two commands that differ only in what the server adds are such a list |
| OwnershipLedger.CheckEntries | docker/discord_command_registry_guard.py:326-392 | the loop accepts a document exactly when every entry passes next to the earlier ones, and names the failure of the first that does not |
| OwnershipLedger.AcceptedExactly | docker/discord_command_registry_guard.py:326-392 | accepted are exactly the documents in which each entry has a valid id, one or two different shapes, one of them final, and none that was not allowed for its id, and no two entries share an id or a final name |
| OwnershipLedger.AcceptedEntriesAreApart | docker/discord_command_registry_guard.py:326-392 | in an accepted document ids and final names are distinct and each id is allowed exactly its entry's shapes |
| OwnershipLedger.ReadsOnlyNarrow | docker/discord_command_registry_guard.py:296-392 | over every sequence of reads tracked ids only grow, the shapes of each only shrink, the recovery flag never clears, and rejected ledgers change none of it |
| OwnershipLedger.ReadReplaces | docker/discord_command_registry_guard.py:385-392 | after an accepted document each id it names is allowed exactly its entry's shapes, every other id is as before, and the current ownership is the document's; after a missing ledger it is empty |
| OwnershipLedger.NewestDecides | docker/discord_command_registry_guard.py:385-392 | after any reads an id is allowed exactly the shapes of the newest accepted document that names it |
| OwnershipLedger.UnnamedStays | docker/discord_command_registry_guard.py:385-392 | and an id that none has named is as at first |
| RegistryGuard.Guard.ReadOwnership | docker/discord_command_registry_guard.py:296-392 | one read succeeds exactly on an acceptable ledger, changes the ownership as `ReadReplaces` says, and names the failure of the first entry that does not pass |
| RegistryGuard.PartitionCurrent | docker/discord_command_registry_guard.py:404-431 | succeeds exactly on listings with valid distinct ids and allowed shapes, returns the partition, and otherwise names what is wrong with the first command that does not fit |
| RegistryGuard.PartitionMeaning | docker/discord_command_registry_guard.py:404-431 | the owned part is the tracked commands, each id once |
| RegistryGuard.OthersMeaning | docker/discord_command_registry_guard.py:404-431 | of the untracked, managed commands are unowned and the rest foreign |
| RegistryGuard.ForeignIsTheRest | docker/discord_command_registry_guard.py:404-431 | with nothing unowned the foreign part is the listing without the owned commands, in order |
| RegistryGuard.Guard.CaptureBaseline | docker/discord_command_registry_guard.py:394-402 | succeeds exactly if both looks and the ledger are in order and the listing is orderly with nothing managed left over, and names what is left over exactly if it alone stands in the way; the baseline is then its foreign part, and nothing is deleted |
| RegistryGuard.Guard.CapturePublished | docker/discord_command_registry_guard.py:433-459 | fails exactly if the ledger or a look does or the listing has drifted, and reports completion exactly if the listing shows every managed command owned and everything else unchanged |
| RegistryGuard.Guard.CheckPublished | docker/discord_command_registry_guard.py:436-458 | a listing counts as the complete publication exactly as `CompleteExactly` says; and which drift is named is decided |
| RegistryGuard.CompleteExactly | docker/discord_command_registry_guard.py:436-458 | a listing shows the publication complete if and only if each of the five managed names is there once, every managed command is tracked and every tracked one managed, the ids are those of the current ledger, and the rest is the baseline up to order |
| RegistryGuard.Guard.RemoveOwned | docker/discord_command_registry_guard.py:474-499 | a delete is sent only for an id that the latest listing shows with an owned shape, whatever the service answers to it; a success means that the last listing lacks the id, and each failure what that listing showed; undisturbed, exactly that command goes |
| RegistryGuard.Guard.RemoveAll | docker/discord_command_registry_guard.py:474-499 | each id at most once; a success means that each was seen gone, and a failure is that of the last turn made; undisturbed, exactly the owned commands go |
| RegistryGuard.Guard.Restore | docker/discord_command_registry_guard.py:461-509 | for any answers, exceptions and other writers every delete is safe, unique and in a shape of the document just read if that names the id, and a success means that what is tracked was seen gone and the last look shows the baseline; undisturbed, the registry ends without the owned commands and the call succeeds exactly if the ledger is in order and the rest is the baseline |
| RegistryGuard.DeletesFollowTheNewest | docker/discord_command_registry_guard.py:461-509 | after any reads no command is deleted in a shape that the newest accepted document naming its id leaves out |
| RegistryGuard.OwnedInOrder | docker/discord_command_registry_guard.py:461-509 | the deletion order by id covers exactly the owned commands, and deleting them leaves the foreign ones |
| RegistryGuard.ByIdSorts | docker/discord_command_registry_guard.py:474-474 | deletions go in ascending order of the ids |
| RegistryGuard.RestoredIsTheBaseline | docker/discord_command_registry_guard.py:461-509 | an undisturbed restore leaves the foreign commands, and comparing canonical forms decides whether they are the baseline up to order exactly when the key tells them apart, as in every accepted listing |
| GuardRun.Run.Execute | docker/discord_command_registry_guard.py:539-625 | wherever an unexpected exception strikes, in a look, a pause or the restore: nothing is deleted before the restore; each status is true when it is written, "published" only right after a look that shows it; once a baseline is captured restore happens exactly once, after the clean-up signal, the end of the lifetime or a disturbance, "restored" is written only after it returned, and then the run returns normally exactly unless the first failure was an unexpected one |
| GuardRun.Run.RestoreAndReport | docker/discord_command_registry_guard.py:603-625 | the end of a run calls restore once and reports its outcome |
| SilenceGate.LeadingSilenceGate.ProcessChunk | docker/voxcpm_nanovllm_service.py:237-261 | the frame loop does what the specified gate does with one chunk; `TrimmedExactly` says what that comes to |
| SilenceGate.FirstLoudExactly | docker/voxcpm_nanovllm_service.py:245-248 | the search finds the first of all the whole frames, laid end to end from the start, that is loud, and nothing exactly if none is |
| SilenceGate.TrimmedExactly | docker/voxcpm_nanovllm_service.py:237-261 | over every splitting what is trimmed, and whether the gate is open, is decided by the number of the first loud frame of the whole input, the preroll, and whether a chunk ended past the longest wait before that frame was complete |
| SilenceGate.OnlyTheLeadInIsLost | docker/voxcpm_nanovllm_service.py:226-267 | at any point of any run, output and pending are the input less the trimmed prefix, and a closed gate holds less than the longest wait |
| SilenceGate.SplittingMatters | docker/voxcpm_nanovllm_service.py:226-267 | a given splitting gives the one-chunk result if and only if nothing is to be trimmed or no chunk ends early |
| SilenceGate.IndependentExactly | docker/voxcpm_nanovllm_service.py:226-267 | an input comes out the same under every splitting if and only if its first loud frame ends within the longest wait, starts in the preroll, or does not exist |
| SilenceGate.OneShotTrim | docker/voxcpm_nanovllm_service.py:379-389 | what is trimmed of a finished recording is the lead-in of its first loud frame less the preroll |
| SilenceGate.TrimLeadingSilence | docker/voxcpm_nanovllm_service.py:379-389 | one chunk and a flush return the recording from the preroll before its first loud frame on, and all of it if no frame is loud |
| TextBoundaries.StripTrims | docker/voxcpm_nanovllm_service.py:125-140 | stripping removes white space at both ends only, all of it, and leaves nothing exactly of blank text |
| TextBoundaries.StrongEndsExactly | docker/voxcpm_nanovllm_service.py:191-200 | the scan finds exactly the ends of stops with their closers and white space, and of runs of line ends that are not such white space |
| TextBoundaries.ClauseEndsExactly | docker/voxcpm_nanovllm_service.py:203-214 | the clause scan finds exactly the positions behind a clause mark and its white space |
| TextBoundaries.BlankEndsExactly | docker/voxcpm_nanovllm_service.py:217-223 | the blank scan finds exactly the ends of runs of white space |
| TextCommitter.FindCut | docker/voxcpm_nanovllm_service.py:133-180 | the search returns the place that `CutIsChosen` describes |
| TextCommitter.CutIsChosen | docker/voxcpm_nanovllm_service.py:133-180 | a cut is made at the first sentence end in the window; with none and enough text at the last clause end; with none at the last white space; with none and more text at the last white space within the slack; and nowhere else |
| TextCommitter.NextEndIsChosen | docker/voxcpm_nanovllm_service.py:133-180 | the next cut of a buffer is that place in it behind its leading white space, with only what is left between the white space at both ends counted as visible |
| TextCommitter.CutIsInRange | docker/voxcpm_nanovllm_service.py:133-180 | a cut consumes a visible character and the minimum, and at most the maximum plus 40 |
| TextCommitter.CommitSplits | docker/voxcpm_nanovllm_service.py:182-188 | a commit splits the buffer into white space, a nonempty chunk, white space and the rest, so its error is unreachable |
| TextCommitter.LongTextHeldExactly | docker/voxcpm_nanovllm_service.py:133-180 | text past the maximum stays uncut exactly when it has no boundary in the window and no blank within the slack |
| TextCommitter.IncrementalTextCommitter.Append | docker/voxcpm_nanovllm_service.py:116-123 | hands out exactly what is due from the buffer and the fragment; everything appended is the emitted chunks in order, the buffer, and removed white space; the first chunk ever keeps to the first window and each later one to the next window; no further cut is possible; the loop ends |
| TextCommitter.IncrementalTextCommitter.Flush | docker/voxcpm_nanovllm_service.py:125-131 | the rest comes out as one chunk unless it is blank, and the account stays exact |
| SettledCuts.SettledExactly | docker/voxcpm_nanovllm_service.py:133-180 | no text to come moves a cut if and only if it is settled: at a sentence end with something behind it, or the last place of the window where it would be chosen anyway; inside the window once the text fills it; behind the window once the text fills the slack |
| SettledCuts.NextIsSettledExactly | docker/voxcpm_nanovllm_service.py:133-180 | the same for the next cut of the whole buffer, with its leading white space |
| SettledCuts.FirstPiecesExactly | docker/voxcpm_nanovllm_service.py:116-123 | whatever is appended later, all the text at once gives the pieces handed out so far first, if and only if each of them was settled when it was cut |
| GuidedCapture.CorpusCapture.AcceptCompletedPcm | tools/discord_voice_corpus_capture.py:574-657 | the method with all its early returns does what the specified step does |
| CaptureOutcomes.StoredExactly | tools/discord_voice_corpus_capture.py:574-657 | an offer is stored, with its digest, its start and the arming in force, if and only if it is made by the owner on the current listener, began after the arming, and is a whole, usable, new clip that can be written; and it counts as rejected exactly if it was made while disarmed, began too early or is no such clip |
| CaptureOutcomes.EndsExactly | tools/discord_voice_corpus_capture.py:574-657 | a capture that takes offers ends with the failure of the first check that fails, and goes on exactly if the offer is stored or rejected |
| CaptureOutcomes.AnswerDecides | tools/discord_voice_corpus_capture.py:412-657 | with nothing failing meanwhile, a message that went out ends the capture cleanly if the last clip is in and arms it again at that time otherwise, one that could not be sent ends it with the failure it brings, and a cancelled one does neither |
| CaptureOutcomes.FailureMeanwhileDecides | tools/discord_voice_corpus_capture.py:395-399 | the first failure during a message ends the capture, whatever the answer |
| GuidedCapture.CorpusCapture.Store | tools/discord_voice_corpus_capture.py:534-572 | a new storable clip adds one digest, one file and one to the count; a duplicate or unusable one only a rejection; a write failure nothing, except that one after the rename leaves its file uncounted |
| GuidedCapture.CorpusCapture.StartArming | tools/discord_voice_corpus_capture.py:401-407 | an arming is refused unless the capture is guided and neither armed nor done |
| GuidedCapture.CorpusCapture.FinishArming | tools/discord_voice_corpus_capture.py:407-410 | arms when the prompt went out, whatever has become of the capture meanwhile |
| GuidedCapture.CorpusCapture.ArmGuidedCapture | tools/discord_voice_corpus_capture.py:401-410 | both halves with anything but an offer in between |
| GuidedCapture.ArmIsAsides | tools/discord_voice_corpus_capture.py:401-410 | such an arming is its two halves with the rest in between, as every run may hold them |
| GuidedCapture.CorpusCapture.NotifyAndRearm | tools/discord_voice_corpus_capture.py:412-421 | arms again exactly when the message went out |
| GuidedCapture.RunKeepsInv | tools/discord_voice_corpus_capture.py:363-657 | over every run, with failures and armings at any moment and during messages, the count equals the distinct digests and the files counted, a guided clip began after the arming in force, and done without an error means complete and no file beyond the count |
| GuidedCapture.StrayExactly | tools/discord_voice_corpus_capture.py:534-572 | over every run the files on disk are the counted clips, and one more if and only if a write failed after its rename; the capture is then done with the write failure |
| GuidedCapture.SomeRunLeavesAFile | tools/discord_voice_corpus_capture.py:534-572 | for every count below the target a run that ends with one file more |
| GuidedCapture.DoneIsFinal | tools/discord_voice_corpus_capture.py:395-421 | no event changes the clips, the counters or the outcome of a finished capture |
| GuidedCapture.NeverTooManyClips | tools/discord_voice_corpus_capture.py:401-657 | at every point of a run every next offer stays within the target if and only if no arming in the run takes effect on a full capture |
| GuidedCapture.SomeRunExceeds | tools/discord_voice_corpus_capture.py:401-657 | for every target there is a run that stores one clip more |
| GuidedCapture.SomeRunIsStuck | tools/discord_voice_corpus_capture.py:574-657 | and one that has every clip but is neither armed nor done |
| GuidedCapture.ArmingIsSafeExactly | tools/discord_voice_corpus_capture.py:401-410 | an event keeps every next offer within the target if and only if it does not arm a full capture |
| GuidedCapture.ArmedOrDoneAfterwards | tools/discord_voice_corpus_capture.py:574-657 | a call leaves the capture armed or done if and only if it is not cancelled during a message in which nothing fails and no prompt goes out |
| GuidedCapture.NeverStuck | tools/discord_voice_corpus_capture.py:574-657 | once armed, a run without cancelled calls is armed or done at its end |
| GuidedCapture.EveryOfferIsAccountedFor | tools/discord_voice_corpus_capture.py:574-657 | an offer is stored, counted as rejected, or the reason the capture stopped with an error |
| LeaseBinding.RunsKeepInv | tools/discord_voice_corpus_capture.py:721-790 | over every run each lease leaves once, in the order acquired, and none is acquired after one was handed to the client |
| LeaseBinding.StopVouchesExactly | tools/discord_voice_corpus_capture.py:768-790 | every normal stop after a hand-over means that lease was confirmed, if and only if nothing had been confirmed before |
| LeaseBinding.SomeStopDoesNotVouch | tools/discord_voice_corpus_capture.py:768-790 | a run from the start whose stop returns normally without its lease being confirmed |
| LeaseBinding.VoiceLeaseBinding.AcquireForCapture | tools/discord_voice_corpus_capture.py:738-744 | refused exactly while a lease is pending or bound, or if none is granted; otherwise the new one is pending |
| LeaseBinding.VoiceLeaseBinding.Bind | tools/discord_voice_corpus_capture.py:746-766 | hands the pending lease over once, and returns normally exactly if the client takes it and listens; a refusal by the client leaves it pending |
| LeaseBinding.VoiceLeaseBinding.Stop | tools/discord_voice_corpus_capture.py:768-790 | gives a pending lease back itself and returns exactly if that is confirmed; otherwise returns exactly if nothing is bound or the client drains and some confirmation is there |
| HostLifecycle.Lifecycle.Perform | tools/main_latency_host_lifecycle.py:358-515 | for every sequence of operations and every environment Docker is started at most once and right after the baseline, and stopped only if it was off at first, a start was attempted and the listing just before was empty |
| HostLifecycle.Lifecycle.Prepare | tools/main_latency_host_lifecycle.py:358-367 | refused a second time without a command; otherwise succeeds if and only if `PrepareSucceedsExactly` says so, and Docker is started if and only if it was off and a baseline was taken |
| HostLifecycle.Lifecycle.CaptureBaseline | tools/main_latency_host_lifecycle.py:268-299 | takes a baseline the first time three readings are held, and otherwise fails at the first reading that fails or at the deadline |
| HostLifecycle.Lifecycle.WaitForGpuRestore | tools/main_latency_host_lifecycle.py:313-327 | comes to what the readings decide, and a success returns three readings in a row that match the baseline |
| HostLifecycle.CandidateAgrees | tools/main_latency_host_lifecycle.py:268-299 | the spread computed by the loop decides exactly whether a reading joins the ones collected |
| HostLifecycle.SpreadDecides | tools/main_latency_host_lifecycle.py:268-299 | pairwise agreement of readings is a bound on the spread of their extremes |
| HostLifecycle.StartStaysSafe | tools/main_latency_host_lifecycle.py:342-348 | a first start after the baseline keeps every command sent so far safe |
| HostLifecycle.StopStaysSafe | tools/main_latency_host_lifecycle.py:350-356 | a stop directly after an empty listing keeps every command sent so far safe |
| HostLifecycle.Lifecycle.FinishAfterOwnedCleanup | tools/main_latency_host_lifecycle.py:404-432 | evidence is returned if and only if `FinishSucceedsExactly` says so, with Docker as at first and three matching readings last; Docker is told to stop exactly if it was off at first and is found running and empty; a failure is what the last command shows; later calls return the evidence without sending anything |
| HostLifecycle.Lifecycle.BestEffortRestore | tools/main_latency_host_lifecycle.py:460-515 | a clean report is given if and only if `UndoSucceedsExactly` says so and means a clean end; Docker is told to stop exactly if it was off at first, a start was attempted, and it is found running and empty, now or after a wait; any other report names the failure shown by the last command before the closing look at Docker; and the stop rules hold on every path |
| HostLifecycle.Lifecycle.VerifyMeasurementPreflight | tools/main_latency_host_lifecycle.py:369-376 | succeeds exactly if prepared, Docker runs and no container does, and names the first of these that fails |
| HostReadings.WaitSucceedsExactly | tools/main_latency_host_lifecycle.py:230-243 | waiting for Docker succeeds if and only if some probe within the patience shows the state and none fails before |
| HostReadings.RestoreSucceedsExactly | tools/main_latency_host_lifecycle.py:313-327 | waiting for the card succeeds if and only if some three readings in a row match within the patience and none fails before |
| HostReadings.BaselineSucceedsExactly | tools/main_latency_host_lifecycle.py:268-299 | a baseline is taken if and only if three readings are held at once within the patience, before any fails |
| HostReadings.BaselineIsDetermined | tools/main_latency_host_lifecycle.py:268-299 | the readings leave one outcome only |
| HostReadings.ThreeAreTakenExactly | tools/main_latency_host_lifecycle.py:268-299 | three readings in a row are held if and only if they agree and a collection begins with the first of them |
| HostReadings.AgreeingReadingsAreMissed | tools/main_latency_host_lifecycle.py:268-299 | four readings of which the last three agree and are not held |
| HostReadings.AgreeMeans | tools/main_latency_host_lifecycle.py:268-299 | three readings agree exactly if they are of one card, at most 10 per cent busy, and within 256 of each other in free and 1 in total memory |
| HostAnswers.BaselineMeans | tools/main_latency_host_lifecycle.py:268-299 | a baseline is the least free memory and the middle total of its three readings |
| HostAnswers.MatchesExactly | tools/main_latency_host_lifecycle.py:301-311 | a reading matches exactly if it makes sense, is of the same card, at most 10 per cent busy, three quarters free, and within 1 of the total |
| HostAnswers.WaitEndsExactly | tools/main_latency_host_lifecycle.py:230-243 | a wait ends well with a certain command exactly if that is the first to show the state, within the patience, and none before failed |
| HostAnswers.SettlesExactly | tools/main_latency_host_lifecycle.py:313-327 | the wait for the card ends with a certain reading exactly if that is the third of the first three in a row that match, within the patience, and all before make sense |
| HostAnswers.PrepareSucceedsExactly | tools/main_latency_host_lifecycle.py:358-367 | the preparation succeeds if and only if Docker is in a stable state, three readings are held in time, and Docker, if it was off, starts and is seen running in time |
| HostAnswers.FinishSucceedsExactly | tools/main_latency_host_lifecycle.py:404-432 | the finish yields evidence if and only if Docker runs; is, if it was off at first, empty, told to stop and seen stopped in time; the card then settles; and Docker is as at first, empty if it runs |
| HostAnswers.UndoSucceedsExactly | tools/main_latency_host_lifecycle.py:460-515 | a restore after a failure is clean if and only if Docker is as it was at first, or was off, a start was attempted and it is stopped once it runs; and the last checks come out as at the finish |
| HostAnswers.ObedientHostIsRestored | tools/main_latency_host_lifecycle.py:404-515 | both succeed whenever Docker obeys at once and three readings match |

## Left out

- Sockets, HTTP, subprocesses and files: their answers are arguments or oracle functions that may answer anything.
- AEAD, the end-to-end decryptor and the Opus decoder: oracles; nothing is claimed of their outputs.
- CommandRegistry.ValidId: takes the digits '0' to '9'; the pattern's `\d` accepts the decimal digits of other scripts behind the first digit too.
- The sender's nonce counter: a packet carries its nonce suffix, and opening it is an oracle of ciphertext, header and nonce.
- Resampling, pitch, roughness and trim heuristics: floating-point scores without a crisp specification.
- Onset audio gating and the retry of packets from unknown sources: driven by timing and scores; only their effect on the preroll is modelled.
- Which decoder object a decode call uses after a reset in the middle of that call, and the concealment order of one packet.
- Environment overrides of limits: the decoder limits are fixed at their defaults; windows, capacities and waits are parameters elsewhere.
- JSON and SHA-256: `canonical` compares the serialised text; the model compares lists of records, the encoding being injective. Ledger parsing is three flags: missing, unreadable, or fields as expected.
- Unexpected types inside a listing: the model's listings are well typed. Unexpected exceptions of the guard strike in its requests, looks, pauses and writes, not between two statements.
- A speaker lookup or cipher that is missing at a first pass: the utterance is put back or dropped before it puts any packet off.
- Deadlines: polling loops run for an arbitrary finite number of polls that the environment chooses.
- Status and evidence documents: their contents besides the outcome, and the rounding of reported numbers.
- The reconnect machinery and the listener's rearming after a transport change: their own steps are not modelled; binding, listening and stopping may happen in any order.
- Order inside the asyncio loop: a run is any interleaving of the steps at which a task can change the state.
- Unicode normalisation in the scoreboard: texts are arbitrary sequences.
- GuidedCapture.CorpusCapture.ArmGuidedCapture: prompts under way are told apart only by their number, and no offer falls into this call; offers between the two halves of an arming are covered by the runs.
- A status callback that raises one of the two codes of an unusable clip itself: the codes a callback may raise here are those that stop the capture.
- The fixed number of guided phrases: the target is any number.
