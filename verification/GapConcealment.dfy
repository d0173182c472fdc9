// Filling the gaps of an ordered packet list with fake packets for the decoder
// to conceal, at most `cap` per gap.
module GapConcealment {
  import opened Wrappers
  import opened Sequence16
  import opened PacketOrder

  datatype Slot =
    | Real(packet: Packet)
    | Fake(fakeSsrc: nat, fakeSequence: Seq16, fakeTimestamp: nat, fecCandidate: bool)
  {
    function Sequence(): Seq16 {
      if Real? then packet.sequence else fakeSequence
    }

    function Ssrc(): nat {
      if Real? then packet.ssrc else fakeSsrc
    }

    function Timestamp(): nat {
      if Real? then packet.timestamp else fakeTimestamp
    }

    predicate IsFec() {
      Fake? && fecCandidate
    }
  }

  function Fill(gap: nat, cap: nat): nat {
    if gap <= cap then gap else cap
  }

  function PreviousSequence(packets: seq<Packet>): Option<Seq16> {
    if packets == [] then None else Some(packets[|packets| - 1].sequence)
  }

  // The first `count` fakes of the gap before `packet`, of which `total` are made.
  function Fakes(base: Seq16, packet: Packet, count: nat, total: nat): seq<Slot> {
    seq(count, k requires 0 <= k < count => Fake(packet.ssrc, Advance(base, k + 1), packet.timestamp, k + 1 == total))
  }

  function FakesBefore(previous: Option<Seq16>, packet: Packet, cap: nat): seq<Slot> {
    var n := Fill(SequenceGap(previous, packet.sequence), cap);
    match previous
    case None => []
    case Some(base) => Fakes(base, packet, n, n)
  }

  function Expand(packets: seq<Packet>, cap: nat): seq<Slot> {
    if packets == [] then []
    else
      var init, packet := packets[..|packets| - 1], packets[|packets| - 1];
      Expand(init, cap) + FakesBefore(PreviousSequence(init), packet, cap) + [Real(packet)]
  }

  lemma FakeStep(before: seq<Slot>, base: Seq16, packet: Packet, count: nat, total: nat)
    ensures before + Fakes(base, packet, 0, total) == before
    ensures before + Fakes(base, packet, count + 1, total) ==
            before + Fakes(base, packet, count, total) +
            [Fake(packet.ssrc, Advance(base, count + 1), packet.timestamp, count + 1 == total)]
  {
    assert Fakes(base, packet, count + 1, total) ==
           Fakes(base, packet, count, total) +
           [Fake(packet.ssrc, Advance(base, count + 1), packet.timestamp, count + 1 == total)];
  }

  lemma ExpandStep(packets: seq<Packet>, i: nat, cap: nat)
    requires i < |packets|
    ensures Expand(packets[..i + 1], cap) ==
            Expand(packets[..i], cap) + FakesBefore(PreviousSequence(packets[..i]), packets[i], cap)
              + [Real(packets[i])]
    ensures PreviousSequence(packets[..i + 1]) == Some(packets[i].sequence)
  {
    assert packets[..i + 1][..i] == packets[..i];
  }

  // The inner loop: the fakes of one gap, one after the other.
  method FillGap(before: seq<Slot>, base: Seq16, packet: Packet, toFill: nat) returns (expanded: seq<Slot>)
    ensures expanded == before + Fakes(base, packet, toFill, toFill)
  {
    expanded := before;
    var missing := 0;
    FakeStep(before, base, packet, 0, toFill);
    while missing < toFill
      invariant 0 <= missing <= toFill
      invariant expanded == before + Fakes(base, packet, missing, toFill)
    {
      FakeStep(before, base, packet, missing, toFill);
      expanded := expanded + [Fake(packet.ssrc, Advance(base, missing + 1), packet.timestamp, missing == toFill - 1)];
      missing := missing + 1;
    }
  }

  // The gap between a packet and the one before it, if there is one.
  method FillBefore(before: seq<Slot>, previous: Option<Seq16>, packet: Packet, cap: nat) returns (expanded: seq<Slot>)
    ensures expanded == before + FakesBefore(previous, packet, cap)
  {
    var gap := SequenceGap(previous, packet.sequence);
    if gap > 0 {
      expanded := FillGap(before, previous.value, packet, if gap < cap then gap else cap);
    } else {
      assert FakesBefore(previous, packet, cap) == [];
      expanded := before;
    }
  }

  method ExpandPacketsWithFakes(packets: seq<Packet>, cap: nat) returns (expanded: seq<Slot>)
    ensures expanded == Expand(packets, cap)
  {
    if packets == [] {
      return [];
    }
    expanded := [];
    var previous: Option<Seq16> := None;
    var i := 0;
    while i < |packets|
      invariant 0 <= i <= |packets|
      invariant expanded == Expand(packets[..i], cap)
      invariant previous == PreviousSequence(packets[..i])
    {
      var packet := packets[i];
      ExpandStep(packets, i, cap);
      expanded := FillBefore(expanded, previous, packet, cap);
      expanded := expanded + [Real(packet)];
      previous := Some(packet.sequence);
      i := i + 1;
    }
    assert packets[..i] == packets;
  }

  // ---------- nothing real is lost ----------

  function RealPackets(slots: seq<Slot>): seq<Packet> {
    if slots == [] then []
    else
      var s := slots[|slots| - 1];
      RealPackets(slots[..|slots| - 1]) + (if s.Real? then [s.packet] else [])
  }

  lemma {:induction false} FakesAddNoPacket(slots: seq<Slot>, fakes: seq<Slot>)
    requires forall k :: 0 <= k < |fakes| ==> fakes[k].Fake?
    ensures RealPackets(slots + fakes) == RealPackets(slots)
    decreases |fakes|
  {
    if fakes == [] {
      assert slots + fakes == slots;
    } else {
      var n := |fakes| - 1;
      assert (slots + fakes)[..|slots + fakes| - 1] == slots + fakes[..n];
      FakesAddNoPacket(slots, fakes[..n]);
    }
  }

  lemma {:induction false} DroppingFakesGivesBack(packets: seq<Packet>, cap: nat)
    ensures RealPackets(Expand(packets, cap)) == packets
    decreases |packets|
  {
    if packets == [] {
    } else {
      var init, packet := packets[..|packets| - 1], packets[|packets| - 1];
      DroppingFakesGivesBack(init, cap);
      var fakes := FakesBefore(PreviousSequence(init), packet, cap);
      FakesAddNoPacket(Expand(init, cap), fakes);
      var all := Expand(packets, cap);
      assert all[..|all| - 1] == Expand(init, cap) + fakes;
      assert packets == init + [packet];
    }
  }

  // ---------- no number is used twice ----------

  ghost predicate SlotsIncrease(slots: seq<Slot>, anchor: Seq16) {
    forall i, j :: 0 <= i < j < |slots| ==> Delta(slots[i].Sequence(), anchor) < Delta(slots[j].Sequence(), anchor)
  }

  lemma EndsInLast(packets: seq<Packet>, cap: nat)
    requires packets != []
    ensures var e := Expand(packets, cap); e != [] && e[|e| - 1] == Real(packets[|packets| - 1])
  {
  }

  // The fakes in front of a packet lie between it and the packet before, one after the other.
  lemma FakesLieBetween(last: Seq16, packet: Packet, anchor: Seq16, cap: nat)
    requires Delta(last, anchor) < Delta(packet.sequence, anchor)
    ensures var fakes := FakesBefore(Some(last), packet, cap);
            && (forall k :: 0 <= k < |fakes| ==> Delta(fakes[k].Sequence(), anchor) == Delta(last, anchor) + k + 1)
            && Delta(last, anchor) + |fakes| < Delta(packet.sequence, anchor)
  {
    GapBetween(anchor, last, packet.sequence);
    var fakes := FakesBefore(Some(last), packet, cap);
    forall k | 0 <= k < |fakes|
      ensures Delta(fakes[k].Sequence(), anchor) == Delta(last, anchor) + k + 1
    {
      DeltaFrom(anchor, last, k + 1);
    }
  }

  lemma {:induction false} ExpansionIncreases(packets: seq<Packet>, anchor: Seq16, cap: nat)
    requires Increasing(packets, anchor)
    ensures SlotsIncrease(Expand(packets, cap), anchor)
    decreases |packets|
  {
    if |packets| <= 1 {
      assert packets != [] ==> Expand(packets[..0], cap) == [];
    } else {
      var n := |packets| - 1;
      var init, last, packet := packets[..n], packets[n - 1], packets[n];
      ExpansionIncreases(init, anchor, cap);
      EndsInLast(init, cap);
      assert init[n - 1] == last && PreviousSequence(init) == Some(last.sequence);
      PacketAppended(Expand(init, cap), last.sequence, packet, anchor, cap);
    }
  }

  // One more packet with its fakes in front keeps the order.
  lemma PacketAppended(slots: seq<Slot>, last: Seq16, packet: Packet, anchor: Seq16, cap: nat)
    requires slots != [] && SlotsIncrease(slots, anchor) && slots[|slots| - 1].Sequence() == last
    requires Delta(last, anchor) < Delta(packet.sequence, anchor)
    ensures SlotsIncrease(slots + FakesBefore(Some(last), packet, cap) + [Real(packet)], anchor)
  {
    var fakes, closing := FakesBefore(Some(last), packet, cap), Real(packet);
    assert closing.Sequence() == packet.sequence;
    FakesLieBetween(last, packet, anchor, cap);
    Appended(slots, fakes, closing, anchor, Delta(last, anchor));
  }

  lemma Appended(slots: seq<Slot>, fakes: seq<Slot>, closing: Slot, anchor: Seq16, base: nat)
    requires slots != [] && SlotsIncrease(slots, anchor) && Delta(slots[|slots| - 1].Sequence(), anchor) == base
    requires forall k :: 0 <= k < |fakes| ==> Delta(fakes[k].Sequence(), anchor) == base + k + 1
    requires base + |fakes| < Delta(closing.Sequence(), anchor)
    ensures SlotsIncrease(slots + fakes + [closing], anchor)
  {
    var all := slots + fakes + [closing];
    assert forall i :: 0 <= i < |slots| ==> all[i] == slots[i] && Delta(slots[i].Sequence(), anchor) <= base;
    assert forall k :: 0 <= k < |fakes| ==> all[|slots| + k] == fakes[k];
    forall i, j | 0 <= i < j < |all|
      ensures Delta(all[i].Sequence(), anchor) < Delta(all[j].Sequence(), anchor)
    {
      assert i >= |slots| ==> all[i] == fakes[i - |slots|];
      assert |slots| <= j < |all| - 1 ==> all[j] == fakes[j - |slots|];
    }
  }

  lemma SlotsDiffer(slots: seq<Slot>, anchor: Seq16, i: nat, j: nat)
    requires SlotsIncrease(slots, anchor) && i < |slots| && j < |slots|
    ensures i == j || slots[i].Sequence() != slots[j].Sequence()
  {
  }

  // No fake shares its number with a real packet or with another fake.
  lemma NoCollision(packets: seq<Packet>, anchor: Seq16, cap: nat)
    requires Increasing(packets, anchor)
    ensures var e := Expand(packets, cap);
            forall i, j :: 0 <= i < |e| && 0 <= j < |e| && e[i].Sequence() == e[j].Sequence() ==> i == j
  {
    ExpansionIncreases(packets, anchor, cap);
    var e := Expand(packets, cap);
    forall i, j | 0 <= i < |e| && 0 <= j < |e| && e[i].Sequence() == e[j].Sequence()
      ensures i == j
    {
      SlotsDiffer(e, anchor, i, j);
    }
  }

  // ---------- which numbers are concealed ----------

  ghost predicate Concealed(slots: seq<Slot>, s: Seq16) {
    exists i :: 0 <= i < |slots| && slots[i].Fake? && slots[i].Sequence() == s
  }

  // `s` is the `step`-th number missing after packet `k`, and within the cap.
  ghost predicate MissingNear(packets: seq<Packet>, cap: nat, s: Seq16, k: nat, step: nat) {
    && k + 1 < |packets|
    && 1 <= step <= SequenceGap(Some(packets[k].sequence), packets[k + 1].sequence) && step <= cap
    && s == Advance(packets[k].sequence, step)
  }

  ghost predicate Missing(packets: seq<Packet>, cap: nat, s: Seq16) {
    exists k: nat, step: nat :: MissingNear(packets, cap, s, k, step)
  }

  lemma ConcealedJoin(slots: seq<Slot>, fakes: seq<Slot>, packet: Packet, s: Seq16)
    ensures Concealed(slots + fakes + [Real(packet)], s) <==> Concealed(slots, s) || Concealed(fakes, s)
  {
    var e := slots + fakes + [Real(packet)];
    if Concealed(e, s) {
      var i :| 0 <= i < |e| && e[i].Fake? && e[i].Sequence() == s;
      assert if i < |slots| then e[i] == slots[i] else e[i] == fakes[i - |slots|];
    }
    if Concealed(slots, s) {
      var i :| 0 <= i < |slots| && slots[i].Fake? && slots[i].Sequence() == s;
      assert e[i] == slots[i];
    } else if Concealed(fakes, s) {
      var i :| 0 <= i < |fakes| && fakes[i].Fake? && fakes[i].Sequence() == s;
      assert e[|slots| + i] == fakes[i];
    }
  }

  lemma MissingJoin(packets: seq<Packet>, cap: nat, s: Seq16)
    requires |packets| >= 2
    ensures var init := packets[..|packets| - 1];
            Missing(packets, cap, s) <==>
            Missing(init, cap, s) || Concealed(FakesBefore(PreviousSequence(init), packets[|packets| - 1], cap), s)
  {
    var n := |packets| - 1;
    var init := packets[..n];
    var fakes := FakesBefore(PreviousSequence(init), packets[n], cap);
    if Missing(packets, cap, s) {
      var k: nat, step: nat :| MissingNear(packets, cap, s, k, step);
      if k + 1 < n {
        assert MissingNear(init, cap, s, k, step);
      } else {
        assert fakes[step - 1].Sequence() == s;
      }
    }
    if Missing(init, cap, s) {
      var k: nat, step: nat :| MissingNear(init, cap, s, k, step);
      assert MissingNear(packets, cap, s, k, step);
    } else if Concealed(fakes, s) {
      var i :| 0 <= i < |fakes| && fakes[i].Fake? && fakes[i].Sequence() == s;
      assert MissingNear(packets, cap, s, n - 1, i + 1);
    }
  }

  // Exactly the first `cap` missing numbers of each gap are concealed.
  lemma {:induction false} ConcealedExactly(packets: seq<Packet>, cap: nat, s: Seq16)
    ensures Concealed(Expand(packets, cap), s) <==> Missing(packets, cap, s)
    decreases |packets|
  {
    if |packets| <= 1 {
      assert packets != [] ==> Expand(packets[..0], cap) == [];
    } else {
      var n := |packets| - 1;
      var init, packet := packets[..n], packets[n];
      ConcealedExactly(init, cap, s);
      ConcealedJoin(Expand(init, cap), FakesBefore(PreviousSequence(init), packet, cap), packet, s);
      MissingJoin(packets, cap, s);
    }
  }

  // ---------- neighbours ----------

  // A fake is followed by another of the same gap or by the packet it stands before,
  // carries that packet's source and time, and is the FEC candidate exactly in the latter case.
  ghost predicate WellPlaced(slots: seq<Slot>) {
    forall i :: 0 <= i < |slots| ==> WellPlacedAt(slots, i)
  }

  predicate WellPlacedAt(slots: seq<Slot>, i: nat)
    requires i < |slots|
  {
    && (slots[i].Fake? ==>
          && i + 1 < |slots|
          && slots[i + 1].Ssrc() == slots[i].Ssrc() && slots[i + 1].Timestamp() == slots[i].Timestamp())
    && (slots[i].IsFec() <==> slots[i].Fake? && i + 1 < |slots| && slots[i + 1].Real?)
  }

  lemma WellPlacedJoin(slots: seq<Slot>, previous: Option<Seq16>, packet: Packet, cap: nat)
    requires WellPlaced(slots) && (slots != [] ==> slots[|slots| - 1].Real?)
    ensures WellPlaced(slots + FakesBefore(previous, packet, cap) + [Real(packet)])
  {
    var m := |slots|;
    var fakes := FakesBefore(previous, packet, cap);
    var e := slots + fakes + [Real(packet)];
    forall i | 0 <= i < |e|
      ensures WellPlacedAt(e, i)
    {
      if i < m {
        assert WellPlacedAt(slots, i) && e[i] == slots[i];
        if i + 1 < m {
          assert e[i + 1] == slots[i + 1];
        }
      } else if i < m + |fakes| {
        assert e[i] == fakes[i - m];
        assert e[i + 1] == if i + 1 < m + |fakes| then fakes[i + 1 - m] else Real(packet);
      }
    }
  }

  lemma {:induction false} FakesAreWellPlaced(packets: seq<Packet>, cap: nat)
    ensures WellPlaced(Expand(packets, cap))
    decreases |packets|
  {
    if packets == [] {
    } else {
      var init := packets[..|packets| - 1];
      FakesAreWellPlaced(init, cap);
      if init != [] {
        EndsInLast(init, cap);
      }
      WellPlacedJoin(Expand(init, cap), PreviousSequence(init), packets[|packets| - 1], cap);
    }
  }

  ghost predicate Contiguous(slots: seq<Slot>) {
    forall i :: 0 <= i < |slots| - 1 ==> slots[i + 1].Sequence() == Advance(slots[i].Sequence(), 1)
  }

  ghost predicate GapsWithin(packets: seq<Packet>, cap: nat) {
    forall k :: 0 <= k < |packets| - 1 ==> SequenceGap(Some(packets[k].sequence), packets[k + 1].sequence) <= cap
  }

  // The expansion is gapless exactly when every gap is within the cap.
  lemma {:induction false} ContiguousExactlyWithinCap(packets: seq<Packet>, cap: nat)
    ensures Contiguous(Expand(packets, cap)) <==> GapsWithin(packets, cap)
    decreases |packets|
  {
    if |packets| <= 1 {
      assert packets != [] ==> Expand(packets[..0], cap) == [];
    } else {
      var n := |packets| - 1;
      var init, packet := packets[..n], packets[n];
      ContiguousExactlyWithinCap(init, cap);
      EndsInLast(init, cap);
      GapStep(packets, cap);
      JoinStep(Expand(init, cap), init[n - 1].sequence, packet, cap);
    }
  }

  lemma GapStep(packets: seq<Packet>, cap: nat)
    requires |packets| >= 2
    ensures var n := |packets| - 1;
            GapsWithin(packets, cap) <==>
            GapsWithin(packets[..n], cap) && SequenceGap(Some(packets[n - 1].sequence), packets[n].sequence) <= cap
  {
    var n := |packets| - 1;
    var init := packets[..n];
    if GapsWithin(packets, cap) {
      forall k | 0 <= k < |init| - 1
        ensures SequenceGap(Some(init[k].sequence), init[k + 1].sequence) <= cap
      {
        assert init[k] == packets[k] && init[k + 1] == packets[k + 1];
      }
    }
    if GapsWithin(init, cap) && SequenceGap(Some(packets[n - 1].sequence), packets[n].sequence) <= cap {
      forall k | 0 <= k < |packets| - 1
        ensures SequenceGap(Some(packets[k].sequence), packets[k + 1].sequence) <= cap
      {
        assert k + 1 < n ==> init[k] == packets[k] && init[k + 1] == packets[k + 1];
      }
    }
  }

  lemma ContiguousJoin(a: seq<Slot>, b: seq<Slot>)
    requires a != [] && b != []
    ensures Contiguous(a + b) <==>
            Contiguous(a) && Contiguous(b) && b[0].Sequence() == Advance(a[|a| - 1].Sequence(), 1)
  {
    var e := a + b;
    if Contiguous(e) {
      assert e[|a|] == b[0] && e[|a| - 1] == a[|a| - 1];
      forall i | 0 <= i < |a| - 1
        ensures a[i + 1].Sequence() == Advance(a[i].Sequence(), 1)
      {
        assert e[i] == a[i] && e[i + 1] == a[i + 1];
      }
      forall i | 0 <= i < |b| - 1
        ensures b[i + 1].Sequence() == Advance(b[i].Sequence(), 1)
      {
        assert e[|a| + i] == b[i] && e[|a| + i + 1] == b[i + 1];
      }
    }
    if Contiguous(a) && Contiguous(b) && b[0].Sequence() == Advance(a[|a| - 1].Sequence(), 1) {
      forall i | 0 <= i < |e| - 1
        ensures e[i + 1].Sequence() == Advance(e[i].Sequence(), 1)
      {
        if i + 1 < |a| {
          assert e[i] == a[i] && e[i + 1] == a[i + 1];
        } else if i >= |a| {
          assert e[i] == b[i - |a|] && e[i + 1] == b[i + 1 - |a|];
        }
      }
    }
  }

  lemma RunFrom(base: Seq16, gap: nat, n: nat, run: seq<Slot>)
    requires gap < MODULUS && n <= gap && |run| == n + 1
    requires forall i :: 0 <= i < n ==> run[i].Sequence() == Advance(base, i + 1)
    requires run[n].Sequence() == Advance(base, gap + 1)
    ensures Contiguous(run) && run[0].Sequence() == Advance(base, 1) <==> n == gap
  {
    if n == gap {
      forall i | 0 <= i < |run| - 1
        ensures run[i + 1].Sequence() == Advance(run[i].Sequence(), 1)
      {
        AdvanceTwice(base, i + 1);
      }
    } else if n > 0 {
      AdvanceTwice(base, n);
      BreakAfterRun(run, n);
    }
  }

  lemma BreakAfterRun(run: seq<Slot>, n: nat)
    requires 0 < n < |run| && run[n].Sequence() != Advance(run[n - 1].Sequence(), 1)
    ensures !Contiguous(run)
  {
    assert run[(n - 1) + 1] == run[n];
  }

  lemma AdvanceTwice(base: Seq16, steps: nat)
    ensures Advance(Advance(base, steps), 1) == Advance(base, steps + 1)
  {
  }

  // The slots of one gap run on from `base` without a break exactly when the cap covers it.
  lemma GapRun(base: Seq16, packet: Packet, cap: nat)
    ensures var run := FakesBefore(Some(base), packet, cap) + [Real(packet)];
            Contiguous(run) && run[0].Sequence() == Advance(base, 1) <==>
            SequenceGap(Some(base), packet.sequence) <= cap
  {
    var gap := SequenceGap(Some(base), packet.sequence);
    var n := Fill(gap, cap);
    var run := FakesBefore(Some(base), packet, cap) + [Real(packet)];
    RunFrom(base, gap, n, run);
  }

  lemma JoinStep(slots: seq<Slot>, base: Seq16, packet: Packet, cap: nat)
    requires slots != [] && slots[|slots| - 1].Sequence() == base
    ensures Contiguous(slots + FakesBefore(Some(base), packet, cap) + [Real(packet)]) <==>
            Contiguous(slots) && SequenceGap(Some(base), packet.sequence) <= cap
  {
    var run := FakesBefore(Some(base), packet, cap) + [Real(packet)];
    GapRun(base, packet, cap);
    ContiguousJoin(slots, run);
    assert slots + run == slots + FakesBefore(Some(base), packet, cap) + [Real(packet)];
  }

  // ---------- the utterance pipeline ----------

  // Ordering an arbitrary packet list and filling its gaps: every survivor comes out once,
  // and the slots stand in strictly increasing circular distance from the anchor.
  method OrderAndExpand(packets: seq<Packet>, firstSequence: Seq16, cap: nat) returns (slots: seq<Slot>)
    ensures Lists(RealPackets(slots), Survivors(packets), firstSequence)
    ensures SlotsIncrease(slots, firstSequence) && WellPlaced(slots)
    ensures Contiguous(slots) <==> GapsWithin(RealPackets(slots), cap)
    ensures forall s: Seq16 :: Concealed(slots, s) <==>
              Missing(RealPackets(slots), cap, s)
  {
    var normalized := OrderedUniquePackets(packets, Some(firstSequence));
    slots := ExpandPacketsWithFakes(normalized, cap);
    DroppingFakesGivesBack(normalized, cap);
    ExpansionIncreases(normalized, firstSequence, cap);
    FakesAreWellPlaced(normalized, cap);
    ContiguousExactlyWithinCap(normalized, cap);
    forall s: Seq16
      ensures Concealed(slots, s) <==> Missing(RealPackets(slots), cap, s)
    {
      ConcealedExactly(normalized, cap, s);
    }
  }
}
