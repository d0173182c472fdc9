// De-duplication and ordering of an utterance's packets, and the concealment
// slots put into the gaps between them.
module PacketOrder {
  import opened Wrappers
  import opened Sequence16

  datatype Packet = Packet(
    ssrc: nat,
    sequence: Seq16,
    timestamp: nat,
    payload: seq<Byte>,
    rawPacket: Option<seq<Byte>>,
    receivedAt: Option<real>)

  // ---------- which of two packets with one sequence number survives ----------

  // The order of preference: a raw packet first, then the longer payload.
  predicate AtLeastAsGood(p: Packet, q: Packet) {
    if p.rawPacket.Some? == q.rawPacket.Some? then |p.payload| >= |q.payload| else p.rawPacket.Some?
  }

  // The packet kept for each sequence number after the arrivals in order.
  function Survivors(packets: seq<Packet>): map<Seq16, Packet> {
    if packets == [] then map[]
    else
      var earlier := Survivors(packets[..|packets| - 1]);
      var p := packets[|packets| - 1];
      if p.sequence in earlier && !AtLeastAsGood(p, earlier[p.sequence]) then earlier
      else earlier[p.sequence := p]
  }

  ghost predicate Seen(packets: seq<Packet>, s: Seq16) {
    exists i :: 0 <= i < |packets| && packets[i].sequence == s
  }

  // `p` is a better packet than `q`: it alone is raw, or both are or neither and its payload is longer.
  ghost predicate Beats(p: Packet, q: Packet) {
    if p.rawPacket.Some? && q.rawPacket == None then true
    else if p.rawPacket == None && q.rawPacket.Some? then false
    else |p.payload| > |q.payload|
  }

  // `p` is the last of the best packets with its sequence number.
  ghost predicate LastBest(packets: seq<Packet>, i: nat, p: Packet) {
    && i < |packets|
    && packets[i] == p
    && forall j :: 0 <= j < |packets| && packets[j].sequence == p.sequence ==>
         !Beats(packets[j], p) && (i < j ==> Beats(p, packets[j]))
  }

  ghost predicate Best(packets: seq<Packet>, p: Packet) {
    exists i: nat :: LastBest(packets, i, p)
  }

  // The incremental rule keeps, for exactly the sequence numbers seen, the last best packet.
  lemma {:induction false} SurvivorIsLastBest(packets: seq<Packet>, s: Seq16)
    ensures s in Survivors(packets) <==> Seen(packets, s)
    ensures s in Survivors(packets) ==>
              Survivors(packets)[s].sequence == s && Best(packets, Survivors(packets)[s])
    decreases |packets|
  {
    if packets == [] {
    } else {
      var n := |packets| - 1;
      var init, p := packets[..n], packets[n];
      SurvivorIsLastBest(init, s);
      SeenStep(packets, s);
      if s in Survivors(init) && (s != p.sequence || !AtLeastAsGood(p, Survivors(init)[s])) {
        var i: nat :| LastBest(init, i, Survivors(init)[s]);
        assert LastBest(packets, i, Survivors(packets)[s]);
      } else if s == p.sequence {
        assert Survivors(packets)[s] == p;
        NewBest(packets, if s in Survivors(init) then Survivors(init)[s] else p);
      }
    }
  }

  lemma SeenStep(packets: seq<Packet>, s: Seq16)
    requires packets != []
    ensures Seen(packets, s) <==> Seen(packets[..|packets| - 1], s) || packets[|packets| - 1].sequence == s
  {
    var init := packets[..|packets| - 1];
    if Seen(init, s) {
      var i :| 0 <= i < |init| && init[i].sequence == s;
      assert packets[i].sequence == s;
    }
    if i :| 0 <= i < |packets| && packets[i].sequence == s {
      assert i < |init| ==> init[i].sequence == s;
    }
  }

  lemma NewBest(packets: seq<Packet>, q: Packet)
    requires packets != []
    requires var init, p := packets[..|packets| - 1], packets[|packets| - 1];
             Seen(init, p.sequence) ==> q.sequence == p.sequence && Best(init, q) && AtLeastAsGood(p, q)
    ensures LastBest(packets, |packets| - 1, packets[|packets| - 1])
  {
    var n := |packets| - 1;
    var init, p := packets[..n], packets[n];
    forall j | 0 <= j < n && packets[j].sequence == p.sequence
      ensures AtLeastAsGood(p, packets[j])
    {
      assert init[j].sequence == p.sequence;
      var i: nat :| LastBest(init, i, q);
      assert AtLeastAsGood(q, init[j]);
    }
  }

  // ---------- ordering ----------

  ghost predicate Increasing(packets: seq<Packet>, anchor: Seq16) {
    forall i, j :: 0 <= i < j < |packets| ==> Delta(packets[i].sequence, anchor) < Delta(packets[j].sequence, anchor)
  }

  // `out` lists exactly the packets kept in `kept`, by circular distance from `anchor`.
  ghost predicate Lists(out: seq<Packet>, kept: map<Seq16, Packet>, anchor: Seq16) {
    && Increasing(out, anchor)
    && (forall k :: 0 <= k < |out| ==> out[k].sequence in kept && kept[out[k].sequence] == out[k])
    && (forall s :: s in kept ==> Seen(out, s))
  }

  // The anchor used when the caller gives none is the first packet's number.
  function AnchorOf(packets: seq<Packet>, anchorSequence: Option<Seq16>): Seq16 {
    match anchorSequence
    case Some(a) => a
    case None => if packets == [] then 0 else packets[0].sequence
  }

  ghost predicate IsLeast(s: set<Seq16>, m: Seq16) {
    m in s && forall k :: k in s ==> m <= k
  }

  lemma {:induction false} LeastExists(s: set<Seq16>) returns (m: Seq16)
    requires s != {}
    ensures IsLeast(s, m)
    decreases |s|
  {
    var first :| first in s;
    var rest := s - {first};
    m := first;
    if rest != {} {
      var other := LeastExists(rest);
      m := if other < first then other else first;
    }
    assert s == rest + {first};
  }

  function Least(s: set<Seq16>): (m: Seq16)
    requires s != {}
    ensures IsLeast(s, m)
  {
    assert exists m :: IsLeast(s, m) by { var m := LeastExists(s); }
    var m :| m in s && forall k :: k in s ==> m <= k;
    m
  }

  // The ascending list of a set of keys.
  function SortedKeys(s: set<Seq16>): (keys: seq<Seq16>)
    ensures forall i, j :: 0 <= i < j < |keys| ==> keys[i] < keys[j]
    ensures forall k :: k in keys <==> k in s
    decreases |s|
  {
    if s == {} then [] else
      var m := Least(s);
      var rest := SortedKeys(s - {m});
      assert forall k :: k in rest ==> k in s - {m};
      [m] + rest
  }

  // The packets filed under their circular distance from `anchor`.
  ghost predicate FiledByDelta(ordered: map<Seq16, Packet>, kept: map<Seq16, Packet>, anchor: Seq16) {
    && (forall s :: s in kept ==> kept[s].sequence == s && Delta(s, anchor) in ordered)
    && (forall d :: d in ordered ==>
          && ordered[d].sequence in kept && ordered[d] == kept[ordered[d].sequence]
          && Delta(ordered[d].sequence, anchor) == d)
  }

  lemma FileStep(packets: seq<Packet>, i: nat, ordered: map<Seq16, Packet>, anchor: Seq16)
    requires i < |packets| && FiledByDelta(ordered, Survivors(packets[..i]), anchor)
    ensures var p := packets[i];
            var d := Delta(p.sequence, anchor);
            FiledByDelta(if d in ordered && !AtLeastAsGood(p, ordered[d]) then ordered else ordered[d := p],
                         Survivors(packets[..i + 1]), anchor)
  {
    assert packets[..i + 1][..i] == packets[..i];
  }

  method OrderedUniquePackets(packets: seq<Packet>, anchorSequence: Option<Seq16>) returns (out: seq<Packet>)
    ensures Lists(out, Survivors(packets), AnchorOf(packets, anchorSequence))
    ensures anchorSequence.Some? ==> Lists(out, Survivors(packets), anchorSequence.value)
    ensures anchorSequence == None && packets != [] ==> Lists(out, Survivors(packets), packets[0].sequence)
  {
    if |packets| <= 1 {
      assert packets != [] ==> Survivors(packets[..0]) == map[];
      return packets;
    }
    var anchor := if anchorSequence == None then packets[0].sequence else anchorSequence.value;
    var ordered: map<Seq16, Packet> := map[];
    var i := 0;
    while i < |packets|
      invariant 0 <= i <= |packets|
      invariant FiledByDelta(ordered, Survivors(packets[..i]), anchor)
    {
      FileStep(packets, i, ordered, anchor);
      var packet := packets[i];
      var delta := Delta(packet.sequence, anchor);
      if delta !in ordered {
        ordered := ordered[delta := packet];
      } else {
        var existing := ordered[delta];
        if packet.rawPacket.Some? && !existing.rawPacket.Some? {
          ordered := ordered[delta := packet];
        } else if packet.rawPacket.Some? == existing.rawPacket.Some? && |packet.payload| >= |existing.payload| {
          ordered := ordered[delta := packet];
        }
      }
      i := i + 1;
    }
    assert packets[..i] == packets;
    out := InKeyOrder(ordered, Survivors(packets), anchor);
  }

  function InKeyOrder(ordered: map<Seq16, Packet>, ghost kept: map<Seq16, Packet>,
                      ghost anchor: Seq16): (out: seq<Packet>)
    requires FiledByDelta(ordered, kept, anchor)
    ensures Lists(out, kept, anchor)
  {
    var keys := SortedKeys(ordered.Keys);
    assert forall k :: 0 <= k < |keys| ==> keys[k] in ordered;
    var out := seq(|keys|, k requires 0 <= k < |keys| => ordered[keys[k]]);
    InKeyOrderLists(ordered, kept, anchor, keys, out);
    out
  }

  lemma InKeyOrderLists(ordered: map<Seq16, Packet>, kept: map<Seq16, Packet>, anchor: Seq16,
                        keys: seq<Seq16>, out: seq<Packet>)
    requires FiledByDelta(ordered, kept, anchor)
    requires forall i, j :: 0 <= i < j < |keys| ==> keys[i] < keys[j]
    requires forall d :: d in ordered ==> d in keys
    requires |out| == |keys| && forall k :: 0 <= k < |keys| ==> keys[k] in ordered && out[k] == ordered[keys[k]]
    ensures Lists(out, kept, anchor)
  {
    assert forall k :: 0 <= k < |out| ==> Delta(out[k].sequence, anchor) == keys[k];
    forall s | s in kept
      ensures Seen(out, s)
    {
      var k :| 0 <= k < |keys| && keys[k] == Delta(s, anchor);
      DeltaInjective(out[k].sequence, s, anchor);
    }
  }

  // The listing is determined by what is kept and the anchor.
  lemma {:induction false} ListingIsUnique(a: seq<Packet>, b: seq<Packet>, kept: map<Seq16, Packet>, anchor: Seq16)
    requires Lists(a, kept, anchor) && Lists(b, kept, anchor)
    ensures a == b
    decreases |a|
  {
    if a == [] {
      NothingKept(b, kept, anchor);
    } else {
      LastAgree(a, b, kept, anchor);
      var n, m := |a| - 1, |b| - 1;
      DropLast(a, kept, anchor);
      DropLast(b, kept, anchor);
      ListingIsUnique(a[..n], b[..m], kept - {a[n].sequence}, anchor);
      assert a == a[..n] + [a[n]] && b == b[..m] + [b[m]];
    }
  }

  lemma NothingKept(a: seq<Packet>, kept: map<Seq16, Packet>, anchor: Seq16)
    requires Lists(a, kept, anchor)
    ensures a == [] <==> kept == map[]
  {
    if a != [] {
      assert a[0].sequence in kept;
    } else {
      assert forall s :: s in kept ==> Seen(a, s);
      assert forall s :: s !in kept;
    }
  }

  lemma BehindLast(a: seq<Packet>, anchor: Seq16, i: nat)
    requires i < |a| && Increasing(a, anchor)
    ensures i == |a| - 1 || Delta(a[i].sequence, anchor) < Delta(a[|a| - 1].sequence, anchor)
  {
  }

  lemma LastIsFurthest(a: seq<Packet>, kept: map<Seq16, Packet>, anchor: Seq16, s: Seq16)
    requires a != [] && Lists(a, kept, anchor) && s in kept
    ensures var last := a[|a| - 1].sequence;
            last in kept && kept[last] == a[|a| - 1] && Delta(s, anchor) <= Delta(last, anchor)
  {
    assert Seen(a, s);
    var i :| 0 <= i < |a| && a[i].sequence == s;
    BehindLast(a, anchor, i);
  }

  lemma LastAgree(a: seq<Packet>, b: seq<Packet>, kept: map<Seq16, Packet>, anchor: Seq16)
    requires a != [] && Lists(a, kept, anchor) && Lists(b, kept, anchor)
    ensures b != [] && a[|a| - 1] == b[|b| - 1]
  {
    NothingKept(a, kept, anchor);
    NothingKept(b, kept, anchor);
    var s, t := a[|a| - 1].sequence, b[|b| - 1].sequence;
    LastIsFurthest(a, kept, anchor, s);
    LastIsFurthest(b, kept, anchor, s);
    LastIsFurthest(a, kept, anchor, t);
    DeltaInjective(s, t, anchor);
  }

  lemma DropLast(a: seq<Packet>, kept: map<Seq16, Packet>, anchor: Seq16)
    requires a != [] && Lists(a, kept, anchor)
    ensures Lists(a[..|a| - 1], kept - {a[|a| - 1].sequence}, anchor)
  {
    forall s | s in kept && s != a[|a| - 1].sequence
      ensures Seen(a[..|a| - 1], s)
    {
      SeenStep(a, s);
    }
  }

  lemma {:induction false} SurvivorsOfIncreasing(packets: seq<Packet>, anchor: Seq16)
    requires Increasing(packets, anchor)
    ensures Lists(packets, Survivors(packets), anchor)
    decreases |packets|
  {
    if packets == [] {
    } else {
      var n := |packets| - 1;
      var init, p := packets[..n], packets[n];
      SurvivorsOfIncreasing(init, anchor);
      NewestIsUnseen(packets, anchor);
      SurvivorIsLastBest(init, p.sequence);
      ListsNew(init, p, Survivors(init), anchor);
      assert packets == init + [p];
    }
  }

  lemma NewestIsUnseen(packets: seq<Packet>, anchor: Seq16)
    requires packets != [] && Increasing(packets, anchor)
    ensures !Seen(packets[..|packets| - 1], packets[|packets| - 1].sequence)
  {
  }

  lemma ListsNew(init: seq<Packet>, p: Packet, kept: map<Seq16, Packet>, anchor: Seq16)
    requires Lists(init, kept, anchor) && Increasing(init + [p], anchor) && p.sequence !in kept
    ensures Lists(init + [p], kept[p.sequence := p], anchor)
  {
    var out := init + [p];
    forall s | s in kept[p.sequence := p]
      ensures Seen(out, s)
    {
      if s == p.sequence {
        assert out[|init|].sequence == s;
      } else {
        var i :| 0 <= i < |init| && init[i].sequence == s;
        assert out[i].sequence == s;
      }
    }
  }

  // Ordering a second time changes nothing, with the same anchor or with none given.
  lemma OrderingIsIdempotent(packets: seq<Packet>, anchorSequence: Option<Seq16>, once: seq<Packet>, twice: seq<Packet>)
    requires Lists(once, Survivors(packets), AnchorOf(packets, anchorSequence))
    requires Lists(twice, Survivors(once), AnchorOf(once, anchorSequence))
    ensures twice == once
  {
    var anchor := AnchorOf(packets, anchorSequence);
    SurvivorsOfIncreasing(once, anchor);
    if packets == [] {
      NothingKept(once, Survivors(packets), anchor);
      NothingKept(twice, Survivors(once), AnchorOf(once, anchorSequence));
    } else {
      if anchorSequence == None {
        assert Seen(packets, packets[0].sequence);
        SurvivorIsLastBest(packets, packets[0].sequence);
        var k :| 0 <= k < |once| && once[k].sequence == packets[0].sequence;
        assert Delta(once[k].sequence, anchor) == 0;
        assert k == 0;
      } else if once == [] {
        assert Seen(packets, packets[0].sequence);
        SurvivorIsLastBest(packets, packets[0].sequence);
      }
      ListingIsUnique(once, twice, Survivors(once), anchor);
    }
  }
}
