// RTP sequence numbers: 16 bits, compared around the circle from an anchor.
module Sequence16 {
  import opened Wrappers

  const MODULUS: nat := 0x1_0000

  type Seq16 = n: nat | n < MODULUS witness 0

  // The circular distance from `anchor` forward to `sequence`.
  function Delta(sequence: Seq16, anchor: Seq16): (d: Seq16)
    ensures d == if anchor <= sequence then sequence - anchor else sequence - anchor + 65536
  {
    (sequence - anchor) % MODULUS
  }

  // The number `steps` positions after `sequence`.
  function Advance(sequence: Seq16, steps: nat): Seq16 {
    (sequence + steps) % MODULUS
  }

  // How many sequence numbers are missing between two neighbours.
  function SequenceGap(previous: Option<Seq16>, current: Seq16): (gap: nat)
    ensures gap < MODULUS
    ensures previous == None ==> gap == 0
    ensures previous.Some? ==> Advance(previous.value, gap + 1) == current
  {
    match previous
    case None => 0
    case Some(p) => (current - p - 1) % MODULUS
  }

  lemma DeltaInjective(s: Seq16, t: Seq16, anchor: Seq16)
    requires Delta(s, anchor) == Delta(t, anchor)
    ensures s == t
  {
  }

  lemma DeltaAdvance(anchor: Seq16, steps: nat)
    requires steps < MODULUS
    ensures Delta(Advance(anchor, steps), anchor) == steps
  {
  }

  // Walking from `base` moves the distance from an earlier anchor by as much, up to the wrap.
  lemma DeltaFrom(anchor: Seq16, base: Seq16, steps: nat)
    requires Delta(base, anchor) + steps < MODULUS
    ensures Delta(Advance(base, steps), anchor) == Delta(base, anchor) + steps
  {
  }

  // Moving the anchor forward past `p` keeps the order of everything beyond `p`.
  lemma MoveAnchor(anchor: Seq16, p: Seq16, s: Seq16)
    requires Delta(p, anchor) < Delta(s, anchor)
    ensures Delta(s, Advance(p, 1)) == Delta(s, anchor) - Delta(p, anchor) - 1
  {
  }

  lemma GapBetween(anchor: Seq16, p: Seq16, s: Seq16)
    requires Delta(p, anchor) < Delta(s, anchor)
    ensures SequenceGap(Some(p), s) == Delta(s, anchor) - Delta(p, anchor) - 1
  {
  }
}
