// The footer of an end-to-end encrypted media frame: an authentication tag, a
// nonce and the unencrypted ranges as unsigned LEB128 numbers, the footer's
// size and a marker (DAVE protocol, section "Payload Format").
module DaveFrame {
  import opened Wrappers
  import opened Bits

  const MARKER: seq<Byte> := [0xFA, 0xFA]
  const TAG_SIZE: nat := 8
  const MAX_ULEB_BYTES: nat := 10

  // ---------- unsigned LEB128 ----------

  // The number at the front of `bytes` when `n` bytes of it are already read, and how many bytes it takes.
  function ReadFront(bytes: seq<Byte>, n: nat): Option<(nat, nat)>
    decreases |bytes|
  {
    if bytes == [] || n >= MAX_ULEB_BYTES then None
    else if bytes[0] < 128 then Some((bytes[0], 1))
    else
      match ReadFront(bytes[1..], n + 1)
      case None => None
      case Some((v, c)) => Some((bytes[0] - 128 + 128 * v, c + 1))
  }

  lemma {:induction false} ReadFrontBounds(bytes: seq<Byte>, n: nat)
    requires ReadFront(bytes, n).Some?
    ensures 1 <= ReadFront(bytes, n).value.1 <= |bytes|
    ensures n + ReadFront(bytes, n).value.1 <= MAX_ULEB_BYTES
    decreases |bytes|
  {
    if bytes[0] >= 128 {
      ReadFrontBounds(bytes[1..], n + 1);
    }
  }

  // The bytes from `start` up to `end`, none if `start` is past it.
  function Between(buf: seq<Byte>, start: nat, end: nat): seq<Byte>
    requires end <= |buf|
  {
    if start <= end then buf[start..end] else []
  }

  lemma DropFront(buf: seq<Byte>, start: nat, end: nat, c: nat)
    requires end <= |buf| && c <= |Between(buf, start, end)|
    ensures Between(buf, start, end)[c..] == Between(buf, start + c, end)
  {
  }

  function ReadAt(buf: seq<Byte>, start: nat, end: nat): Option<(nat, nat)>
    requires end <= |buf|
  {
    match ReadFront(Between(buf, start, end), 0)
    case None => None
    case Some((v, c)) => Some((v, start + c))
  }

  method ReadUleb128(buf: seq<Byte>, start: nat, end: nat) returns (r: Option<(nat, nat)>)
    requires end <= |buf|
    ensures r == ReadAt(buf, start, end)
  {
    var shift: nat, value: nat, index: nat := 0, 0, start;
    ghost var n: nat := 0;
    ghost var whole := ReadFront(Between(buf, start, end), 0);
    while index < end && shift <= 63
      invariant shift == 7 * n && value < Pow2(shift) && index == start + n
      invariant whole == Extended(ReadFront(Between(buf, index, end), n), value, shift, n)
      decreases end - index
    {
      UlebStep(buf, index, end, value, shift, n);
      var byte := buf[index];
      index := index + 1;
      value := Or(value, ShiftLeft(byte % 128, shift));
      if byte < 128 {
        return Some((value, index));
      }
      shift := shift + 7;
      n := n + 1;
    }
    return None;
  }

  // One more byte: its low seven bits go in above the bits already read.
  lemma UlebStep(buf: seq<Byte>, index: nat, end: nat, value: nat, shift: nat, n: nat)
    requires index < end <= |buf| && n < MAX_ULEB_BYTES && value < Pow2(shift)
    ensures var more := Or(value, ShiftLeft(buf[index] % 128, shift));
            && more < Pow2(shift + 7)
            && Extended(ReadFront(Between(buf, index, end), n), value, shift, n) ==
               if buf[index] < 128 then Some((more, n + 1))
               else Extended(ReadFront(Between(buf, index + 1, end), n + 1), more, shift + 7, n + 1)
  {
    DropFront(buf, index, end, 1);
    ExtendStep(Between(buf, index, end), value, shift, n);
    OrDisjoint(value, buf[index] % 128, shift);
  }

  // A number whose lower `shift` bits are already known, in front of the rest.
  function Extended(rest: Option<(nat, nat)>, value: nat, shift: nat, n: nat): Option<(nat, nat)> {
    match rest
    case None => None
    case Some((v, c)) => Some((value + ShiftLeft(v, shift), n + c))
  }

  lemma ExtendStep(rest: seq<Byte>, value: nat, shift: nat, n: nat)
    requires rest != [] && n < MAX_ULEB_BYTES && value < Pow2(shift)
    ensures var low := rest[0] % 128;
            var more := value + ShiftLeft(low, shift);
            && more < Pow2(shift + 7)
            && Extended(ReadFront(rest, n), value, shift, n) ==
               if rest[0] < 128 then Some((more, n + 1))
                 else Extended(ReadFront(rest[1..], n + 1), more, shift + 7, n + 1)
  {
    var low := rest[0] % 128;
    ShiftBelow(value, low, shift);
    if rest[0] >= 128 && ReadFront(rest[1..], n + 1).Some? {
      var v := ReadFront(rest[1..], n + 1).value.0;
      ShiftSum(low, 128 * v, shift);
      ShiftSeven(v, shift);
    }
  }

  function Encode(v: nat): (bytes: seq<Byte>)
    ensures bytes != []
  {
    if v < 128 then [v] else [128 + v % 128] + Encode(v / 128)
  }

  lemma {:induction false} EncodeLength(v: nat, k: nat)
    requires k >= 1
    ensures |Encode(v)| <= k <==> v < Pow2(7 * k)
    decreases k
  {
    Pow2Seven(0);
    if k == 1 {
    } else {
      Pow2Seven(7 * (k - 1));
      if v >= 128 {
        EncodeLength(v / 128, k - 1);
      }
    }
  }

  lemma {:induction false} ReadEncoded(v: nat, tail: seq<Byte>, n: nat)
    requires n + |Encode(v)| <= MAX_ULEB_BYTES
    ensures ReadFront(Encode(v) + tail, n) == Some((v, |Encode(v)|))
    decreases v
  {
    if v >= 128 {
      ReadEncoded(v / 128, tail, n + 1);
      assert (Encode(v) + tail)[1..] == Encode(v / 128) + tail;
    } else {
      assert (Encode(v) + tail)[0] == v;
    }
  }

  // Reading inverts encoding for exactly the values below 2^70; a longer encoding is refused.
  lemma UlebRoundTrip(v: nat, tail: seq<Byte>)
    ensures v < Pow2(70) ==> ReadFront(Encode(v) + tail, 0) == Some((v, |Encode(v)|))
    ensures v >= Pow2(70) ==> ReadFront(Encode(v) + tail, 0) == None
  {
    EncodeLength(v, 10);
    if v < Pow2(70) {
      ReadEncoded(v, tail, 0);
    } else {
      TooLong(Encode(v) + tail, 0, v, tail);
    }
  }

  lemma {:induction false} TooLong(bytes: seq<Byte>, n: nat, v: nat, tail: seq<Byte>)
    requires bytes == Encode(v) + tail && n <= MAX_ULEB_BYTES && n + |Encode(v)| > MAX_ULEB_BYTES
    ensures ReadFront(bytes, n) == None
    decreases v
  {
    if n < MAX_ULEB_BYTES {
      TooLong(Encode(v / 128) + tail, n + 1, v / 128, tail);
      assert bytes[1..] == Encode(v / 128) + tail;
    }
  }

  lemma {:induction false} ReadBelow(bytes: seq<Byte>, n: nat)
    requires n <= MAX_ULEB_BYTES && ReadFront(bytes, n).Some?
    ensures ReadFront(bytes, n).value.0 < Pow2(7 * (MAX_ULEB_BYTES - n))
    decreases |bytes|
  {
    Pow2Seven(0);
    Pow2Seven(7 * (MAX_ULEB_BYTES - n - 1));
    if bytes[0] >= 128 {
      ReadBelow(bytes[1..], n + 1);
    }
  }

  // ---------- numbers as they are spelt ----------

  // Seven bits a byte, the lowest first.
  function Value(bytes: seq<Byte>): nat {
    if bytes == [] then 0 else bytes[0] % 128 + 128 * Value(bytes[1..])
  }

  // At most `most` bytes, all but the last with the top bit set.
  ghost predicate IsNumeral(bytes: seq<Byte>, most: nat) {
    && 1 <= |bytes| <= most && bytes[|bytes| - 1] < 128
    && forall i :: 0 <= i < |bytes| - 1 ==> bytes[i] >= 128
  }

  lemma {:induction false} ReadsNumerals(bytes: seq<Byte>, n: nat, v: nat, c: nat)
    requires n <= MAX_ULEB_BYTES
    ensures ReadFront(bytes, n) == Some((v, c)) <==>
            c <= |bytes| && IsNumeral(bytes[..c], MAX_ULEB_BYTES - n) && Value(bytes[..c]) == v
    decreases |bytes|
  {
    if bytes != [] && n < MAX_ULEB_BYTES {
      if bytes[0] < 128 {
        ShortNumeral(bytes, MAX_ULEB_BYTES - n, c);
      } else {
        LongNumeral(bytes, MAX_ULEB_BYTES - n, c);
        if c >= 1 {
          ReadsNumerals(bytes[1..], n + 1, v / 128, c - 1);
          ReadsLong(bytes, n, v, c);
        }
      }
    }
  }

  lemma ShortNumeral(bytes: seq<Byte>, most: nat, c: nat)
    requires bytes != [] && bytes[0] < 128 && most >= 1
    ensures c <= |bytes| && IsNumeral(bytes[..c], most) <==> c == 1
    ensures Value(bytes[..1]) == bytes[0]
  {
    assert bytes[..1][1..] == [];
    if 1 < c <= |bytes| {
      assert bytes[..c][0] == bytes[0];
    }
  }

  lemma LongNumeral(bytes: seq<Byte>, most: nat, c: nat)
    requires bytes != [] && bytes[0] >= 128 && most >= 1
    ensures c <= |bytes| && IsNumeral(bytes[..c], most) <==>
            1 <= c <= |bytes| && IsNumeral(bytes[1..][..c - 1], most - 1)
    ensures 1 <= c <= |bytes| ==> Value(bytes[..c]) == bytes[0] - 128 + 128 * Value(bytes[1..][..c - 1])
  {
    if 1 <= c <= |bytes| {
      var all, rest := bytes[..c], bytes[1..][..c - 1];
      assert all[1..] == rest;
      assert forall i :: 1 <= i < c ==> all[i] == rest[i - 1];
    }
  }

  lemma ReadsLong(bytes: seq<Byte>, n: nat, v: nat, c: nat)
    requires bytes != [] && n < MAX_ULEB_BYTES && bytes[0] >= 128 && c >= 1
    ensures ReadFront(bytes, n) == Some((v, c)) <==>
            ReadFront(bytes[1..], n + 1) == Some((v / 128, c - 1)) && v % 128 == bytes[0] - 128
  {
  }

  function Flatten(parts: seq<seq<Byte>>): seq<Byte> {
    if parts == [] then [] else parts[0] + Flatten(parts[1..])
  }

  // The bytes are numerals for the values, one after the other.
  ghost predicate Spells(bytes: seq<Byte>, values: seq<nat>) {
    exists numerals: seq<seq<Byte>> :: Flatten(numerals) == bytes && AreNumerals(numerals, values)
  }

  ghost predicate AreNumerals(numerals: seq<seq<Byte>>, values: seq<nat>) {
    && |numerals| == |values|
    && forall k :: 0 <= k < |values| ==> IsNumeral(numerals[k], MAX_ULEB_BYTES) && Value(numerals[k]) == values[k]
  }

  lemma SpellsNothing(bytes: seq<Byte>)
    ensures Spells(bytes, []) <==> bytes == []
  {
    if bytes == [] {
      assert Flatten([]) == bytes && AreNumerals([], []);
    }
  }

  // The first number is the one that is read at the front.
  lemma SpellsFirst(bytes: seq<Byte>, values: seq<nat>)
    requires values != []
    ensures Spells(bytes, values) <==>
            ReadFront(bytes, 0).Some? && ReadFront(bytes, 0).value.0 == values[0]
            && ReadFront(bytes, 0).value.1 <= |bytes| && Spells(bytes[ReadFront(bytes, 0).value.1..], values[1..])
  {
    if numerals: seq<seq<Byte>> :| Flatten(numerals) == bytes && AreNumerals(numerals, values) {
      SpeltInFront(bytes, values, numerals);
    }
    if ReadFront(bytes, 0).Some? {
      var (v, c) := ReadFront(bytes, 0).value;
      ReadsNumerals(bytes, 0, v, c);
      if v == values[0] && Spells(bytes[c..], values[1..]) {
        PutInFront(bytes, c, values);
      }
    }
  }

  lemma SpeltInFront(bytes: seq<Byte>, values: seq<nat>, numerals: seq<seq<Byte>>)
    requires values != [] && Flatten(numerals) == bytes && AreNumerals(numerals, values)
    ensures var c := |numerals[0]|;
            c <= |bytes| && ReadFront(bytes, 0) == Some((values[0], c)) && Spells(bytes[c..], values[1..])
  {
    var c := |numerals[0]|;
    assert bytes[..c] == numerals[0];
    ReadsNumerals(bytes, 0, values[0], c);
    assert Flatten(numerals[1..]) == bytes[c..] && AreNumerals(numerals[1..], values[1..]);
  }

  lemma PutInFront(bytes: seq<Byte>, c: nat, values: seq<nat>)
    requires values != [] && c <= |bytes| && IsNumeral(bytes[..c], MAX_ULEB_BYTES) && Value(bytes[..c]) == values[0]
    requires Spells(bytes[c..], values[1..])
    ensures Spells(bytes, values)
  {
    var rest: seq<seq<Byte>> :| Flatten(rest) == bytes[c..] && AreNumerals(rest, values[1..]);
    var all := [bytes[..c]] + rest;
    assert all[1..] == rest && bytes[..c] + bytes[c..] == bytes;
    assert Flatten(all) == bytes && AreNumerals(all, values);
  }

  // ---------- the footer ----------

  type Range = (nat, nat)

  datatype Supplemental = Supplemental(
    size: nat, start: nat, nonce: nat, ranges: seq<Range>, ciphertextLen: nat)

  // One offset and size pair, and the bytes it takes.
  function ReadPair(bytes: seq<Byte>): (r: Option<(Range, nat)>)
    ensures r.Some? ==> 2 <= r.value.1 <= |bytes|
  {
    match ReadFront(bytes, 0)
    case None => None
    case Some((offset, c)) =>
      ReadFrontBounds(bytes, 0);
      match ReadFront(bytes[c..], 0)
      case None => None
      case Some((size, d)) =>
        ReadFrontBounds(bytes[c..], 0);
        Some(((offset, size), c + d))
  }

  // Offset and size pairs up to the very last byte, or nothing.
  function ReadRanges(bytes: seq<Byte>): Option<seq<Range>>
    decreases |bytes|
  {
    if bytes == [] then Some([])
    else
      match ReadPair(bytes)
      case None => None
      case Some((pair, used)) => After([pair], ReadRanges(bytes[used..]))
  }

  function ReadFooter(bytes: seq<Byte>): Option<(nat, seq<Range>)> {
    match ReadFront(bytes, 0)
    case None => None
    case Some((nonce, c)) =>
      ReadFrontBounds(bytes, 0);
      match ReadRanges(bytes[c..])
      case None => None
      case Some(ranges) => Some((nonce, ranges))
  }

  // The ranges as numbers, offset and size in turn.
  function Flat(ranges: seq<Range>): seq<nat> {
    if ranges == [] then [] else [ranges[0].0, ranges[0].1] + Flat(ranges[1..])
  }

  lemma SpellsPair(bytes: seq<Byte>, ranges: seq<Range>)
    requires ranges != []
    ensures Spells(bytes, Flat(ranges)) <==>
            ReadPair(bytes).Some? && ReadPair(bytes).value.0 == ranges[0]
            && Spells(bytes[ReadPair(bytes).value.1..], Flat(ranges[1..]))
  {
    var flat := Flat(ranges);
    assert flat[1..] == [ranges[0].1] + Flat(ranges[1..]) && flat[1..][1..] == Flat(ranges[1..]);
    SpellsFirst(bytes, flat);
    if ReadFront(bytes, 0).Some? {
      var c := ReadFront(bytes, 0).value.1;
      ReadFrontBounds(bytes, 0);
      SpellsFirst(bytes[c..], flat[1..]);
      if ReadFront(bytes[c..], 0).Some? {
        var d := ReadFront(bytes[c..], 0).value.1;
        ReadFrontBounds(bytes[c..], 0);
        assert bytes[c..][d..] == bytes[c + d..];
      }
    }
  }

  lemma {:induction false} RangesAreSpelt(bytes: seq<Byte>, ranges: seq<Range>)
    ensures ReadRanges(bytes) == Some(ranges) <==> Spells(bytes, Flat(ranges))
    decreases |bytes|
  {
    if ranges == [] {
      SpellsNothing(bytes);
    } else {
      SpellsPair(bytes, ranges);
      if bytes != [] && ReadPair(bytes).Some? {
        var (pair, used) := ReadPair(bytes).value;
        RangesAreSpelt(bytes[used..], ranges[1..]);
        assert ranges == [ranges[0]] + ranges[1..];
      }
    }
  }

  lemma FooterIsSpelt(bytes: seq<Byte>, nonce: nat, ranges: seq<Range>)
    ensures ReadFooter(bytes) == Some((nonce, ranges)) <==> Spells(bytes, [nonce] + Flat(ranges))
  {
    var values := [nonce] + Flat(ranges);
    assert values[1..] == Flat(ranges);
    SpellsFirst(bytes, values);
    if ReadFront(bytes, 0).Some? {
      ReadFrontBounds(bytes, 0);
      RangesAreSpelt(bytes[ReadFront(bytes, 0).value.1..], ranges);
    }
  }

  // `payload` is ciphertext, tag, numbers, size byte and marker, and the numbers spell what `d` says.
  ghost predicate IsFrame(payload: seq<Byte>, d: Supplemental) {
    && 0 < d.start == d.ciphertextLen
    && d.ciphertextLen + d.size == |payload|
    && 11 <= d.size < 256
    && payload[|payload| - 2..] == [0xFA, 0xFA]
    && payload[|payload| - 3] == d.size
    && Spells(payload[d.start + 8..|payload| - 3], [d.nonce] + Flat(d.ranges))
  }

  // The size byte leaves room for the tag in front of the numbers and for some ciphertext.
  predicate HasFooter(payload: seq<Byte>) {
    && |payload| > 10
    && payload[|payload| - 2..] == MARKER
    && TAG_SIZE + 3 <= payload[|payload| - 3] < |payload|
  }

  function Parse(payload: seq<Byte>): Option<Supplemental> {
    if !HasFooter(payload) then None
    else
      var size := payload[|payload| - 3];
      var start := |payload| - size;
      match ReadFooter(payload[start + TAG_SIZE..|payload| - 3])
      case None => None
      case Some((nonce, ranges)) => Some(Supplemental(size, start, nonce, ranges, start))
  }

  // A frame is recognised exactly when it has the form of one, and then its parts are the ones returned.
  lemma ParsesExactlyFrames(payload: seq<Byte>, d: Supplemental)
    ensures Parse(payload) == Some(d) <==> IsFrame(payload, d)
  {
    if HasFooter(payload) {
      var start := |payload| - payload[|payload| - 3];
      FooterIsSpelt(payload[start + TAG_SIZE..|payload| - 3], d.nonce, d.ranges);
    }
  }

  // Offset and size pairs from `start`, until nothing is left before `end`.
  method ReadRangePairs(payload: seq<Byte>, start: nat, end: nat) returns (r: Option<seq<Range>>)
    requires start <= end <= |payload|
    ensures r == ReadRanges(payload[start..end])
  {
    var cursor := start;
    var ranges: seq<Range> := [];
    ghost var whole := Between(payload, start, end);
    AfterNothing(ReadRanges(whole));
    while cursor < end
      invariant cursor <= end && Remaining(whole, ranges, Between(payload, cursor, end))
      decreases end - cursor
    {
      var first := ReadUleb128(payload, cursor, end);
      if first == None {
        NoPair(payload, whole, cursor, end, ranges);
        return None;
      }
      var (offset, middle) := first.value;
      var second := ReadUleb128(payload, middle, end);
      if second == None {
        NoPair(payload, whole, cursor, end, ranges);
        return None;
      }
      var (size, next) := second.value;
      PairStep(payload, whole, cursor, end, ranges, offset, middle, size, next);
      cursor := next;
      ranges := ranges + [(offset, size)];
    }
    assert Between(payload, cursor, end) == [] && ranges + [] == ranges;
    return Some(ranges);
  }

  // What `bytes` reads as is `ranges` and then what `tail` reads as.
  ghost predicate Remaining(bytes: seq<Byte>, ranges: seq<Range>, tail: seq<Byte>) {
    ReadRanges(bytes) == After(ranges, ReadRanges(tail))
  }

  lemma {:induction false} PairStep(payload: seq<Byte>, whole: seq<Byte>, cursor: nat, end: nat, ranges: seq<Range>,
                 offset: nat, middle: nat, size: nat, next: nat)
    requires cursor < end <= |payload| && Remaining(whole, ranges, Between(payload, cursor, end))
    requires ReadAt(payload, cursor, end) == Some((offset, middle))
             && ReadAt(payload, middle, end) == Some((size, next))
    ensures cursor < next <= end && Remaining(whole, ranges + [(offset, size)], Between(payload, next, end))
  {
    PairAt(payload, cursor, end, offset, middle, size, next);
    AfterPair(whole, ranges, Between(payload, cursor, end), (offset, size), Between(payload, next, end));
  }

  lemma {:induction false} PairAt(payload: seq<Byte>, cursor: nat, end: nat,
                                  offset: nat, middle: nat, size: nat, next: nat)
    requires cursor < end <= |payload|
    requires ReadAt(payload, cursor, end) == Some((offset, middle))
             && ReadAt(payload, middle, end) == Some((size, next))
    ensures cursor < next <= end
    ensures ReadRanges(Between(payload, cursor, end)) ==
            After([(offset, size)], ReadRanges(Between(payload, next, end)))
  {
    PairPlaces(payload, cursor, end, offset, middle, size, next);
    DropFront(payload, cursor, end, next - cursor);
    RangesStep(Between(payload, cursor, end), (offset, size), next - cursor, Between(payload, next, end));
  }

  lemma {:induction false} PairPlaces(payload: seq<Byte>, cursor: nat, end: nat,
                                      offset: nat, middle: nat, size: nat, next: nat)
    requires cursor < end <= |payload|
    requires ReadAt(payload, cursor, end) == Some((offset, middle))
             && ReadAt(payload, middle, end) == Some((size, next))
    ensures cursor < next <= end
    ensures ReadPair(Between(payload, cursor, end)) == Some(((offset, size), next - cursor))
  {
    var bytes := Between(payload, cursor, end);
    ReadFrontBounds(bytes, 0);
    DropFront(payload, cursor, end, middle - cursor);
    PairOf(bytes, offset, middle - cursor, size, next - middle);
  }

  lemma {:induction false} PairOf(bytes: seq<Byte>, offset: nat, c: nat, size: nat, d: nat)
    requires ReadFront(bytes, 0) == Some((offset, c)) && c <= |bytes| && ReadFront(bytes[c..], 0) == Some((size, d))
    ensures c >= 1 && d >= 1 && c + d <= |bytes|
    ensures ReadPair(bytes) == Some(((offset, size), c + d))
  {
    ReadFrontBounds(bytes, 0);
    PairBounds(bytes, c, size, d);
  }

  lemma PairBounds(bytes: seq<Byte>, c: nat, size: nat, d: nat)
    requires c <= |bytes| && ReadFront(bytes[c..], 0) == Some((size, d))
    ensures d >= 1 && c + d <= |bytes|
  {
    ReadFrontBounds(bytes[c..], 0);
  }

  lemma {:induction false} RangesStep(bytes: seq<Byte>, pair: Range, used: nat, rest: seq<Byte>)
    requires bytes != [] && ReadPair(bytes) == Some((pair, used)) && rest == bytes[used..]
    ensures ReadRanges(bytes) == After([pair], ReadRanges(rest))
  {
  }

  lemma NoPair(payload: seq<Byte>, whole: seq<Byte>, cursor: nat, end: nat, ranges: seq<Range>)
    requires cursor < end <= |payload| && Remaining(whole, ranges, Between(payload, cursor, end))
    requires ReadAt(payload, cursor, end).Some? ==> ReadAt(payload, ReadAt(payload, cursor, end).value.1, end) == None
    ensures ReadRanges(whole) == None
  {
    var bytes := Between(payload, cursor, end);
    if ReadFront(bytes, 0).Some? {
      ReadFrontBounds(bytes, 0);
      DropFront(payload, cursor, end, ReadFront(bytes, 0).value.1);
    }
    assert ReadPair(bytes) == None;
  }

  lemma AfterPair(whole: seq<Byte>, ranges: seq<Range>, bytes: seq<Byte>, pair: Range, tail: seq<Byte>)
    requires Remaining(whole, ranges, bytes) && ReadRanges(bytes) == After([pair], ReadRanges(tail))
    ensures Remaining(whole, ranges + [pair], tail)
  {
    AfterStep(ranges, pair, ReadRanges(tail));
  }

  method ParseDavePayload(payload: seq<Byte>) returns (r: Option<Supplemental>)
    ensures r == Parse(payload)
  {
    var len := |payload|;
    if len < 2 || payload[len - 2..] != MARKER {
      return None;
    }
    if len <= 10 {
      return None;
    }
    var size: nat := payload[len - 3];
    if size > len || size <= 10 {
      return None;
    }
    var start := len - size;
    var nonceStart := start + TAG_SIZE;
    var end := len - 3;
    if nonceStart > end {
      return None;
    }
    var numbers := ReadNumbers(payload, nonceStart, end);
    if numbers == None {
      return None;
    }
    if len - size <= 0 {
      return None;
    }
    return Some(Supplemental(size, start, numbers.value.0, numbers.value.1, len - size));
  }

  // The nonce and then the ranges.
  method ReadNumbers(payload: seq<Byte>, start: nat, end: nat) returns (r: Option<(nat, seq<Range>)>)
    requires start <= end <= |payload|
    ensures r == ReadFooter(payload[start..end])
  {
    var first := ReadUleb128(payload, start, end);
    NonceStep(payload, start, end);
    FooterCases(payload[start..end]);
    if first == None {
      return None;
    }
    var (nonce, cursor) := first.value;
    var ranges := ReadRangePairs(payload, cursor, end);
    return if ranges == None then None else Some((nonce, ranges.value));
  }

  lemma {:induction false} NonceStep(payload: seq<Byte>, start: nat, end: nat)
    requires start <= end <= |payload|
    ensures ReadAt(payload, start, end) == None ==> ReadFront(payload[start..end], 0) == None
    ensures ReadAt(payload, start, end).Some? ==>
              var nonce, cursor := ReadAt(payload, start, end).value.0, ReadAt(payload, start, end).value.1;
              && start <= cursor <= end
              && ReadFront(payload[start..end], 0) == Some((nonce, cursor - start))
              && payload[start..end][cursor - start..] == payload[cursor..end]
  {
    var bytes := payload[start..end];
    assert Between(payload, start, end) == bytes;
    if ReadFront(bytes, 0).Some? {
      ReadFrontBounds(bytes, 0);
      BehindFront(payload, start, end, ReadFront(bytes, 0).value.1);
    }
  }

  lemma {:induction false} FooterCases(bytes: seq<Byte>)
    ensures ReadFront(bytes, 0) == None ==> ReadFooter(bytes) == None
    ensures ReadFront(bytes, 0).Some? ==>
              var nonce, used := ReadFront(bytes, 0).value.0, ReadFront(bytes, 0).value.1;
              && used <= |bytes|
              && (ReadRanges(bytes[used..]) == None ==> ReadFooter(bytes) == None)
              && (ReadRanges(bytes[used..]).Some? ==>
                    ReadFooter(bytes) == Some((nonce, ReadRanges(bytes[used..]).value)))
  {
    if ReadFront(bytes, 0).Some? {
      ReadFrontBounds(bytes, 0);
    }
  }

  lemma BehindFront(payload: seq<Byte>, start: nat, end: nat, used: nat)
    requires start + used <= end <= |payload|
    ensures payload[start..end][used..] == payload[start + used..end]
  {
  }

  function After(ranges: seq<Range>, rest: Option<seq<Range>>): Option<seq<Range>> {
    match rest
    case None => None
    case Some(more) => Some(ranges + more)
  }

  lemma AfterNothing(rest: Option<seq<Range>>)
    ensures After([], rest) == rest
  {
    if rest.Some? {
      assert [] + rest.value == rest.value;
    }
  }

  lemma AfterStep(ranges: seq<Range>, x: Range, rest: Option<seq<Range>>)
    ensures After(ranges + [x], rest) == After(ranges, After([x], rest))
  {
    if rest.Some? {
      assert ranges + [x] + rest.value == ranges + ([x] + rest.value);
    }
  }

  // ---------- printing a frame ----------

  function EncodeRanges(ranges: seq<Range>): seq<Byte> {
    if ranges == [] then [] else Encode(ranges[0].0) + Encode(ranges[0].1) + EncodeRanges(ranges[1..])
  }

  function Footer(nonce: nat, ranges: seq<Range>): seq<Byte> {
    Encode(nonce) + EncodeRanges(ranges)
  }

  function Print(ciphertext: seq<Byte>, tag: seq<Byte>, nonce: nat, ranges: seq<Range>): seq<Byte>
    requires |Footer(nonce, ranges)| + TAG_SIZE + 3 < 256
  {
    var numbers := Footer(nonce, ranges);
    ciphertext + tag + numbers + [|numbers| + TAG_SIZE + 3] + MARKER
  }

  ghost predicate InRange(ranges: seq<Range>) {
    forall k :: 0 <= k < |ranges| ==> ranges[k].0 < Pow2(70) && ranges[k].1 < Pow2(70)
  }

  lemma {:induction false} PairRoundTrip(pair: Range, rest: seq<Byte>)
    requires pair.0 < Pow2(70) && pair.1 < Pow2(70)
    ensures var a, b := Encode(pair.0), Encode(pair.1);
            ReadPair(a + b + rest) == Some((pair, |a| + |b|)) && (a + b + rest)[|a| + |b|..] == rest
  {
    var a, b := Encode(pair.0), Encode(pair.1);
    ThreeParts(a, b, rest);
    UlebRoundTrip(pair.0, b + rest);
    UlebRoundTrip(pair.1, rest);
    PairOf(a + b + rest, pair.0, |a|, pair.1, |b|);
  }

  lemma ThreeParts(a: seq<Byte>, b: seq<Byte>, rest: seq<Byte>)
    ensures a + b + rest == a + (b + rest) && (a + b + rest)[|a|..] == b + rest
    ensures (a + b + rest)[|a| + |b|..] == rest
  {
  }

  lemma {:induction false} RangesRoundTrip(ranges: seq<Range>)
    requires InRange(ranges)
    ensures ReadRanges(EncodeRanges(ranges)) == Some(ranges)
    decreases |ranges|
  {
    if ranges != [] {
      RangesRoundTrip(ranges[1..]);
      PairRoundTrip(ranges[0], EncodeRanges(ranges[1..]));
      assert ranges == [ranges[0]] + ranges[1..];
    }
  }

  lemma PrintedParts(ciphertext: seq<Byte>, tag: seq<Byte>, nonce: nat, ranges: seq<Range>)
    requires ciphertext != [] && |tag| == TAG_SIZE && |Footer(nonce, ranges)| + TAG_SIZE + 3 < 256
    ensures var numbers, payload := Footer(nonce, ranges), Print(ciphertext, tag, nonce, ranges);
            && |payload| == |ciphertext| + TAG_SIZE + |numbers| + 3
            && payload[|ciphertext| + TAG_SIZE..|payload| - 3] == numbers
            && payload[|payload| - 3] == |numbers| + TAG_SIZE + 3
            && payload[|payload| - 2..] == MARKER
  {
  }

  // Parsing a printed frame gives back nonce, ranges and lengths, whatever ciphertext and tag are.
  lemma FrameRoundTrip(ciphertext: seq<Byte>, tag: seq<Byte>, nonce: nat, ranges: seq<Range>)
    requires ciphertext != [] && |tag| == TAG_SIZE && nonce < Pow2(70) && InRange(ranges)
    requires |Footer(nonce, ranges)| + TAG_SIZE + 3 < 256
    ensures Parse(Print(ciphertext, tag, nonce, ranges)) ==
            Some(Supplemental(|Footer(nonce, ranges)| + TAG_SIZE + 3, |ciphertext|, nonce, ranges, |ciphertext|))
  {
    var numbers := Footer(nonce, ranges);
    var payload := Print(ciphertext, tag, nonce, ranges);
    PrintedParts(ciphertext, tag, nonce, ranges);
    FooterRoundTrip(nonce, ranges);
  }

  lemma FooterRoundTrip(nonce: nat, ranges: seq<Range>)
    requires nonce < Pow2(70) && InRange(ranges)
    ensures ReadFooter(Footer(nonce, ranges)) == Some((nonce, ranges))
  {
    UlebRoundTrip(nonce, EncodeRanges(ranges));
    RangesRoundTrip(ranges);
    assert Footer(nonce, ranges)[|Encode(nonce)|..] == EncodeRanges(ranges);
  }

  // No encoding of a number is shorter than the canonical one.
  lemma {:induction false} CanonicalIsShortest(bytes: seq<Byte>, n: nat)
    requires ReadFront(bytes, n).Some?
    ensures |Encode(ReadFront(bytes, n).value.0)| <= ReadFront(bytes, n).value.1
    decreases |bytes|
  {
    if bytes[0] >= 128 {
      CanonicalIsShortest(bytes[1..], n + 1);
    }
  }

  lemma NumberReprint(bytes: seq<Byte>)
    requires ReadFront(bytes, 0).Some?
    ensures ReadFront(bytes, 0).value.1 <= |bytes|
    ensures ReadFront(bytes, 0).value.0 < Pow2(70)
    ensures |Encode(ReadFront(bytes, 0).value.0)| <= ReadFront(bytes, 0).value.1
  {
    ReadFrontBounds(bytes, 0);
    ReadBelow(bytes, 0);
    CanonicalIsShortest(bytes, 0);
  }

  lemma PairReprint(bytes: seq<Byte>)
    requires ReadPair(bytes).Some?
    ensures var (pair, used) := ReadPair(bytes).value;
            pair.0 < Pow2(70) && pair.1 < Pow2(70) && |Encode(pair.0)| + |Encode(pair.1)| <= used
  {
    NumberReprint(bytes);
    NumberReprint(bytes[ReadFront(bytes, 0).value.1..]);
  }

  lemma {:induction false} RangesReprint(bytes: seq<Byte>)
    requires ReadRanges(bytes).Some?
    ensures InRange(ReadRanges(bytes).value)
    ensures |EncodeRanges(ReadRanges(bytes).value)| <= |bytes|
    decreases |bytes|
  {
    if bytes != [] {
      PairReprint(bytes);
      var (pair, used) := ReadPair(bytes).value;
      RangesReprint(bytes[used..]);
      var more := ReadRanges(bytes[used..]).value;
      assert ([pair] + more)[1..] == more;
    }
  }

  lemma {:induction false} FooterReprint(numbers: seq<Byte>, nonce: nat, ranges: seq<Range>)
    requires ReadFooter(numbers) == Some((nonce, ranges))
    ensures nonce < Pow2(70) && InRange(ranges) && |Footer(nonce, ranges)| <= |numbers|
  {
    NumberReprint(numbers);
    RangesReprint(numbers[ReadFront(numbers, 0).value.1..]);
  }

  // Whatever a frame was parsed from, printing its parts again fits the size byte and parses to the same parts.
  lemma {:induction false} Reprint(payload: seq<Byte>, tag: seq<Byte>)
    requires |tag| == TAG_SIZE && Parse(payload).Some?
    ensures var d := Parse(payload).value;
            && |Footer(d.nonce, d.ranges)| + TAG_SIZE + 3 <= d.size < 256
            && var again := Parse(Print(payload[..d.start], tag, d.nonce, d.ranges));
               again.Some? && again.value.nonce == d.nonce && again.value.ranges == d.ranges
               && again.value.ciphertextLen == d.ciphertextLen
  {
    var d := Parse(payload).value;
    FooterReprint(payload[d.start + TAG_SIZE..|payload| - 3], d.nonce, d.ranges);
    FrameRoundTrip(payload[..d.start], tag, d.nonce, d.ranges);
  }
}
