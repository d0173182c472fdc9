// RTP packets as the voice transport sends them (RFC 3550, sections 5.1 and
// 5.3.1): the fixed header, the header extension whose body travels encrypted,
// and padding at the end of the decrypted payload.
module RtpPacket {
  import opened Wrappers

  datatype Header = Header(
    padding: bool, payloadType: nat, marker: bool, sequence: nat, timestamp: nat, ssrc: nat,
    headerLen: nat, unencryptedLen: nat)

  function Word16(b: seq<Byte>, at: nat): nat
    requires at + 2 <= |b|
  {
    (b[at] as int) * 0x100 + b[at + 1]
  }

  function Word32(b: seq<Byte>, at: nat): nat
    requires at + 4 <= |b|
  {
    Word16(b, at) * 0x1_0000 + Word16(b, at + 2)
  }

  function ParseRtpHeader(packet: seq<Byte>): (r: Option<Header>)
    ensures r.Some? ==> 12 <= r.value.unencryptedLen <= r.value.headerLen <= |packet|
  {
    if |packet| < 12 then None
    else
      var b0, b1 := packet[0], packet[1];
      if b0 / 64 != 2 then None
      else
        var base := 12 + b0 % 16 * 4;
        var extended := (b0 / 16) % 2 == 1;
        if extended && |packet| < base + 4 then None
        else
          var unencrypted := if extended then base + 4 else base;
          var full := if extended then base + 4 + Word16(packet, base + 2) * 4 else base;
          if |packet| < full then None
          else Some(Header((b0 / 32) % 2 == 1, b1 % 128, b1 / 128 == 1,
                           Word16(packet, 2), Word32(packet, 4), Word32(packet, 8), full, unencrypted))
  }

  // ---------- decryption ----------

  // Opens a ciphertext under the header bytes and the nonce, or refuses it.
  type Opener = (seq<Byte>, seq<Byte>, seq<Byte>) -> Option<seq<Byte>>

  // The nonce is the packet's last four bytes, filled up with zeros.
  function Nonce(suffix: seq<Byte>): seq<Byte>
    requires |suffix| == 4
  {
    suffix + seq(20, _ => 0)
  }

  function OpenPacket(packet: seq<Byte>, h: Header, open: Opener): Option<seq<Byte>>
    requires h.unencryptedLen <= |packet|
  {
    var encrypted := packet[h.unencryptedLen..];
    if |encrypted| < 4 then None
    else
      var n := |encrypted| - 4;
      open(encrypted[..n], packet[..h.unencryptedLen], Nonce(encrypted[n..]))
  }

  function StripPadding(plaintext: seq<Byte>, padding: bool): Option<seq<Byte>> {
    if !padding then Some(plaintext)
    else if plaintext == [] then None
    else
      var count := plaintext[|plaintext| - 1];
      if count == 0 || count >= |plaintext| then None else Some(plaintext[..|plaintext| - count])
  }

  function StripExtensionAndPadding(plaintext: seq<Byte>, h: Header): Option<seq<Byte>>
    requires h.unencryptedLen <= h.headerLen
  {
    var extension := h.headerLen - h.unencryptedLen;
    if extension > 0 && |plaintext| < extension then None else StripPadding(plaintext[extension..], h.padding)
  }

  function DecryptStandard(packet: seq<Byte>, cryptoReady: bool, open: Opener): Option<(seq<Byte>, Header)> {
    match ParseRtpHeader(packet)
    case None => None
    case Some(h) =>
      if !cryptoReady then None
      else
        match OpenPacket(packet, h, open)
        case None => None
        case Some(plaintext) =>
          match StripExtensionAndPadding(plaintext, h)
          case None => None
          case Some(payload) => Some((payload, h))
  }

  // ---------- what is accepted ----------

  // Padding names its own length in its last byte.
  ghost predicate IsPadding(pad: seq<Byte>) {
    pad != [] && pad[|pad| - 1] == |pad|
  }

  // The decrypted bytes are the extension body, a payload and, if announced, padding behind a non-empty payload.
  ghost predicate Carries(plaintext: seq<Byte>, h: Header, payload: seq<Byte>, extension: seq<Byte>, pad: seq<Byte>) {
    && plaintext == extension + payload + pad
    && |extension| == h.headerLen - h.unencryptedLen
    && (if h.padding then IsPadding(pad) && payload != [] else pad == [])
  }

  lemma PaddingStripsExactly(plaintext: seq<Byte>, payload: seq<Byte>, pad: seq<Byte>)
    requires IsPadding(pad) && plaintext == payload + pad
    ensures StripPadding(plaintext, true) == if payload == [] then None else Some(payload)
  {
    assert plaintext[|plaintext| - 1] == |pad|;
    assert plaintext[..|payload|] == payload;
  }

  lemma StripsCarried(plaintext: seq<Byte>, h: Header, payload: seq<Byte>, extension: seq<Byte>, pad: seq<Byte>)
    requires h.unencryptedLen <= h.headerLen && Carries(plaintext, h, payload, extension, pad)
    ensures StripExtensionAndPadding(plaintext, h) == Some(payload)
  {
    var rest := plaintext[|extension|..];
    assert rest == payload + pad;
    if h.padding {
      PaddingStripsExactly(rest, payload, pad);
    } else {
      assert payload + pad == payload;
    }
  }

  lemma StrippedWasCarried(plaintext: seq<Byte>, h: Header, payload: seq<Byte>)
    returns (extension: seq<Byte>, pad: seq<Byte>)
    requires h.unencryptedLen <= h.headerLen && StripExtensionAndPadding(plaintext, h) == Some(payload)
    ensures Carries(plaintext, h, payload, extension, pad)
  {
    var e := h.headerLen - h.unencryptedLen;
    extension, pad := plaintext[..e], plaintext[e + |payload|..];
    assert plaintext == extension + payload + pad;
  }

  // The nonce for a packet: its last four bytes and twenty zeros.
  ghost predicate IsNonce(nonce: seq<Byte>, suffix: seq<Byte>) {
    |nonce| == 24 && |suffix| == 4 && nonce[..4] == suffix && forall k :: 4 <= k < 24 ==> nonce[k] == 0
  }

  lemma NonceIs(nonce: seq<Byte>, suffix: seq<Byte>)
    requires IsNonce(nonce, suffix)
    ensures nonce == Nonce(suffix)
  {
    forall k | 0 <= k < 24
      ensures nonce[k] == Nonce(suffix)[k]
    {
      assert k < 4 ==> nonce[..4][k] == nonce[k];
    }
  }

  // The packet is its readable header, a sealed part that opens under it, and the part that the nonce is made of.
  ghost predicate OpensAs(packet: seq<Byte>, h: Header, open: Opener, plaintext: seq<Byte>,
                          clear: seq<Byte>, sealed: seq<Byte>, suffix: seq<Byte>, nonce: seq<Byte>)
  {
    && packet == clear + sealed + suffix && |clear| == h.unencryptedLen
    && IsNonce(nonce, suffix) && open(sealed, clear, nonce) == Some(plaintext)
  }

  ghost predicate Opens(packet: seq<Byte>, h: Header, open: Opener, plaintext: seq<Byte>) {
    exists clear, sealed, suffix, nonce :: OpensAs(packet, h, open, plaintext, clear, sealed, suffix, nonce)
  }

  lemma OpensExactly(packet: seq<Byte>, h: Header, open: Opener, plaintext: seq<Byte>)
    requires h.unencryptedLen <= |packet|
    ensures OpenPacket(packet, h, open) == Some(plaintext) <==> Opens(packet, h, open, plaintext)
  {
    if OpenPacket(packet, h, open) == Some(plaintext) {
      var u, n := h.unencryptedLen, |packet| - 4;
      var clear, sealed, suffix := packet[..u], packet[u..n], packet[n..];
      assert packet == clear + sealed + suffix;
      assert packet[u..][..n - u] == sealed && packet[u..][n - u..] == suffix;
      assert Nonce(suffix)[..4] == suffix;
      assert OpensAs(packet, h, open, plaintext, clear, sealed, suffix, Nonce(suffix));
    }
    if clear, sealed, suffix, nonce :| OpensAs(packet, h, open, plaintext, clear, sealed, suffix, nonce) {
      NonceIs(nonce, suffix);
      OpensSealed(h, clear, sealed, suffix, open);
    }
  }

  ghost predicate Delivers(packet: seq<Byte>, h: Header, open: Opener, payload: seq<Byte>, plaintext: seq<Byte>,
                           extension: seq<Byte>, pad: seq<Byte>)
  {
    Opens(packet, h, open, plaintext) && Carries(plaintext, h, payload, extension, pad)
  }

  // A packet is accepted with a payload exactly when some fields give its header, it opens under that, and it carries
  // the payload.
  lemma AcceptedExactly(packet: seq<Byte>, open: Opener, payload: seq<Byte>, h: Header)
    ensures DecryptStandard(packet, true, open) == Some((payload, h)) <==>
            && HasHeader(packet, h)
            && exists plaintext, extension, pad :: Delivers(packet, h, open, payload, plaintext, extension, pad)
    ensures DecryptStandard(packet, false, open) == None
  {
    HeaderParsesExactly(packet, h);
    if ParseRtpHeader(packet) == Some(h) {
      var result := OpenPacket(packet, h, open);
      if result.Some? {
        OpensExactly(packet, h, open, result.value);
        if StripExtensionAndPadding(result.value, h) == Some(payload) {
          var extension, pad := StrippedWasCarried(result.value, h, payload);
          assert Delivers(packet, h, open, payload, result.value, extension, pad);
        }
      }
      if plaintext, extension, pad :| Delivers(packet, h, open, payload, plaintext, extension, pad) {
        OpensExactly(packet, h, open, plaintext);
        StripsCarried(plaintext, h, payload, extension, pad);
      }
    }
  }

  // ---------- building a packet ----------

  datatype Extension = Extension(profile: nat, body: seq<Byte>) {
    predicate Valid() {
      profile < 0x1_0000 && |body| % 4 == 0 && |body| / 4 < 0x1_0000
    }
  }

  datatype Fields = Fields(
    padding: bool, payloadType: nat, marker: bool, sequence: nat, timestamp: nat, ssrc: nat,
    csrcs: seq<Byte>, extension: Option<Extension>)
  {
    predicate Valid() {
      && payloadType < 128 && sequence < 0x1_0000 && timestamp < 0x1_0000_0000 && ssrc < 0x1_0000_0000
      && |csrcs| % 4 == 0 && |csrcs| / 4 < 16
      && (extension.Some? ==> extension.value.Valid())
    }

    function Body(): seq<Byte> {
      if extension.Some? then extension.value.body else []
    }

    // What the parser should report of a packet with these fields.
    function Expected(): Header
      requires Valid()
    {
      var unencrypted := 12 + |csrcs| + (if extension.Some? then 4 else 0);
      Header(padding, payloadType, marker, sequence, timestamp, ssrc, unencrypted + |Body()|, unencrypted)
    }
  }

  function Bytes16(n: nat): (b: seq<Byte>)
    requires n < 0x1_0000
    ensures |b| == 2 && Word16(b, 0) == n
  {
    [n / 0x100, n % 0x100]
  }

  function Bytes32(n: nat): (b: seq<Byte>)
    requires n < 0x1_0000_0000
    ensures |b| == 4 && Word32(b, 0) == n
  {
    var high, low := Bytes16(n / 0x1_0000), Bytes16(n % 0x1_0000);
    assert (high + low)[0] == high[0] && (high + low)[1] == high[1] && (high + low)[2] == low[0]
           && (high + low)[3] == low[1];
    high + low
  }

  function FirstByte(f: Fields): Byte
    requires f.Valid()
  {
    128 + (if f.padding then 32 else 0) + (if f.extension.Some? then 16 else 0) + |f.csrcs| / 4
  }

  function FixedPart(f: Fields): (b: seq<Byte>)
    requires f.Valid()
    ensures |b| == 12
  {
    [FirstByte(f), (if f.marker then 128 else 0) + f.payloadType] + Bytes16(f.sequence) + Bytes32(f.timestamp)
      + Bytes32(f.ssrc)
  }

  // The part of the header that stays readable: everything up to the extension's body.
  function ClearHeader(f: Fields): seq<Byte>
    requires f.Valid()
  {
    FixedPart(f) + f.csrcs +
    (if f.extension.Some? then Bytes16(f.extension.value.profile) + Bytes16(|f.extension.value.body| / 4) else [])
  }

  function Padding(count: Byte): seq<Byte>
    requires count >= 1
  {
    seq(count - 1, _ => 0) + [count]
  }

  // The bytes that get encrypted: extension body, payload and `count` bytes of padding if announced.
  function Plain(f: Fields, payload: seq<Byte>, count: Byte): seq<Byte>
    requires f.Valid() && count >= 1
  {
    f.Body() + payload + (if f.padding then Padding(count) else [])
  }

  lemma WordShift(a: seq<Byte>, b: seq<Byte>, c: seq<Byte>, at: nat)
    requires at + 2 <= |b|
    ensures Word16(a + b + c, |a| + at) == Word16(b, at)
  {
  }

  lemma FixedFields(f: Fields, tail: seq<Byte>)
    requires f.Valid()
    ensures var packet := FixedPart(f) + tail;
            && packet[0] == FirstByte(f) && packet[1] == (if f.marker then 128 else 0) + f.payloadType
            && Word16(packet, 2) == f.sequence && Word32(packet, 4) == f.timestamp && Word32(packet, 8) == f.ssrc
  {
    var packet := FixedPart(f) + tail;
    var lead := [FirstByte(f), (if f.marker then 128 else 0) + f.payloadType];
    var s, t, i := Bytes16(f.sequence), Bytes32(f.timestamp), Bytes32(f.ssrc);
    assert packet == lead + s + (t + i + tail) && packet == (lead + s) + t + (i + tail)
           && packet == (lead + s + t) + i + tail;
    WordShift(lead, s, t + i + tail, 0);
    WordShift(lead + s, t, i + tail, 0);
    WordShift(lead + s, t, i + tail, 2);
    WordShift(lead + s + t, i, tail, 0);
    WordShift(lead + s + t, i, tail, 2);
  }

  lemma ExtensionLength(f: Fields, rest: seq<Byte>)
    requires f.Valid() && f.extension.Some?
    ensures |ClearHeader(f)| == 16 + |f.csrcs|
    ensures Word16(ClearHeader(f) + rest, 12 + |f.csrcs| + 2) * 4 == |f.Body()|
  {
    var p, n := Bytes16(f.extension.value.profile), Bytes16(|f.extension.value.body| / 4);
    assert ClearHeader(f) + rest == (FixedPart(f) + f.csrcs + p) + n + rest;
    WordShift(FixedPart(f) + f.csrcs + p, n, rest, 0);
  }

  lemma HeaderRoundTrip(f: Fields, rest: seq<Byte>)
    requires f.Valid() && |rest| >= |f.Body()|
    ensures ParseRtpHeader(ClearHeader(f) + rest) == Some(f.Expected())
  {
    var packet := ClearHeader(f) + rest;
    assert packet == FixedPart(f) + packet[12..];
    FixedFields(f, packet[12..]);
    FirstByteFields(f);
    if f.extension.Some? {
      ExtensionLength(f, rest);
    }
  }

  // The header of these fields, and behind it at least the extension's body.
  ghost predicate Spells(packet: seq<Byte>, h: Header, f: Fields, rest: seq<Byte>) {
    f.Valid() && packet == ClearHeader(f) + rest && |rest| >= |f.Body()| && h == f.Expected()
  }

  ghost predicate HasHeader(packet: seq<Byte>, h: Header) {
    exists f, rest :: Spells(packet, h, f, rest)
  }

  // The fields that a parsed header was printed from.
  function FieldsOf(packet: seq<Byte>): Fields
    requires ParseRtpHeader(packet).Some?
  {
    var h := ParseRtpHeader(packet).value;
    var base := 12 + packet[0] % 16 * 4;
    Fields(h.padding, h.payloadType, h.marker, h.sequence, h.timestamp, h.ssrc, packet[12..base],
           if (packet[0] / 16) % 2 == 1 then Some(Extension(Word16(packet, base), packet[base + 4..h.headerLen]))
           else None)
  }

  lemma WordIs(packet: seq<Byte>, at: nat)
    requires at + 2 <= |packet|
    ensures Word16(packet, at) < 0x1_0000 && Bytes16(Word16(packet, at)) == packet[at..at + 2]
  {
  }

  lemma LongWordIs(packet: seq<Byte>, at: nat)
    requires at + 4 <= |packet|
    ensures Word32(packet, at) < 0x1_0000_0000 && Bytes32(Word32(packet, at)) == packet[at..at + 4]
  {
    WordIs(packet, at);
    WordIs(packet, at + 2);
    var high, low := Word16(packet, at), Word16(packet, at + 2);
    assert Word32(packet, at) / 0x1_0000 == high && Word32(packet, at) % 0x1_0000 == low;
    assert packet[at..at + 2] + packet[at + 2..at + 4] == packet[at..at + 4];
  }

  lemma ByteParts(b: Byte)
    requires b / 64 == 2
    ensures b == 128 + (if (b / 32) % 2 == 1 then 32 else 0) + (if (b / 16) % 2 == 1 then 16 else 0) + b % 16
  {
  }

  lemma Multiple(n: nat)
    ensures n * 4 % 4 == 0 && n * 4 / 4 == n
  {
  }

  lemma FieldsGiveFirstByte(packet: seq<Byte>)
    requires ParseRtpHeader(packet).Some? && FieldsOf(packet).Valid()
    ensures FirstByte(FieldsOf(packet)) == packet[0]
  {
    ByteParts(packet[0]);
    Multiple(packet[0] % 16);
  }

  lemma FieldsAreValid(packet: seq<Byte>)
    requires ParseRtpHeader(packet).Some?
    ensures FieldsOf(packet).Valid()
  {
    WordIs(packet, 2);
    LongWordIs(packet, 4);
    LongWordIs(packet, 8);
    Multiple(packet[0] % 16);
    var base := 12 + packet[0] % 16 * 4;
    if (packet[0] / 16) % 2 == 1 {
      WordIs(packet, base);
      WordIs(packet, base + 2);
      Multiple(Word16(packet, base + 2));
    }
  }

  lemma FieldsAreExpected(packet: seq<Byte>)
    requires ParseRtpHeader(packet).Some? && FieldsOf(packet).Valid()
    ensures ParseRtpHeader(packet) == Some(FieldsOf(packet).Expected())
  {
  }

  lemma FixedPartIs(packet: seq<Byte>)
    requires ParseRtpHeader(packet).Some? && FieldsOf(packet).Valid() && FirstByte(FieldsOf(packet)) == packet[0]
    ensures FixedPart(FieldsOf(packet)) == packet[..12]
  {
    WordIs(packet, 2);
    LongWordIs(packet, 4);
    LongWordIs(packet, 8);
    assert packet[..12] == [packet[0], packet[1]] + packet[2..4] + packet[4..8] + packet[8..12];
  }

  lemma ClearHeaderIs(packet: seq<Byte>)
    requires ParseRtpHeader(packet).Some? && FieldsOf(packet).Valid() && FirstByte(FieldsOf(packet)) == packet[0]
    ensures ClearHeader(FieldsOf(packet)) == packet[..ParseRtpHeader(packet).value.unencryptedLen]
  {
    FixedPartIs(packet);
    var base := 12 + packet[0] % 16 * 4;
    assert packet[..12] + packet[12..base] == packet[..base];
    if (packet[0] / 16) % 2 == 1 {
      WordIs(packet, base);
      WordIs(packet, base + 2);
      assert packet[..base] + (packet[base..base + 2] + packet[base + 2..base + 4]) == packet[..base + 4];
    }
  }

  // A packet's header is accepted exactly if some fields give it, with the extension's body behind it, and is read as
  // those fields.
  lemma HeaderParsesExactly(packet: seq<Byte>, h: Header)
    ensures ParseRtpHeader(packet) == Some(h) <==> HasHeader(packet, h)
  {
    if ParseRtpHeader(packet) == Some(h) {
      FieldsAreValid(packet);
      FieldsAreExpected(packet);
      FieldsGiveFirstByte(packet);
      ClearHeaderIs(packet);
      var rest := packet[h.unencryptedLen..];
      assert packet == packet[..h.unencryptedLen] + rest;
      assert Spells(packet, h, FieldsOf(packet), rest);
    }
    if f, rest :| Spells(packet, h, f, rest) {
      HeaderRoundTrip(f, rest);
    }
  }

  lemma FirstByteFields(f: Fields)
    requires f.Valid()
    ensures var b := FirstByte(f);
            && b / 64 == 2 && ((b / 32) % 2 == 1 <==> f.padding) && ((b / 16) % 2 == 1 <==> f.extension.Some?)
            && b % 16 * 4 == |f.csrcs|
  {
  }

  // Sending and receiving: what is sealed under the clear header and the nonce comes back as the payload and the
  // same fields, for every header, extension and padding; only padding around an empty payload is refused.
  lemma PacketRoundTrip(f: Fields, payload: seq<Byte>, count: Byte, sealed: seq<Byte>, suffix: seq<Byte>,
                        nonce: seq<Byte>, open: Opener)
    requires f.Valid() && count >= 1 && IsNonce(nonce, suffix)
    requires |sealed| >= |Plain(f, payload, count)|
    requires open(sealed, ClearHeader(f), nonce) == Some(Plain(f, payload, count))
    ensures DecryptStandard(ClearHeader(f) + sealed + suffix, true, open) ==
            if f.padding && payload == [] then None else Some((payload, f.Expected()))
  {
    NonceIs(nonce, suffix);
    assert ClearHeader(f) + sealed + suffix == ClearHeader(f) + (sealed + suffix);
    HeaderRoundTrip(f, sealed + suffix);
    OpensSealed(f.Expected(), ClearHeader(f), sealed, suffix, open);
    PlainStrips(f.Expected(), f.Body(), payload, if f.padding then Padding(count) else []);
  }

  lemma OpensSealed(h: Header, clear: seq<Byte>, sealed: seq<Byte>, suffix: seq<Byte>, open: Opener)
    requires |clear| == h.unencryptedLen && |suffix| == 4
    ensures OpenPacket(clear + sealed + suffix, h, open) == open(sealed, clear, Nonce(suffix))
  {
    var packet := clear + sealed + suffix;
    assert packet[..|clear|] == clear && packet[|clear|..] == sealed + suffix;
    assert (sealed + suffix)[..|sealed|] == sealed && (sealed + suffix)[|sealed|..] == suffix;
  }

  lemma PlainStrips(h: Header, body: seq<Byte>, payload: seq<Byte>, pad: seq<Byte>)
    requires h.headerLen == h.unencryptedLen + |body| && if h.padding then IsPadding(pad) else pad == []
    ensures StripExtensionAndPadding(body + payload + pad, h) ==
            if h.padding && payload == [] then None else Some(payload)
  {
    assert (body + payload + pad)[|body|..] == payload + pad;
    if h.padding {
      PaddingStripsExactly(payload + pad, payload, pad);
    } else {
      assert payload + pad == payload;
    }
  }
}
