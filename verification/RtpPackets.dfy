/** RTP packet inspection: the packet layout of RFC 3550, sections 5.1 and 5.3.1, as a
    datatype, the byte string it stands for, and the offset arithmetic of the inspector. */
module RtpPackets {
  import opened Numbers

  datatype VideoCodec = Unknown | H264 | H265

  datatype RtpPacketInfo = RtpPacketInfo(payloadType: u8, sequence: u16, ssrc: u32, codecHint: VideoCodec)

  /** The fixed header without its first byte. */
  datatype Header = Header(marker: bool, payloadType: u8, sequence: u16, timestamp: u32, ssrc: u32) {
    predicate Valid() {
      payloadType < 0x80
    }
  }

  /** A header extension: 16 bits left to the profile, then whole 32-bit words. */
  datatype Extension = Extension(profile: u16, words: seq<u8>) {
    predicate Valid() {
      |words| % 4 == 0 && |words| / 4 < 0x1_0000
    }
  }

  /** Everything after the fixed header. `padding` includes its own count byte and is
      empty when the padding bit is clear. */
  datatype Body = Body(csrc: seq<u8>, extension: Option<Extension>, payload: seq<u8>, padding: seq<u8>) {
    predicate Valid() {
      && |csrc| % 4 == 0 && |csrc| <= 60
      && (extension.Some? ==> extension.value.Valid())
      && (padding != [] ==> padding[|padding| - 1] == |padding|)
    }
  }

  datatype RtpPacket = RtpPacket(header: Header, body: Body) {
    predicate Valid() {
      header.Valid() && body.Valid()
    }

    function Info(): RtpPacketInfo {
      RtpPacketInfo(header.payloadType, header.sequence, header.ssrc, CodecHint(body.payload))
    }
  }

  /** The codec that the first one or two payload bytes give away. */
  function CodecHint(payload: seq<u8>): VideoCodec {
    if payload == [] then Unknown
    else if |payload| >= 2 && IsH265Marker(payload[0], payload[1]) then H265
    else if payload[0] % 0x20 in {5, 7, 8, 24, 28} then H264
    else Unknown
  }

  predicate IsH265Marker(first: u8, second: u8) {
    var layerId := (first % 2) * 32 + second / 8;
    && layerId == 0
    && second % 8 != 0
    && (first / 2) % 0x40 in {32, 33, 34, 48, 49}
  }

  function Word16(high: u8, low: u8): u16 {
    high * 0x100 + low
  }

  function Word32(b0: u8, b1: u8, b2: u8, b3: u8): u32 {
    Word16(b0, b1) * 0x1_0000 + Word16(b2, b3)
  }

  function Bytes16(w: u16): (b: seq<u8>)
    ensures |b| == 2 && Word16(b[0], b[1]) == w
  {
    [w / 0x100, w % 0x100]
  }

  function Bytes32(w: u32): (b: seq<u8>)
    ensures |b| == 4 && Word32(b[0], b[1], b[2], b[3]) == w
  {
    Bytes16(w / 0x1_0000) + Bytes16(w % 0x1_0000)
  }

  lemma Word16Injective(a: u8, b: u8, c: u8, d: u8)
    requires Word16(a, b) == Word16(c, d)
    ensures a == c && b == d
  {
  }

  lemma Bytes16OfWord16(high: u8, low: u8)
    ensures Bytes16(Word16(high, low)) == [high, low]
  {
    var b := Bytes16(Word16(high, low));
    Word16Injective(b[0], b[1], high, low);
  }

  lemma Bytes32OfWord32(b0: u8, b1: u8, b2: u8, b3: u8)
    ensures Bytes32(Word32(b0, b1, b2, b3)) == [b0, b1, b2, b3]
  {
    var b := Bytes32(Word32(b0, b1, b2, b3));
    Halves(Word16(b[0], b[1]), Word16(b[2], b[3]), Word16(b0, b1), Word16(b2, b3));
    Word16Injective(b[0], b[1], b0, b1);
    Word16Injective(b[2], b[3], b2, b3);
  }

  lemma Halves(a: u16, b: u16, c: u16, d: u16)
    requires a * 0x1_0000 + b == c * 0x1_0000 + d
    ensures a == c && b == d
  {
  }

  // ----- The octets of a packet -----

  function HeaderOctets(h: Header): (b: seq<u8>)
    requires h.Valid()
    ensures |b| == 11
  {
    [(if h.marker then 0x80 else 0) + h.payloadType] + Bytes16(h.sequence) + Bytes32(h.timestamp) + Bytes32(h.ssrc)
  }

  function ExtensionOctets(e: Option<Extension>): seq<u8>
    requires e.Some? ==> e.value.Valid()
  {
    if e.None? then []
    else Bytes16(e.value.profile) + Bytes16(|e.value.words| / 4) + e.value.words
  }

  /** Version 2, then the padding and extension bits and the CSRC count. */
  function FirstOctet(body: Body): u8
    requires body.Valid()
  {
    0x80 + (if body.padding == [] then 0 else 0x20) + (if body.extension.None? then 0 else 0x10) + |body.csrc| / 4
  }

  function BodyOctets(body: Body): seq<u8>
    requires body.Valid()
  {
    body.csrc + (ExtensionOctets(body.extension) + (body.payload + body.padding))
  }

  /** The octets of a packet in transmission order. */
  function Build(p: RtpPacket): seq<u8>
    requires p.Valid()
  {
    [FirstOctet(p.body)] + HeaderOctets(p.header) + BodyOctets(p.body)
  }

  // ----- Taking octets apart -----

  function ParseHeader(b: seq<u8>): (h: Header)
    requires |b| == 11
    ensures h.Valid()
  {
    Header(b[0] >= 0x80, b[0] % 0x80, Word16(b[1], b[2]),
           Word32(b[3], b[4], b[5], b[6]), Word32(b[7], b[8], b[9], b[10]))
  }

  /** Splits what follows the CSRC list into extension and remainder. */
  function SplitExtension(present: bool, b: seq<u8>): Option<(Option<Extension>, seq<u8>)> {
    if !present then Some((None, b))
    else if |b| < 4 || |b| < 4 + 4 * (Word16(b[2], b[3]) as int) then None
    else
      var n: int := 4 * (Word16(b[2], b[3]) as int);
      Some((Some(Extension(Word16(b[0], b[1]), b[4..4 + n])), b[4 + n..]))
  }

  /** Splits the remainder into payload and padding; `count` is the packet's last byte. */
  function SplitPadding(present: bool, b: seq<u8>, count: u8): Option<(seq<u8>, seq<u8>)> {
    if !present then Some((b, []))
    else if count == 0 || count > |b| then None
    else Some((b[..|b| - count], b[|b| - count..]))
  }

  function SplitBody(first: u8, b: seq<u8>, count: u8): Option<Body> {
    SplitSections(4 * (first % 0x10), first / 0x10 % 2 == 1, first / 0x20 % 2 == 1, b, count)
  }

  function SplitSections(n: nat, extended: bool, padded: bool, b: seq<u8>, count: u8): Option<Body> {
    if |b| < n then None
    else
      match SplitExtension(extended, b[n..])
      case None => None
      case Some((extension, rest)) =>
        match SplitPadding(padded, rest, count)
        case None => None
        case Some((payload, padding)) => Some(Body(b[..n], extension, payload, padding))
  }

  function Decompose(b: seq<u8>): Option<RtpPacket> {
    if |b| < 12 || b[0] / 0x40 != 2 then None
    else
      match SplitBody(b[0], b[12..], b[|b| - 1])
      case None => None
      case Some(body) => Some(RtpPacket(ParseHeader(b[1..12]), body))
  }

  // ----- Both directions, section by section -----

  lemma HeaderInverts(h: Header)
    requires h.Valid()
    ensures ParseHeader(HeaderOctets(h)) == h
  {
    var first: u8 := (if h.marker then 0x80 else 0) + h.payloadType;
    FourParts([first], Bytes16(h.sequence), Bytes32(h.timestamp), Bytes32(h.ssrc));
  }

  lemma FourParts(a: seq<u8>, b: seq<u8>, c: seq<u8>, d: seq<u8>)
    requires |a| == 1 && |b| == 2 && |c| == 4 && |d| == 4
    ensures var x := a + b + c + d;
            && x[0] == a[0] && x[1] == b[0] && x[2] == b[1]
            && x[3] == c[0] && x[4] == c[1] && x[5] == c[2] && x[6] == c[3]
            && x[7] == d[0] && x[8] == d[1] && x[9] == d[2] && x[10] == d[3]
  {
  }

  lemma HeaderExact(b: seq<u8>)
    requires |b| == 11
    ensures HeaderOctets(ParseHeader(b)) == b
  {
    TopBit(b[0]);
    Bytes16OfWord16(b[1], b[2]);
    Bytes32OfWord32(b[3], b[4], b[5], b[6]);
    Bytes32OfWord32(b[7], b[8], b[9], b[10]);
    EvenlySplit(b);
  }

  lemma TopBit(b: u8)
    ensures (if b >= 0x80 then 0x80 else 0) + b % 0x80 == b
  {
  }

  lemma EvenlySplit(b: seq<u8>)
    requires |b| == 11
    ensures b == [b[0]] + [b[1], b[2]] + [b[3], b[4], b[5], b[6]] + [b[7], b[8], b[9], b[10]]
  {
  }

  lemma ExtensionInverts(e: Option<Extension>, rest: seq<u8>)
    requires e.Some? ==> e.value.Valid()
    ensures SplitExtension(e.Some?, ExtensionOctets(e) + rest) == Some((e, rest))
  {
    var b := ExtensionOctets(e) + rest;
    if e.None? {
      assert b == rest;
    } else {
      var n := |e.value.words|;
      assert b[2] == Bytes16(n / 4)[0] && b[3] == Bytes16(n / 4)[1];
      assert b[4..4 + n] == e.value.words;
      assert b[4 + n..] == rest;
    }
  }

  lemma ExtensionExact(present: bool, b: seq<u8>)
    requires SplitExtension(present, b).Some?
    ensures var (e, rest) := SplitExtension(present, b).value;
            && e.Some? == present
            && (e.Some? ==> e.value.Valid())
            && ExtensionOctets(e) + rest == b
  {
    if present {
      var w := Word16(b[2], b[3]);
      var words := b[4..4 + 4 * (w as int)];
      assert |words| / 4 == w;
      Bytes16OfWord16(b[0], b[1]);
      Bytes16OfWord16(b[2], b[3]);
      assert b == [b[0], b[1]] + [b[2], b[3]] + words + b[4 + |words|..];
    } else {
      assert [] + b == b;
    }
  }

  lemma PaddingInverts(payload: seq<u8>, padding: seq<u8>, count: u8)
    requires padding != [] ==> count == |padding|
    ensures SplitPadding(padding != [], payload + padding, count) == Some((payload, padding))
  {
    var b := payload + padding;
    if padding == [] {
      assert b == payload;
    } else {
      assert b[..|b| - count] == payload && b[|b| - count..] == padding;
    }
  }

  lemma PaddingExact(present: bool, b: seq<u8>, count: u8)
    requires SplitPadding(present, b, count).Some?
    requires b != [] ==> count == b[|b| - 1]
    ensures var (payload, padding) := SplitPadding(present, b, count).value;
            && payload + padding == b
            && (padding != [] <==> present)
            && (padding != [] ==> padding[|padding| - 1] == |padding|)
  {
  }

  lemma FirstOctetBits(body: Body)
    requires body.Valid()
    ensures var f := FirstOctet(body);
            && f / 0x40 == 2
            && 4 * (f % 0x10) == |body.csrc|
            && (f / 0x10 % 2 == 1 <==> body.extension.Some?)
            && (f / 0x20 % 2 == 1 <==> body.padding != [])
  {
    assert |body.csrc| / 4 <= 15;
  }

  lemma BodyInverts(body: Body, count: u8)
    requires body.Valid()
    requires body.padding != [] ==> count == |body.padding|
    ensures SplitBody(FirstOctet(body), BodyOctets(body), count) == Some(body)
  {
    var rest := body.payload + body.padding;
    FirstOctetBits(body);
    assert BodyOctets(body)[|body.csrc|..] == ExtensionOctets(body.extension) + rest;
    assert BodyOctets(body)[..|body.csrc|] == body.csrc;
    ExtensionInverts(body.extension, rest);
    PaddingInverts(body.payload, body.padding, count);
  }

  lemma BodyExact(first: u8, b: seq<u8>, count: u8)
    requires first / 0x40 == 2
    requires SplitBody(first, b, count).Some?
    requires b != [] ==> count == b[|b| - 1]
    ensures var body := SplitBody(first, b, count).value;
            body.Valid() && FirstOctet(body) == first && BodyOctets(body) == b
  {
    SectionsExact(4 * (first % 0x10), first / 0x10 % 2 == 1, first / 0x20 % 2 == 1, b, count);
    FirstOctetOf(first, SplitBody(first, b, count).value);
  }

  lemma SectionsExact(n: nat, extended: bool, padded: bool, b: seq<u8>, count: u8)
    requires n % 4 == 0 && n <= 60
    requires SplitSections(n, extended, padded, b, count).Some?
    requires b != [] ==> count == b[|b| - 1]
    ensures var body := SplitSections(n, extended, padded, b, count).value;
            && body.Valid() && BodyOctets(body) == b && |body.csrc| == n
            && (body.extension.Some? <==> extended) && (body.padding != [] <==> padded)
  {
    var split := SplitExtension(extended, b[n..]).value;
    ExtensionExact(extended, b[n..]);
    if split.1 != [] {
      LastByte(b, n, ExtensionOctets(split.0), split.1);
    }
    PaddingExact(padded, split.1, count);
    assert b == b[..n] + b[n..];
  }

  lemma LastByte(b: seq<u8>, n: nat, front: seq<u8>, rest: seq<u8>)
    requires n <= |b| && b[n..] == front + rest && rest != []
    ensures b != [] && b[|b| - 1] == rest[|rest| - 1]
  {
    assert b[|b| - 1] == b[n..][|b| - n - 1];
  }

  lemma FirstOctetOf(first: u8, body: Body)
    requires body.Valid() && first / 0x40 == 2
    requires |body.csrc| == 4 * (first % 0x10)
    requires body.extension.Some? <==> first / 0x10 % 2 == 1
    requires body.padding != [] <==> first / 0x20 % 2 == 1
    ensures FirstOctet(body) == first
  {
    assert first == 0x80 + first / 0x20 % 2 * 0x20 + first / 0x10 % 2 * 0x10 + first % 0x10;
  }

  /** Every well-formed packet is recovered, whole, from its octets. */
  lemma DecomposeBuild(p: RtpPacket)
    requires p.Valid()
    ensures Decompose(Build(p)) == Some(p)
  {
    var b := Build(p);
    FirstOctetBits(p.body);
    assert b[1..12] == HeaderOctets(p.header);
    HeaderInverts(p.header);
    assert b[12..] == BodyOctets(p.body);
    BodyInverts(p.body, b[|b| - 1]);
  }

  /** Decomposition loses nothing: the octets are those of the packet it finds. */
  lemma BuildDecompose(b: seq<u8>)
    ensures Decompose(b).Some? ==> Decompose(b).value.Valid() && Build(Decompose(b).value) == b
  {
    if Decompose(b).Some? {
      BodyExact(b[0], b[12..], b[|b| - 1]);
      HeaderExact(b[1..12]);
      assert b == [b[0]] + b[1..12] + b[12..];
    }
  }

  /** Where the extension of a packet ends, as an offset from the packet's start. */
  lemma ExtensionByOffset(packet: seq<u8>, offset: nat)
    requires offset + 4 <= |packet|
    ensures var end := offset + 4 + (Word16(packet[offset + 2], packet[offset + 3]) as int) * 4;
            match SplitExtension(true, packet[offset..])
            case None => end > |packet|
            case Some((_, rest)) => end <= |packet| && rest == packet[end..]
  {
    var b := packet[offset..];
    assert b[2] == packet[offset + 2] && b[3] == packet[offset + 3];
  }

  /** Where the payload of a packet ends, as an offset from the packet's start. */
  lemma PaddingByOffset(packet: seq<u8>, offset: nat, count: u8)
    requires offset <= |packet|
    ensures match SplitPadding(true, packet[offset..], count)
            case None => count == 0 || count > |packet| - offset
            case Some((payload, _)) => 0 < count <= |packet| - offset && payload == packet[offset..|packet| - count]
    ensures SplitPadding(false, packet[offset..], count) == Some((packet[offset..|packet|], []))
  {
    assert packet[offset..|packet|] == packet[offset..];
  }

  lemma HeaderReport(packet: seq<u8>)
    requires |packet| >= 12
    ensures var h := ParseHeader(packet[1..12]);
            && h.payloadType == packet[1] % 0x80
            && h.sequence == Word16(packet[2], packet[3])
            && h.ssrc == Word32(packet[8], packet[9], packet[10], packet[11])
  {
    var b := packet[1..12];
    assert b[0] == packet[1] && b[1] == packet[2] && b[2] == packet[3];
    assert b[7] == packet[8] && b[8] == packet[9] && b[9] == packet[10] && b[10] == packet[11];
  }

  /** The offset at which the payload starts, if everything before it fits. */
  function PayloadStart(packet: seq<u8>): Option<nat>
    requires |packet| >= 12
  {
    var offset: nat := 12 + (packet[0] % 0x10) * 4;
    if offset > |packet| then None
    else if packet[0] / 0x10 % 2 == 0 then Some(offset)
    else if offset + 4 > |packet| then None
    else
      var end: nat := offset + 4 + (Word16(packet[offset + 2], packet[offset + 3]) as int) * 4;
      if end > |packet| then None else Some(end)
  }

  /** The offset at which the payload ends, if the padding fits behind `start`. */
  function PayloadEnd(packet: seq<u8>, start: nat): (end: Option<nat>)
    requires |packet| >= 12 && start <= |packet|
    ensures end.Some? ==> start <= end.value <= |packet|
  {
    var count := packet[|packet| - 1];
    if packet[0] / 0x20 % 2 == 0 then Some(|packet|)
    else if count == 0 || count > |packet| - start then None
    else Some(|packet| - count)
  }

  function ReportAt(packet: seq<u8>, start: nat, end: nat): RtpPacketInfo
    requires |packet| >= 12 && start <= end <= |packet|
  {
    RtpPacketInfo(packet[1] % 0x80, Word16(packet[2], packet[3]),
                  Word32(packet[8], packet[9], packet[10], packet[11]), CodecHint(packet[start..end]))
  }

  /** What inspection reports about a packet, by offsets into it. */
  function Inspect(packet: seq<u8>): Option<RtpPacketInfo> {
    if |packet| < 12 || packet[0] / 0x40 != 2 then None
    else
      match PayloadStart(packet)
      case None => None
      case Some(start) =>
        match PayloadEnd(packet, start)
        case None => None
        case Some(end) => Some(ReportAt(packet, start, end))
  }

  /** The inspector itself: one pass over offsets. Every index is in bounds and no
      unsigned subtraction goes below zero. */
  method InspectRtpPacket(packet: seq<u8>) returns (info: Option<RtpPacketInfo>)
    ensures info == Inspect(packet)
  {
    if |packet| < 12 || packet[0] / 0x40 != 2 {
      return None;
    }
    var csrcCount: nat := packet[0] % 0x10;
    var payloadOffset: nat := 12 + csrcCount * 4;
    if payloadOffset > |packet| {
      return None;
    }
    if packet[0] / 0x10 % 2 != 0 {
      if payloadOffset + 4 > |packet| {
        return None;
      }
      var extensionWords: nat := Word16(packet[payloadOffset + 2], packet[payloadOffset + 3]);
      payloadOffset := payloadOffset + 4 + extensionWords * 4;
      if payloadOffset > |packet| {
        return None;
      }
    }
    var payloadEnd: nat := |packet|;
    if packet[0] / 0x20 % 2 != 0 {
      var padding: nat := packet[|packet| - 1];
      var available: nat := payloadEnd - payloadOffset;
      if padding == 0 || padding > available {
        return None;
      }
      payloadEnd := payloadEnd - padding;
    }
    var payload := packet[payloadOffset..payloadEnd];
    info := Some(RtpPacketInfo(
      packet[1] % 0x80, Word16(packet[2], packet[3]),
      Word32(packet[8], packet[9], packet[10], packet[11]), CodecHint(payload)));
  }

  // ----- Offsets and layout agree -----

  /** The decomposition of a packet whose sections are known. */
  lemma DecompositionOf(packet: seq<u8>, extension: Option<Extension>, rest: seq<u8>, payload: seq<u8>,
                        padding: seq<u8>)
    requires |packet| >= 12 && packet[0] / 0x40 == 2
    requires |packet| >= 12 + 4 * (packet[0] % 0x10)
    requires SplitExtension(packet[0] / 0x10 % 2 == 1, packet[12 + 4 * (packet[0] % 0x10)..]) == Some((extension, rest))
    requires SplitPadding(packet[0] / 0x20 % 2 == 1, rest, packet[|packet| - 1]) == Some((payload, padding))
    ensures Decompose(packet) == Some(RtpPacket(
              ParseHeader(packet[1..12]), Body(packet[12..][..4 * (packet[0] % 0x10)], extension, payload, padding)))
  {
    var n := 4 * (packet[0] % 0x10);
    assert packet[12..][n..] == packet[12 + n..];
  }

  /** No decomposition of a packet whose extension or padding does not fit. */
  lemma NoDecomposition(packet: seq<u8>)
    requires |packet| >= 12 && packet[0] / 0x40 == 2
    requires |packet| >= 12 + 4 * (packet[0] % 0x10)
    ensures match SplitExtension(packet[0] / 0x10 % 2 == 1, packet[12 + 4 * (packet[0] % 0x10)..])
            case None => Decompose(packet) == None
            case Some((_, rest)) =>
              SplitPadding(packet[0] / 0x20 % 2 == 1, rest, packet[|packet| - 1]) == None ==> Decompose(packet) == None
  {
    var n := 4 * (packet[0] % 0x10);
    assert packet[12..][n..] == packet[12 + n..];
  }

  lemma NoStartNoDecomposition(packet: seq<u8>)
    requires |packet| >= 12 && packet[0] / 0x40 == 2
    requires PayloadStart(packet) == None
    ensures Decompose(packet) == None
  {
    var offset := 12 + (packet[0] % 0x10) * 4;
    if offset <= |packet| {
      if offset + 4 <= |packet| {
        ExtensionByOffset(packet, offset);
      }
      NoDecomposition(packet);
    }
  }

  lemma StartIsExtensionEnd(packet: seq<u8>)
    requires |packet| >= 12
    requires PayloadStart(packet).Some?
    ensures |packet| >= 12 + 4 * (packet[0] % 0x10)
    ensures var split := SplitExtension(packet[0] / 0x10 % 2 == 1, packet[12 + 4 * (packet[0] % 0x10)..]);
            split.Some? && split.value.1 == packet[PayloadStart(packet).value..]
  {
    if packet[0] / 0x10 % 2 == 1 {
      ExtensionByOffset(packet, 12 + (packet[0] % 0x10) * 4);
    }
  }

  lemma DecompositionByOffsets(packet: seq<u8>)
    requires |packet| >= 12 && packet[0] / 0x40 == 2
    ensures match PayloadStart(packet)
            case None => Decompose(packet) == None
            case Some(start) =>
              match PayloadEnd(packet, start)
              case None => Decompose(packet) == None
              case Some(end) =>
                && Decompose(packet).Some?
                && Decompose(packet).value.header == ParseHeader(packet[1..12])
                && Decompose(packet).value.body.payload == packet[start..end]
  {
    if PayloadStart(packet) == None {
      NoStartNoDecomposition(packet);
    } else {
      var start := PayloadStart(packet).value;
      var last := packet[|packet| - 1];
      StartIsExtensionEnd(packet);
      PaddingByOffset(packet, start, last);
      var split := SplitPadding(packet[0] / 0x20 % 2 == 1, packet[start..], last);
      if split == None {
        NoDecomposition(packet);
      } else {
        var extension := SplitExtension(packet[0] / 0x10 % 2 == 1, packet[12 + 4 * (packet[0] % 0x10)..]).value.0;
        DecompositionOf(packet, extension, packet[start..], split.value.0, split.value.1);
      }
    }
  }

  /** Walking offsets finds exactly the layout: the report is that of the decomposed packet. */
  lemma InspectIsDecomposition(packet: seq<u8>)
    ensures Inspect(packet) == match Decompose(packet) case None => None case Some(p) => Some(p.Info())
  {
    if |packet| >= 12 && packet[0] / 0x40 == 2 {
      DecompositionByOffsets(packet);
      HeaderReport(packet);
    }
  }

  /** A packet is accepted exactly when it is the octets of some well-formed packet; the
      report is then that packet's, and no other packet has the same octets. */
  lemma AcceptedExactlyWhenWellFormed(b: seq<u8>)
    ensures Inspect(b).Some? <==> exists p: RtpPacket :: p.Valid() && Build(p) == b
    ensures forall p: RtpPacket :: p.Valid() && Build(p) == b ==>
              Decompose(b) == Some(p) && Inspect(b) == Some(p.Info())
  {
    InspectIsDecomposition(b);
    if Inspect(b).Some? {
      BuildDecompose(b);
    }
    forall p: RtpPacket | p.Valid() && Build(p) == b
      ensures Decompose(b) == Some(p)
    {
      DecomposeBuild(p);
    }
  }

  // ----- Octets and numbers -----

  /** The payload of a packet lies between two offsets: behind the header of version 2, the
      CSRC words and the extension, if the X bit is set, and before the padding, if the P bit
      is set. Numbers of two octets have their high octet first. */
  predicate Delimits(packet: seq<u8>, start: int, end: int) {
    && |packet| >= 12 && 128 <= packet[0] < 192
    && var offset := 12 + 4 * (packet[0] % 16);
    && (if packet[0] % 32 < 16 then start == offset
        else
          && offset + 4 <= |packet|
          && start == offset + 4 + 4 * (256 * (packet[offset + 2] as int) + packet[offset + 3]))
    && (if packet[0] % 64 < 32 then end == |packet|
        else packet[|packet| - 1] > 0 && end == |packet| - packet[|packet| - 1])
    && start <= end
  }

  lemma DelimitedAsWalked(packet: seq<u8>)
    requires |packet| >= 12 && packet[0] / 0x40 == 2
    ensures match PayloadStart(packet)
            case None => forall start, end :: !Delimits(packet, start, end)
            case Some(first) =>
              match PayloadEnd(packet, first)
              case None => forall start, end :: !Delimits(packet, start, end)
              case Some(last) => forall start, end :: Delimits(packet, start, end) <==> start == first && end == last
  {
  }

  /** A packet is accepted if and only if two offsets delimit its payload; they are unique. The
      report then gives the low seven bits of the second octet, the sequence number and the
      SSRC in network byte order, and the hint of the octets between the offsets. */
  lemma ReportInOctets(packet: seq<u8>)
    ensures Inspect(packet).Some? <==> exists start, end :: Delimits(packet, start, end)
    ensures forall start, end :: Delimits(packet, start, end) ==>
              Inspect(packet) == Some(RtpPacketInfo(
                packet[1] % 128, 256 * (packet[2] as int) + packet[3],
                (((packet[8] as int) * 256 + packet[9]) * 256 + packet[10]) * 256 + packet[11],
                CodecHint(packet[start..end])))
  {
    if |packet| >= 12 && packet[0] / 0x40 == 2 {
      DelimitedAsWalked(packet);
      if Inspect(packet).Some? {
        var start := PayloadStart(packet).value;
        assert Delimits(packet, start, PayloadEnd(packet, start).value);
      }
    }
  }

  /** The hint by its octets. H.265 has a two-octet header with layer 0 and a temporal id: a
      parameter set (types 32, 33 and 34) or a payload structure of RTP (48 and 49). H.264 has
      one octet, of which the low five bits are the type. */
  lemma HintByOctets(payload: seq<u8>)
    ensures CodecHint(payload) == H265 <==>
              && |payload| >= 2
              && payload[0] in {64, 66, 68, 96, 98, 192, 194, 196, 224, 226}
              && 1 <= payload[1] <= 7
    ensures CodecHint(payload) == H264 <==>
              && CodecHint(payload) != H265
              && payload != [] && payload[0] % 32 in {5, 7, 8, 24, 28}
  {
  }
}
