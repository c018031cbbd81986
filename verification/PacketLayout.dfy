/**
 * Headers as they are laid out on the wire, and the fields that the parser reads from
 * them: IPv4 by section 3.1 of RFC 791, TCP by section 3.1 of RFC 9293, UDP by RFC 768,
 * ICMP by RFC 792.
 */
module PacketLayout {
  import opened Machine
  import opened Packet

  lemma Read16(p: seq<byte>, i: nat, v: uint16)
    requires i + 2 <= |p| && p[i..i + 2] == Be16(v)
    ensures Rd16(p, i) == v
  {
    assert p[i] == p[i..i + 2][0] && p[i + 1] == p[i..i + 2][1];
  }

  lemma Read32(p: seq<byte>, i: nat, v: uint32)
    requires i + 4 <= |p| && p[i..i + 4] == Be32(v)
    ensures Rd32(p, i) == v
  {
    var high, low := v / 0x1_0000, v % 0x1_0000;
    hide Be16, Rd16, Rd32;
    assert p[i..i + 2] == p[i..i + 4][..2] == Be16(high);
    assert p[i + 2..i + 4] == p[i..i + 4][2..] == Be16(low);
    Read16(p, i, high);
    Read16(p, i + 2, low);
    Rd32Halves(p, i);
  }

  lemma Rd32Halves(p: seq<byte>, i: nat)
    requires i + 3 < |p|
    ensures Rd32(p, i) == Rd16(p, i) as int * 0x1_0000 + Rd16(p, i + 2)
  {
  }

  // ---- TCP

  // Fields of a TCP header. The reserved nibble and the two upper bits of the flags octet
  // are not looked at; neither are window, checksum and urgent pointer.
  datatype Tcp = Tcp(srcPort: uint16, dstPort: uint16, seqNo: uint32, ackNo: uint32, reserved: nat,
                     flags: byte, window: uint16, checksum: uint16, urgent: uint16, options: seq<byte>)

  predicate ValidTcp(h: Tcp) {
    h.reserved < 16 && |h.options| % 4 == 0 && |h.options| <= 40
  }

  function TcpHeader(h: Tcp): (b: seq<byte>)
    requires ValidTcp(h)
    ensures |b| == 20 + |h.options|
  {
    (Be16(h.srcPort) + Be16(h.dstPort)) + (Be32(h.seqNo) + Be32(h.ackNo)) +
    [(5 + |h.options| / 4) * 16 + h.reserved, h.flags] +
    (Be16(h.window) + Be16(h.checksum) + Be16(h.urgent)) + h.options
  }

  lemma TcpHeaderParts(h: Tcp, payload: seq<byte>)
    requires ValidTcp(h)
    ensures
      var p := TcpHeader(h) + payload;
      && |p| == 20 + |h.options| + |payload|
      && p[0..2] == Be16(h.srcPort) && p[2..4] == Be16(h.dstPort)
      && p[4..8] == Be32(h.seqNo) && p[8..12] == Be32(h.ackNo)
      && p[12] == (5 + |h.options| / 4) * 16 + h.reserved && p[13] == h.flags && p[20 + |h.options|..] == payload
  {
    hide Be16, Be32;
  }

  // What was sent in the header is what the parser finds, and what follows it is the payload.
  lemma TcpRoundTrip(h: Tcp, payload: seq<byte>)
    requires ValidTcp(h)
    ensures ParseL4(TcpHeader(h) + payload, 6) ==
              L4(true, false, h.srcPort, h.dstPort, h.seqNo, h.ackNo, h.flags % 64, payload, false)
  {
    hide Be16, Be32, Rd16, Rd32, TcpHeader;
    var p := TcpHeader(h) + payload;
    TcpHeaderParts(h, payload);
    Read16(p, 0, h.srcPort);
    Read16(p, 2, h.dstPort);
    Read32(p, 4, h.seqNo);
    Read32(p, 8, h.ackNo);
  }

  // ---- UDP and ICMP

  function UdpHeader(srcPort: uint16, dstPort: uint16, length: uint16, checksum: uint16): (b: seq<byte>)
    ensures |b| == 8
  {
    Be16(srcPort) + Be16(dstPort) + Be16(length) + Be16(checksum)
  }

  // The length field says where the payload ends; one that cannot be right is ignored.
  lemma UdpRoundTrip(srcPort: uint16, dstPort: uint16, length: uint16, checksum: uint16, rest: seq<byte>)
    ensures
      var payload := if 8 <= length <= 8 + |rest| then rest[..length - 8] else rest;
      ParseL4(UdpHeader(srcPort, dstPort, length, checksum) + rest, 17) ==
        L4(false, true, srcPort, dstPort, 0, 0, 0, payload, false)
  {
    hide Be16, Rd16;
    var p := UdpHeader(srcPort, dstPort, length, checksum) + rest;
    assert p[0..2] == Be16(srcPort) && p[2..4] == Be16(dstPort) && p[4..6] == Be16(length) && p[8..] == rest;
    Read16(p, 0, srcPort);
    Read16(p, 2, dstPort);
    Read16(p, 4, length);
    if 8 <= length <= 8 + |rest| {
      assert p[8..length] == rest[..length - 8];
    }
  }

  // Type and code of an ICMP message stand where ports would.
  lemma IcmpRoundTrip(proto: byte, kind: byte, code: byte, checksum: uint16, rest: seq<byte>)
    requires proto == 1 || proto == 58
    ensures ParseL4([kind, code] + Be16(checksum) + rest, proto) ==
              L4(false, false, kind, code, 0, 0, 0, rest, false)
  {
  }

  lemma OtherL4(proto: byte, p: seq<byte>)
    requires proto !in {1, 6, 17, 58}
    ensures ParseL4(p, proto) == L4(false, false, 0, 0, 0, 0, 0, p, false)
  {
  }

  // A header that is cut off, or whose TCP data offset points into it or past the end.
  lemma TruncatedIff(proto: byte, p: seq<byte>)
    ensures ParseL4(p, proto).truncated <==>
              || (proto == 6 && (|p| < 20 || p[12] < 0x50 || p[12] / 16 * 4 > |p|))
              || (proto == 17 && |p| < 8)
              || ((proto == 1 || proto == 58) && |p| < 4)
    ensures ParseL4(p, proto).truncated ==> ParseL4(p, proto).payload == []
  {
  }

  // ---- IPv4

  // Fields of an IPv4 header; offset counts units of 8 bytes.
  datatype Ipv4 = Ipv4(service: byte, id: uint16, reserved: bool, dontFragment: bool, more: bool, offset: nat,
                       ttl: byte, proto: byte, checksum: uint16, src: seq<byte>, dst: seq<byte>, options: seq<byte>)

  predicate ValidIpv4(h: Ipv4) {
    && h.offset < 0x2000 && |h.src| == 4 && |h.dst| == 4
    && |h.options| % 4 == 0 && |h.options| <= 40
  }

  function FlagsWord(h: Ipv4): uint16
    requires ValidIpv4(h)
  {
    (if h.reserved then 0x8000 else 0) + (if h.dontFragment then 0x4000 else 0) +
    (if h.more then 0x2000 else 0) + h.offset
  }

  function Ipv4Header(h: Ipv4, payload: nat): (b: seq<byte>)
    requires ValidIpv4(h) && 20 + |h.options| + payload < TWO_16
    ensures |b| == 20 + |h.options|
  {
    [4 * 16 + 5 + |h.options| / 4, h.service] +
    (Be16(20 + |h.options| + payload) + Be16(h.id) + Be16(FlagsWord(h))) +
    [h.ttl, h.proto] + Be16(h.checksum) + (h.src + h.dst) + h.options
  }

  lemma Ipv4HeaderParts(h: Ipv4, payload: seq<byte>, padding: seq<byte>)
    requires ValidIpv4(h) && 20 + |h.options| + |payload| < TWO_16
    ensures
      var (p, n) := (Ipv4Header(h, |payload|) + payload + padding, 20 + |h.options|);
      && |p| == n + |payload| + |padding|
      && p[0] == 4 * 16 + 5 + |h.options| / 4 && p[2..4] == Be16(n + |payload|) && p[4..6] == Be16(h.id)
      && p[6..8] == Be16(FlagsWord(h)) && p[9] == h.proto && p[12..16] == h.src && p[16..20] == h.dst
      && p[n..n + |payload|] == payload
  {
    hide Be16, FlagsWord;
  }

  lemma FlagsWordParts(h: Ipv4)
    requires ValidIpv4(h)
    ensures FlagsWord(h) / 0x2000 % 2 == (if h.more then 1 else 0) && FlagsWord(h) % 0x2000 == h.offset
  {
  }

  const ZEROS12: seq<byte> := [0, 0, 0, 0, 0, 0, 0, 0, 0, 0, 0, 0]

  // A packet is not taken for IPv4 exactly when it is too short for its header, of another
  // version, or announces a header below 20 bytes, past the end or longer than the packet.
  lemma Refused4Iff(p: seq<byte>)
    ensures
      !ParseIpv4(p).isIpv4 <==>
        || |p| < 20 || p[0] < 0x45 || 0x50 <= p[0]
        || 4 * (p[0] as int - 0x40) > |p| || p[2] as int * 256 + p[3] < 4 * (p[0] as int - 0x40)
  {
  }

  // Every field that is used, and the payload without what the link layer has padded.
  lemma Ipv4RoundTrip(h: Ipv4, payload: seq<byte>, padding: seq<byte>)
    requires ValidIpv4(h) && 20 + |h.options| + |payload| < TWO_16
    ensures ParseIpv4(Ipv4Header(h, |payload|) + payload + padding) ==
              ParsedPacket(true, false, h.src + ZEROS12, h.dst + ZEROS12, h.proto,
                           h.more || 0 < h.offset, h.offset == 0, h.id, 8 * h.offset, h.more,
                           if h.offset == 0 then ParseL4(payload, h.proto) else NO_L4, payload)
  {
    hide Be16, Rd16, Ipv4Header, FlagsWord, ParseL4;
    var p := Ipv4Header(h, |payload|) + payload + padding;
    Ipv4HeaderParts(h, payload, padding);
    Read16(p, 2, 20 + |h.options| + |payload|);
    Read16(p, 4, h.id);
    Read16(p, 6, FlagsWord(h));
    FlagsWordParts(h);
    assert HeaderLen(p) == 20 + |h.options|;
    assert IpPayload(p) == payload;
  }

  // ---- in bytes of a frame at hand

  // The fields of l4 are these bytes of p.
  predicate Says(l4: L4, p: seq<byte>, proto: byte) {
    if proto == 6 && 20 <= |p| then
      var n := p[12] / 16 * 4;
      && l4.isTcp && !l4.isUdp && l4.srcPort == p[0] as int * 256 + p[1] && l4.dstPort == p[2] as int * 256 + p[3]
      && l4.tcpSeq == ((p[4] as int * 256 + p[5]) * 256 + p[6]) * 256 + p[7]
      && l4.tcpAck == ((p[8] as int * 256 + p[9]) * 256 + p[10]) * 256 + p[11]
      && l4.tcpFlags == p[13] % 64
      && (l4.truncated <==> n < 20 || |p| < n) && l4.payload == if l4.truncated then [] else p[n..]
    else if proto == 17 && 8 <= |p| then
      var length := p[4] as int * 256 + p[5];
      && !l4.isTcp && l4.isUdp && l4.srcPort == p[0] as int * 256 + p[1] && l4.dstPort == p[2] as int * 256 + p[3]
      && !l4.truncated && l4.payload == if 8 <= length <= |p| then p[8..length] else p[8..]
    else if (proto == 1 || proto == 58) && 4 <= |p| then
      !l4.isTcp && !l4.isUdp && !l4.truncated && l4.srcPort == p[0] && l4.dstPort == p[1] && l4.payload == p[4..]
    else
      && !l4.isTcp && !l4.isUdp && l4.srcPort == 0 && l4.dstPort == 0
      && (l4.truncated <==> proto in {1, 6, 17, 58}) && l4.payload == if l4.truncated then [] else p
  }

  lemma ParseSays(p: seq<byte>, proto: byte)
    ensures Says(ParseL4(p, proto), p, proto)
  {
  }
}
