/**
 * The decoded view of a packet, and the parts of the parser that fill it in:
 * the IPv4 header and the L4 headers. A view into the frame is the bytes it shows.
 */
module Packet {
  import opened Machine

  const IP_PROTO_ICMP: byte := 1
  const IP_PROTO_TCP: byte := 6
  const IP_PROTO_UDP: byte := 17
  const IP_PROTO_ICMPV6: byte := 58

  datatype L4 = L4(
    isTcp: bool, isUdp: bool,
    srcPort: uint16, dstPort: uint16,
    tcpSeq: uint32, tcpAck: uint32, tcpFlags: byte,
    payload: seq<byte>,
    truncated: bool)

  datatype ParsedPacket = ParsedPacket(
    isIpv4: bool, isIpv6: bool,
    srcIp: seq<byte>, dstIp: seq<byte>, l4Proto: byte,
    isFragment: bool, firstFragment: bool,
    fragId: uint32, fragOffset: uint32, fragMore: bool,
    l4: L4, l4Data: seq<byte>)

  const NO_L4: L4 := L4(false, false, 0, 0, 0, 0, 0, [], false)
  const TRUNCATED_L4: L4 := NO_L4.(truncated := true)
  const BLANK: ParsedPacket :=
    ParsedPacket(false, false, [], [], 0, false, false, 0, 0, false, NO_L4, [])
  const TRUNCATED: ParsedPacket := BLANK.(l4 := TRUNCATED_L4)

  function Rd16(p: seq<byte>, i: nat): (v: uint16)
    requires i + 1 < |p|
  {
    (p[i] as int) * 256 + p[i + 1]
  }

  function Rd32(p: seq<byte>, i: nat): (v: uint32)
    requires i + 3 < |p|
  {
    (p[i] as int) * 0x100_0000 + (p[i + 1] as int) * 0x1_0000 + (p[i + 2] as int) * 256 + p[i + 3]
  }

  function ParseL4(p: seq<byte>, proto: byte): L4 {
    if proto == IP_PROTO_TCP then
      if |p| < 20 then TRUNCATED_L4
      else
        var hdrLen := (p[12] / 16) * 4;
        var l4 := L4(true, false, Rd16(p, 0), Rd16(p, 2), Rd32(p, 4), Rd32(p, 8), p[13] % 64, [], false);
        if hdrLen < 20 || hdrLen > |p| then l4.(truncated := true) else l4.(payload := p[hdrLen..])
    else if proto == IP_PROTO_UDP then
      if |p| < 8 then TRUNCATED_L4
      else
        var udpLen := Rd16(p, 4);
        var payLen := if 8 <= udpLen <= |p| then udpLen - 8 else |p| - 8;
        NO_L4.(isUdp := true, srcPort := Rd16(p, 0), dstPort := Rd16(p, 2), payload := p[8..8 + payLen])
    else if proto == IP_PROTO_ICMP || proto == IP_PROTO_ICMPV6 then
      if |p| < 4 then TRUNCATED_L4
      else NO_L4.(srcPort := p[0], dstPort := p[1], payload := p[4..])
    else NO_L4.(payload := p)
  }

  // An IPv4 address occupies the first 4 of 16 bytes.
  function Ip4(p: seq<byte>, i: nat): seq<byte>
    requires i + 4 <= |p|
  {
    p[i..i + 4] + [0, 0, 0, 0, 0, 0, 0, 0, 0, 0, 0, 0]
  }

  function HeaderLen(p: seq<byte>): nat
    requires 0 < |p|
  {
    (p[0] % 16) * 4
  }

  predicate HeaderOk(p: seq<byte>) {
    && 20 <= |p| && p[0] / 16 == 4
    && 20 <= HeaderLen(p) <= |p|
    && HeaderLen(p) <= Rd16(p, 2)
  }

  // The IP payload; bytes past the announced length are link-layer padding.
  function IpPayload(p: seq<byte>): seq<byte>
    requires HeaderOk(p)
  {
    p[HeaderLen(p)..if Rd16(p, 2) <= |p| then Rd16(p, 2) else |p|]
  }

  function MoreFragments(p: seq<byte>): bool
    requires 8 <= |p|
  {
    (Rd16(p, 6) / 0x2000) % 2 == 1
  }

  function FragmentOffset(p: seq<byte>): nat
    requires 8 <= |p|
  {
    (Rd16(p, 6) % 0x2000) * 8
  }

  function ParseIpv4(p: seq<byte>): ParsedPacket {
    if !HeaderOk(p) then TRUNCATED
    else
      var more, off := MoreFragments(p), FragmentOffset(p);
      ParsedPacket(true, false, Ip4(p, 12), Ip4(p, 16), p[9], more || off > 0, off == 0, Rd16(p, 4), off, more,
                   if off == 0 then ParseL4(IpPayload(p), p[9]) else NO_L4, IpPayload(p))
  }

  // The packet handed on once a datagram is complete: L3 of the completing
  // fragment, L4 parsed again from the assembled bytes.
  function Reassembled(frag: ParsedPacket, datagram: seq<byte>): ParsedPacket {
    BLANK.(isIpv4 := frag.isIpv4, isIpv6 := frag.isIpv6, srcIp := frag.srcIp, dstIp := frag.dstIp,
           l4Proto := frag.l4Proto, l4Data := datagram, l4 := ParseL4(datagram, frag.l4Proto))
  }
}
