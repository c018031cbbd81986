/** IPv6 packets as sections 3 and 4 of RFC 8200 lay them out, and what the parser reads from them. */
module PacketLayoutV6 {
  import opened Machine
  import opened Packet
  import opened PacketV6
  import opened PacketLayout

  // One extension header: its type, and what follows its type and length octets.
  datatype Extension = Extension(kind: byte, body: seq<byte>)

  // The length octet counts units of 8 octets beyond the first 8; that of an authentication
  // header counts units of 4 octets beyond the first 8 (section 2.2 of RFC 4302).
  predicate Valid(e: Extension) {
    if e.kind == 51 then (|e.body| + 2) % 4 == 0 && 8 <= |e.body| + 2 <= 8 + 4 * 255
    else e.kind in {0, 43, 60} && (|e.body| + 2) % 8 == 0 && 8 <= |e.body| + 2 <= 8 + 8 * 255
  }

  predicate AllValid(es: seq<Extension>) {
    forall i :: 0 <= i < |es| ==> Valid(es[i])
  }

  function LengthOctet(e: Extension): byte
    requires Valid(e)
  {
    if e.kind == 51 then (|e.body| + 2) / 4 - 2 else (|e.body| + 2) / 8 - 1
  }

  // The type of the first header of a chain that ends with a header of type last.
  function FirstKind(es: seq<Extension>, last: byte): byte {
    if es == [] then last else es[0].kind
  }

  // Each header names the type of the next one.
  function Chain(es: seq<Extension>, last: byte): seq<byte>
    requires AllValid(es)
  {
    if es == [] then []
    else ([FirstKind(es[1..], last), LengthOctet(es[0])] + es[0].body) + Chain(es[1..], last)
  }

  function Header(traffic: seq<byte>, length: uint16, next: byte, hopLimit: byte, src: seq<byte>, dst: seq<byte>)
    : (b: seq<byte>)
    requires |traffic| == 4 && |src| == 16 && |dst| == 16
    ensures |b| == 40
  {
    traffic + Be16(length) + [next, hopLimit] + src + dst
  }

  lemma HeaderParts(traffic: seq<byte>, length: uint16, next: byte, hopLimit: byte, src: seq<byte>, dst: seq<byte>,
                    rest: seq<byte>)
    requires |traffic| == 4 && |src| == 16 && |dst| == 16
    ensures
      var p := Header(traffic, length, next, hopLimit, src, dst) + rest;
      p[0] == traffic[0] && p[6] == next && p[8..24] == src && p[24..40] == dst && p[40..] == rest && |p| == 40 + |rest|
  {
    hide Be16;
  }

  lemma OverOne(p: seq<byte>, off: nat, e: Extension, next: byte, rest: seq<byte>)
    requires Valid(e) && off <= |p| && p[off..] == ([next, LengthOctet(e)] + e.body) + rest
    ensures IsExtension(e.kind)
    ensures var off1 := off + 2 + |e.body|;
            off1 <= |p| && p[off1..] == rest && Over(p, Place(e.kind, off)) == Some(Place(next, off1))
  {
    hide Valid, LengthOctet;
    var head := [next, LengthOctet(e)] + e.body;
    assert |p[off..]| == |head| + |rest|;
    assert p[off] == p[off..][0] && p[off + 1] == p[off..][1];
    assert p[off + 2 + |e.body|..] == p[off..][|head|..];
    LengthRight(e);
  }

  lemma LengthRight(e: Extension)
    requires Valid(e)
    ensures IsExtension(e.kind)
    ensures var n := LengthOctet(e) as int;
            2 + |e.body| == if e.kind == AUTHENTICATION then (n + 2) * 4 else (n + 1) * 8
  {
  }

  lemma {:induction false} ChainReached(p: seq<byte>, off: nat, es: seq<Extension>, last: byte, rest: seq<byte>)
    requires AllValid(es) && off <= |p| && p[off..] == Chain(es, last) + rest
    ensures
      var end := off + |Chain(es, last)|;
      end <= |p| && p[end..] == rest && Reaches(p, Place(FirstKind(es, last), off), |es|, Place(last, end))
    decreases |es|
  {
    hide Valid, LengthOctet, Over, IsExtension;
    if es != [] {
      var next, tail := FirstKind(es[1..], last), Chain(es[1..], last);
      var head := [next, LengthOctet(es[0])] + es[0].body;
      assert (head + tail) + rest == head + (tail + rest);
      OverOne(p, off, es[0], next, tail + rest);
      ChainReached(p, off + 2 + |es[0].body|, es[1..], last, rest);
    } else {
      assert Chain(es, last) + rest == rest;
    }
  }

  // The walk goes over every extension header, up to eight, and ends where they end.
  lemma WalkChain(p: seq<byte>, es: seq<Extension>, last: byte, rest: seq<byte>)
    requires HeaderOk6(p) && AllValid(es) && |es| <= 8
    requires p[6] == FirstKind(es, last) && p[40..] == Chain(es, last) + rest
    requires last !in {0, 43, 51, 60} || |es| == 8
    ensures
      var end := 40 + |Chain(es, last)|;
      end <= |p| && p[end..] == rest && Walk(p, FirstPlace(p), MAX_HOPS) == At(Place(last, end), 8 - |es|)
  {
    hide Reaches, Chain;
    ChainReached(p, 40, es, last, rest);
    WalkOn(p, FirstPlace(p), |es|, Place(last, 40 + |Chain(es, last)|), MAX_HOPS);
  }

  // A packet that is not fragmented: addresses, the protocol behind the extension headers and
  // its fields. Of a ninth extension header, or a fragment header behind eight, only the type is seen.
  lemma Ipv6RoundTrip(traffic: seq<byte>, length: uint16, hopLimit: byte, src: seq<byte>, dst: seq<byte>,
                      es: seq<Extension>, last: byte, rest: seq<byte>)
    requires |traffic| == 4 && traffic[0] / 16 == 6 && |src| == 16 && |dst| == 16
    requires AllValid(es) && |es| <= 8 && (last !in {0, 43, 44, 51, 60} || |es| == 8)
    ensures
      var p := Header(traffic, length, FirstKind(es, last), hopLimit, src, dst) + (Chain(es, last) + rest);
      ParseIpv6(p) == ParsedPacket(false, true, src, dst, last, false, false, 0, 0, false, ParseL4(rest, last), rest)
  {
    hide Header, Chain, ParseL4, Walk, Reaches;
    var p := Header(traffic, length, FirstKind(es, last), hopLimit, src, dst) + (Chain(es, last) + rest);
    HeaderParts(traffic, length, FirstKind(es, last), hopLimit, src, dst, Chain(es, last) + rest);
    WalkChain(p, es, last, rest);
  }

  // The fragment header; spare are the two reserved bits beside the flag, and offset counts
  // units of 8 octets.
  function FragmentHeader(next: byte, reserved: byte, offset: nat, spare: nat, more: bool, id: uint32): (b: seq<byte>)
    requires offset < 0x2000 && spare < 4
    ensures |b| == 8
  {
    [next, reserved] + Be16(8 * offset + 2 * spare + if more then 1 else 0) + Be32(id)
  }

  lemma FragmentWord(offset: nat, spare: nat, more: bool)
    requires offset < 0x2000 && spare < 4
    ensures
      var w := 8 * offset + 2 * spare + if more then 1 else 0;
      w / 8 * 8 == 8 * offset && (w % 2 == 1 <==> more) && w < TWO_16
  {
    var low := 2 * spare + if more then 1 else 0;
    Eighths(offset, low);
    Odd(4 * offset + spare, if more then 1 else 0);
  }

  lemma Eighths(n: nat, low: nat)
    requires low < 8
    ensures (8 * n + low) / 8 == n
  {
  }

  lemma Odd(n: nat, bit: nat)
    requires bit < 2
    ensures (2 * n + bit) % 2 == bit && (2 * n + bit) / 2 == n
  {
  }

  lemma FragmentParts(next: byte, reserved: byte, offset: nat, spare: nat, more: bool, id: uint32, data: seq<byte>,
                      p: seq<byte>, v: nat)
    requires offset < 0x2000 && spare < 4
    requires v <= |p| && p[v..] == FragmentHeader(next, reserved, offset, spare, more, id) + data
    ensures v + 8 <= |p| && p[v] == next && p[v + 8..] == data && Rd32(p, v + 4) == id
    ensures Rd16(p, v + 2) == 8 * offset + 2 * spare + if more then 1 else 0
  {
    hide Be16, Be32, Rd16, Rd32;
    var q, word := p[v..], 8 * offset + 2 * spare + if more then 1 else 0;
    assert q[0] == next && q[2..4] == Be16(word) && q[4..8] == Be32(id) && q[8..] == data;
    assert p[v] == q[0] && p[v + 2..v + 4] == q[2..4] && p[v + 4..v + 8] == q[4..8] && p[v + 8..] == q[8..];
    Read16(p, v + 2, word);
    Read32(p, v + 4, id);
  }

  // A fragment, after at most seven extension headers.
  lemma FragmentRoundTrip(traffic: seq<byte>, length: uint16, hopLimit: byte, src: seq<byte>, dst: seq<byte>,
                          es: seq<Extension>, next: byte, reserved: byte, offset: nat, spare: nat, more: bool,
                          id: uint32, data: seq<byte>)
    requires |traffic| == 4 && traffic[0] / 16 == 6 && |src| == 16 && |dst| == 16
    requires AllValid(es) && |es| < 8 && offset < 0x2000 && spare < 4
    ensures
      var p := Header(traffic, length, FirstKind(es, 44), hopLimit, src, dst) +
               (Chain(es, 44) + (FragmentHeader(next, reserved, offset, spare, more, id) + data));
      ParseIpv6(p) == ParsedPacket(false, true, src, dst, next, true, offset == 0, id, 8 * offset, more,
                                   if offset == 0 then ParseL4(data, next) else NO_L4, data)
  {
    hide Header, Chain, ParseL4, Walk, Reaches, FragmentHeader, Rd16, Rd32, ParseIpv6, AllValid;
    var rest := FragmentHeader(next, reserved, offset, spare, more, id) + data;
    var p := Header(traffic, length, FirstKind(es, 44), hopLimit, src, dst) + (Chain(es, 44) + rest);
    HeaderParts(traffic, length, FirstKind(es, 44), hopLimit, src, dst, Chain(es, 44) + rest);
    WalkChain(p, es, 44, rest);
    FragmentRead(p, 40 + |Chain(es, 44)|, 8 - |es|, next, reserved, offset, spare, more, id, data);
  }

  lemma FragmentRead(p: seq<byte>, v: nat, left: nat, next: byte, reserved: byte, offset: nat, spare: nat,
                     more: bool, id: uint32, data: seq<byte>)
    requires HeaderOk6(p) && v <= |p| && Walk(p, FirstPlace(p), MAX_HOPS) == At(Place(44, v), left) && 0 < left
    requires offset < 0x2000 && spare < 4
    requires p[v..] == FragmentHeader(next, reserved, offset, spare, more, id) + data
    ensures
      ParseIpv6(p) == ParsedPacket(false, true, p[8..24], p[24..40], next, true, offset == 0, id, 8 * offset, more,
                                   if offset == 0 then ParseL4(data, next) else NO_L4, data)
  {
    hide ParseL4, Walk, FragmentHeader, Rd16, Rd32, ParseIpv6;
    FragmentParts(next, reserved, offset, spare, more, id, data, p, v);
    FragmentWord(offset, spare, more);
    ParseFragment(p, v, left);
  }

  // What the parser makes of a fragment header at v.
  lemma ParseFragment(p: seq<byte>, v: nat, left: nat)
    requires HeaderOk6(p) && Walk(p, FirstPlace(p), MAX_HOPS) == At(Place(44, v), left) && 0 < left && v + 8 <= |p|
    ensures
      var (word, data) := (Rd16(p, v + 2), p[v + 8..]);
      var off := word / 8 * 8;
      ParseIpv6(p) == ParsedPacket(false, true, p[8..24], p[24..40], p[v], true, off == 0, Rd32(p, v + 4), off,
                                   word % 2 == 1, if off == 0 then ParseL4(data, p[v]) else NO_L4, data)
  {
    hide ParseL4, Walk, Rd16, Rd32;
  }

  // ---- what is cut off

  // Part of an extension or fragment header, less than it takes or announces.
  predicate IsCut(kind: byte, part: seq<byte>) {
    if kind == 44 then |part| < 8
    else
      && kind in {0, 43, 51, 60}
      && (|part| < 2 || |part| < if kind == 51 then 4 * (part[1] as int + 2) else 8 * (part[1] as int + 1))
  }

  // Of a packet that ends within a header only the addresses are seen.
  lemma CutOff(traffic: seq<byte>, length: uint16, hopLimit: byte, src: seq<byte>, dst: seq<byte>,
               es: seq<Extension>, kind: byte, part: seq<byte>)
    requires |traffic| == 4 && traffic[0] / 16 == 6 && |src| == 16 && |dst| == 16
    requires AllValid(es) && |es| < 8 && IsCut(kind, part)
    ensures
      var p := Header(traffic, length, FirstKind(es, kind), hopLimit, src, dst) + (Chain(es, kind) + part);
      ParseIpv6(p) == ParsedPacket(false, true, src, dst, 0, false, false, 0, 0, false,
                                   L4(false, false, 0, 0, 0, 0, 0, [], true), [])
  {
    hide Header, Chain, Reaches;
    var p := Header(traffic, length, FirstKind(es, kind), hopLimit, src, dst) + (Chain(es, kind) + part);
    HeaderParts(traffic, length, FirstKind(es, kind), hopLimit, src, dst, Chain(es, kind) + part);
    ChainReached(p, 40, es, kind, part);
    var c := Place(kind, 40 + |Chain(es, kind)|);
    WalkOn(p, FirstPlace(p), |es|, c, MAX_HOPS);
    WalkCut(p, c, part, MAX_HOPS - |es|);
  }

  lemma WalkCut(p: seq<byte>, c: Place, part: seq<byte>, left: nat)
    requires c.off <= |p| && p[c.off..] == part && IsCut(c.next, part) && 0 < left
    ensures |p| == c.off + |part| && (Walk(p, c, left) == if c.next == 44 then At(c, left) else Short)
  {
    if c.off + 2 <= |p| {
      assert p[c.off + 1] == part[1];
    }
  }

  lemma Refused6Iff(p: seq<byte>)
    ensures !ParseIpv6(p).isIpv6 <==> |p| < 40 || p[0] < 0x60 || 0x70 <= p[0]
  {
  }
}
