/** The IPv6 part of the parser: the walk over extension headers and what it finds. */
module PacketV6 {
  import opened Machine
  import opened Packet

  const HEADER_LEN := 40
  const MAX_HOPS := 8

  const HOP_BY_HOP: byte := 0
  const ROUTING: byte := 43
  const FRAGMENT: byte := 44
  const AUTHENTICATION: byte := 51
  const DESTINATION: byte := 60

  // Where the walk is: the type of the next header and where that header begins.
  datatype Place = Place(next: byte, off: nat)

  // How the walk ends: cut short, or somewhere with so many hops left.
  datatype Stop = Short | At(place: Place, left: nat)

  predicate IsExtension(next: byte) {
    next == HOP_BY_HOP || next == ROUTING || next == DESTINATION || next == AUTHENTICATION
  }

  // Over one extension header; the authentication header counts its length in words.
  function Over(p: seq<byte>, c: Place): (r: Option<Place>)
    ensures r.Some? ==> c.off < r.value.off <= |p|
  {
    if |p| < c.off + 2 then None
    else
      var n := if c.next == AUTHENTICATION then (p[c.off + 1] as int + 2) * 4 else (p[c.off + 1] as int + 1) * 8;
      if |p| < c.off + n then None else Some(Place(p[c.off], c.off + n))
  }

  function Walk(p: seq<byte>, c: Place, left: nat): (s: Stop)
    requires c.off <= |p|
    ensures s.At? ==>
      && c.off <= s.place.off <= |p|
      && (IsExtension(c.next) && 0 < left ==> c.off < s.place.off)
    decreases left
  {
    if left == 0 || !IsExtension(c.next) then At(c, left)
    else
      match Over(p, c)
      case None => Short
      case Some(c1) => Walk(p, c1, left - 1)
  }

  predicate HeaderOk6(p: seq<byte>) {
    HEADER_LEN <= |p| && p[0] / 16 == 6
  }

  function FirstPlace(p: seq<byte>): Place
    requires HeaderOk6(p)
  {
    Place(p[6], HEADER_LEN)
  }

  // One round of the loop: the length of the header, and where the next one is.
  method SkipOne(p: seq<byte>, next: byte, off: nat) returns (r: Option<Place>)
    ensures r == Over(p, Place(next, off))
  {
    if |p| < off + 2 {
      return None;
    }
    var n := (p[off + 1] as int + 1) * 8;
    if next == AUTHENTICATION {
      n := (p[off + 1] as int + 2) * 4;
    }
    if |p| < off + n {
      return None;
    }
    r := Some(Place(p[off], off + n));
  }

  // The extension header loop.
  method SkipExtensions(p: seq<byte>) returns (s: Stop)
    requires HeaderOk6(p)
    ensures s == Walk(p, FirstPlace(p), MAX_HOPS)
  {
    hide Over;
    var next, off: nat := p[6], HEADER_LEN;
    var hops := 0;
    while hops < MAX_HOPS && IsExtension(next)
      invariant 0 <= hops <= MAX_HOPS && off <= |p|
      invariant Walk(p, FirstPlace(p), MAX_HOPS) == Walk(p, Place(next, off), MAX_HOPS - hops)
    {
      var r := SkipOne(p, next, off);
      if r == None {
        return Short;
      }
      next, off, hops := r.value.next, r.value.off, hops + 1;
    }
    s := At(Place(next, off), MAX_HOPS - hops);
  }

  // What is known of the packet when parsing stops early.
  function Addresses(p: seq<byte>): ParsedPacket
    requires HeaderOk6(p)
  {
    BLANK.(isIpv6 := true, srcIp := p[8..24], dstIp := p[24..40])
  }

  function WithL4(pp: ParsedPacket, proto: byte, data: seq<byte>): ParsedPacket {
    pp.(l4Proto := proto, l4Data := data,
        l4 := if pp.isFragment && !pp.firstFragment then NO_L4 else ParseL4(data, proto))
  }

  // The fragment header is the last one looked at.
  function ParseStop(p: seq<byte>, s: Stop): ParsedPacket
    requires HeaderOk6(p) && (s.At? ==> s.place.off <= |p|)
  {
    match s
    case Short => Addresses(p).(l4 := TRUNCATED_L4)
    case At(c, left) =>
      if c.next != FRAGMENT || left == 0 then WithL4(Addresses(p), c.next, p[c.off..])
      else if |p| < c.off + 8 then Addresses(p).(l4 := TRUNCATED_L4)
      else
        var offM := Rd16(p, c.off + 2);
        var off := offM / 8 * 8;
        WithL4(Addresses(p).(isFragment := true, firstFragment := off == 0, fragId := Rd32(p, c.off + 4),
                             fragOffset := off, fragMore := offM % 2 == 1),
               p[c.off], p[c.off + 8..])
  }

  function ParseIpv6(p: seq<byte>): ParsedPacket {
    if !HeaderOk6(p) then TRUNCATED else ParseStop(p, Walk(p, FirstPlace(p), MAX_HOPS))
  }

  method Parse(p: seq<byte>) returns (pp: ParsedPacket)
    ensures pp == ParseIpv6(p)
  {
    if |p| < HEADER_LEN || p[0] / 16 != 6 {
      return TRUNCATED;
    }
    var s := SkipExtensions(p);
    pp := ParseStop(p, s);
  }

  // k extension headers lie between two places.
  predicate Reaches(p: seq<byte>, from: Place, k: nat, to: Place)
    decreases k
  {
    if k == 0 then from == to
    else IsExtension(from.next) && Over(p, from).Some? && Reaches(p, Over(p, from).value, k - 1, to)
  }

  lemma {:induction false} WalkOn(p: seq<byte>, from: Place, k: nat, to: Place, left: nat)
    requires from.off <= |p| && Reaches(p, from, k, to) && k <= left
    ensures to.off <= |p| && from.off <= to.off && Walk(p, from, left) == Walk(p, to, left - k)
    decreases k
  {
    if 0 < k {
      WalkOn(p, Over(p, from).value, k - 1, to, left - 1);
    }
  }

  lemma WalkEnds(p: seq<byte>, c: Place, left: nat)
    requires c.off <= |p| && !IsExtension(c.next)
    ensures Walk(p, c, left) == At(c, left)
  {
  }
}
