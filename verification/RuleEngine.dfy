/** Matching a packet against the loaded rules: header first, then contents. */
module RuleEngine {
  import opened Machine
  import opened CidrTrie
  import opened RuleMatch

  datatype Proto = Any | Tcp | Udp | Icmp

  datatype PortMatcher = PortMatcher(ranges: seq<(uint16, uint16)>, any: bool, negated: bool)

  // Rules with pcre options are not loaded in a build without PCRE.
  datatype Rule = Rule(proto: Proto, srcIp: IpMatcher, dstIp: IpMatcher, srcPort: PortMatcher,
                       dstPort: PortMatcher, contents: seq<Content>)

  datatype Packet = Packet(isTcp: bool, isUdp: bool, l4: byte, v6: bool, src: seq<octet>, dst: seq<octet>,
                           sport: uint16, dport: uint16)

  predicate InSomeRange(m: PortMatcher, port: uint16) {
    exists i :: 0 <= i < |m.ranges| && m.ranges[i].0 <= port <= m.ranges[i].1
  }

  predicate ProtoFits(p: Proto, pkt: Packet) {
    match p
    case Any => true
    case Tcp => pkt.isTcp
    case Udp => pkt.isUdp
    case Icmp => pkt.l4 == 1 || pkt.l4 == 58
  }

  predicate IpFits(m: IpMatcher, ip: seq<octet>, v6: bool)
    requires |ip| == 16
  {
    m.any || Listed(m, ip, v6) != m.negated
  }

  predicate PortFits(m: PortMatcher, port: uint16) {
    m.any || InSomeRange(m, port) != m.negated
  }

  predicate HeaderFits(r: Rule, pkt: Packet)
    requires |pkt.src| == 16 && |pkt.dst| == 16
  {
    && ProtoFits(r.proto, pkt)
    && IpFits(r.srcIp, pkt.src, pkt.v6) && IpFits(r.dstIp, pkt.dst, pkt.v6)
    && PortFits(r.srcPort, pkt.sport) && PortFits(r.dstPort, pkt.dport)
  }

  // What a rule means: header tests, and positions for all contents.
  ghost predicate Applies(r: Rule, pkt: Packet, bufs: Buffers)
    requires |pkt.src| == 16 && |pkt.dst| == 16
  {
    HeaderFits(r, pkt) && Satisfiable(r.contents, bufs, _ => 0)
  }

  // What matching the rule comes to.
  function Tried(r: Rule, pkt: Packet, bufs: Buffers): Verdict
    requires |pkt.src| == 16 && |pkt.dst| == 16
  {
    if HeaderFits(r, pkt) then Chain(r.contents, bufs, _ => 0) else NotAll
  }

  method PortMatches(m: PortMatcher, port: uint16) returns (r: bool)
    ensures r == PortFits(m, port)
  {
    if m.any {
      return true;
    }
    var i := 0;
    while i < |m.ranges|
      invariant 0 <= i <= |m.ranges|
      invariant forall k :: 0 <= k < i ==> !(m.ranges[k].0 <= port <= m.ranges[k].1)
    {
      if m.ranges[i].0 <= port && port <= m.ranges[i].1 {
        return !m.negated;
      }
      i := i + 1;
    }
    r := m.negated;
  }

  method HeaderMatches(r: Rule, pkt: Packet) returns (ok: bool)
    requires |pkt.src| == 16 && |pkt.dst| == 16
    ensures ok == HeaderFits(r, pkt)
  {
    hide Listed, InSomeRange;
    if !ProtoFits(r.proto, pkt) {
      return false;
    }
    var src := Matches(r.srcIp, pkt.src, pkt.v6);
    var dst := Matches(r.dstIp, pkt.dst, pkt.v6);
    if !src || !dst {
      return false;
    }
    var sport := PortMatches(r.srcPort, pkt.sport);
    var dport := PortMatches(r.dstPort, pkt.dport);
    ok := sport && dport;
  }

  // The rules hit, by index and in order; none where a search leaves its buffer.
  method MatchRules(rules: seq<Rule>, pkt: Packet, bufs: Buffers) returns (hits: Option<seq<nat>>)
    requires |pkt.src| == 16 && |pkt.dst| == 16
    requires forall k :: 0 <= k < |rules| ==> Sizes(rules[k].contents, bufs)
    ensures hits == None <==> exists k :: 0 <= k < |rules| && Tried(rules[k], pkt, bufs) == Lost
    ensures hits.Some? ==>
      && (forall i, j :: 0 <= i < j < |hits.value| ==> hits.value[i] < hits.value[j])
      && (forall k: nat :: k in hits.value <==> k < |rules| && Tried(rules[k], pkt, bufs) == All)
  {
    hide HeaderFits, Chain, Sizes;
    var found: seq<nat> := [];
    var i := 0;
    while i < |rules|
      invariant 0 <= i <= |rules|
      invariant forall j :: 0 <= j < |found| ==> found[j] < i
      invariant forall j, k :: 0 <= j < k < |found| ==> found[j] < found[k]
      invariant forall k: nat :: k in found <==> k < i && Tried(rules[k], pkt, bufs) == All
      invariant forall k :: 0 <= k < i ==> Tried(rules[k], pkt, bufs) != Lost
    {
      var r := rules[i];
      var header := HeaderMatches(r, pkt);
      if header {
        var all := ContentsMatch(r.contents, bufs);
        if all == Lost {
          assert Tried(rules[i], pkt, bufs) == Lost;
          return None;
        }
        if all == All {
          found := found + [i];
        }
      }
      i := i + 1;
    }
    hits := Some(found);
  }

  // A rule is hit exactly when it applies, if no limit lies before a start and no `within`
  // follows a content of the same buffer; with such a `within`, a hit still applies.
  lemma HitIffApplies(r: Rule, pkt: Packet, bufs: Buffers)
    requires |pkt.src| == 16 && |pkt.dst| == 16 && NoOverrun(r.contents, bufs, _ => 0)
    ensures Tried(r, pkt, bufs) != Lost
    ensures Tried(r, pkt, bufs) == All ==> Applies(r, pkt, bufs)
    ensures NoLateWithin(r.contents) ==> (Tried(r, pkt, bufs) == All <==> Applies(r, pkt, bufs))
  {
    hide HeaderFits, Chain, Satisfiable, Greedy, NoOverrun, NoLateWithin;
    ChainIsGreedy(r.contents, bufs, _ => 0);
    if Greedy(r.contents, bufs, _ => 0) {
      GreedySound(r.contents, bufs, _ => 0);
    }
    if NoLateWithin(r.contents) {
      GreedyComplete(r.contents, bufs, _ => 0);
    }
  }

  // ---- what the header of a rule asks for

  // A TCP rule asks for a TCP packet, a UDP rule for a UDP packet, an ICMP rule for the protocol
  // number of ICMP or of ICMPv6, and a rule for any protocol for nothing.
  lemma ProtoIff(r: Rule, pkt: Packet)
    requires |pkt.src| == 16 && |pkt.dst| == 16
    requires r.srcIp.any && r.dstIp.any && r.srcPort.any && r.dstPort.any
    ensures HeaderFits(r, pkt) <==>
              && (r.proto == Tcp ==> pkt.isTcp) && (r.proto == Udp ==> pkt.isUdp)
              && (r.proto == Icmp ==> pkt.l4 == 1 || pkt.l4 == 58)
  {
  }

  // Sources are held against sources and destinations against destinations; a negated matcher
  // fits what is outside its list, and `any` fits everything.
  lemma HeaderIff(r: Rule, pkt: Packet)
    requires |pkt.src| == 16 && |pkt.dst| == 16 && r.proto == Any
    ensures HeaderFits(r, pkt) <==>
              && (r.srcIp.any || (Listed(r.srcIp, pkt.src, pkt.v6) && !r.srcIp.negated)
                  || (!Listed(r.srcIp, pkt.src, pkt.v6) && r.srcIp.negated))
              && (r.dstIp.any || (Listed(r.dstIp, pkt.dst, pkt.v6) && !r.dstIp.negated)
                  || (!Listed(r.dstIp, pkt.dst, pkt.v6) && r.dstIp.negated))
              && (r.srcPort.any || InRanges(r.srcPort.ranges, pkt.sport) != r.srcPort.negated)
              && (r.dstPort.any || InRanges(r.dstPort.ranges, pkt.dport) != r.dstPort.negated)
  {
    hide Listed;
    RangesIff(r.srcPort, pkt.sport);
    RangesIff(r.dstPort, pkt.dport);
  }

  // The port is one of those of some range, both ends included.
  predicate InRanges(ranges: seq<(uint16, uint16)>, port: uint16) {
    exists r :: r in ranges && r.0 <= port && port <= r.1
  }

  lemma RangesIff(m: PortMatcher, port: uint16)
    ensures InSomeRange(m, port) <==> InRanges(m.ranges, port)
  {
    if InSomeRange(m, port) {
      var i :| 0 <= i < |m.ranges| && m.ranges[i].0 <= port <= m.ranges[i].1;
      assert m.ranges[i] in m.ranges;
    }
  }
}
