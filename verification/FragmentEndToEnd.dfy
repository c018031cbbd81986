/** From fragment frames on the wire to the L4 view of the packet that was fragmented. */
module FragmentEndToEnd {
  import opened Machine
  import opened Packet
  import opened PacketLayout
  import opened Defrag
  import opened DefragRuns

  // w is an unfragmented IPv4 packet with all of its payload.
  predicate Whole(w: seq<byte>) {
    && HeaderOk(w) && Rd16(w, 2) <= |w| && HeaderLen(w) < Rd16(w, 2)
    && !MoreFragments(w) && FragmentOffset(w) == 0
  }

  // f carries the payload bytes [a, b) of w, as section 3.2 of RFC 791 fragments
  // it. Options, time to live, checksum and padding may differ.
  predicate FragmentOf(f: seq<byte>, w: seq<byte>, a: nat, b: nat)
    requires Whole(w)
  {
    && HeaderOk(f) && a < b <= |IpPayload(w)|
    && f[4..6] == w[4..6] && f[9] == w[9] && f[12..20] == w[12..20]
    && FragmentOffset(f) == a
    && MoreFragments(f) == (b < |IpPayload(w)|)
    && Rd16(f, 2) == HeaderLen(f) + (b - a) <= |f|
    && f[HeaderLen(f)..HeaderLen(f) + (b - a)] == IpPayload(w)[a..b]
  }

  // What the pipeline does with a fragment frame.
  function Handle(f: seq<byte>, now: uint64): Event {
    var pp := ParseIpv4(f);
    Fragment(pp, pp.l4Data, now)
  }

  // ---- which frames belong together

  // Identification, protocol and both addresses are the same.
  predicate SameDatagram(f: seq<byte>, w: seq<byte>) {
    20 <= |f| && 20 <= |w| && f[4..6] == w[4..6] && f[9] == w[9] && f[12..20] == w[12..20]
  }

  function KeyOf4(w: seq<byte>): FragKey
    requires 20 <= |w|
  {
    FragKey(w[12..16] + ZEROS12, w[16..20] + ZEROS12, w[4] as int * 256 + w[5], w[9], false)
  }

  lemma KeyInBytes(f: seq<byte>)
    requires HeaderOk(f)
    ensures KeyOf(ParseIpv4(f)) == KeyOf4(f)
  {
    hide ParseL4;
  }

  lemma Key4Iff(f: seq<byte>, w: seq<byte>)
    requires 20 <= |f| && 20 <= |w|
    ensures KeyOf4(f) == KeyOf4(w) <==> SameDatagram(f, w)
  {
    var (fs, fd, ws, wd) := (f[12..16], f[16..20], w[12..16], w[16..20]);
    assert (fs + ZEROS12)[..4] == fs && (ws + ZEROS12)[..4] == ws;
    assert (fd + ZEROS12)[..4] == fd && (wd + ZEROS12)[..4] == wd;
    assert f[12..20] == fs + fd && w[12..20] == ws + wd;
    assert f[12..20][..4] == fs && w[12..20][..4] == ws && f[12..20][4..] == fd && w[12..20][4..] == wd;
    assert f[4..6] == [f[4], f[5]] && w[4..6] == [w[4], w[5]];
  }

  // The fragments in two IPv4 frames are fed to one entry exactly when the frames have the same
  // identification, protocol and addresses.
  lemma SameEntryIff(f: seq<byte>, w: seq<byte>, now: uint64, later: uint64, k: FragKey)
    requires HeaderOk(f) && HeaderOk(w) && Feeds(Handle(f, now), k)
    requires Accepts(ParseIpv4(w), ParseIpv4(w).l4Data)
    ensures Feeds(Handle(w, later), k) <==> SameDatagram(f, w)
  {
    hide ParseIpv4;
    KeyInBytes(f);
    KeyInBytes(w);
    Key4Iff(f, w);
  }

  lemma ParsedFragment(f: seq<byte>, w: seq<byte>, a: nat, b: nat, now: uint64)
    requires Whole(w) && FragmentOf(f, w, a, b)
    ensures var pp := ParseIpv4(f);
            && pp.isIpv4 && pp.fragOffset == a && pp.l4Data == IpPayload(w)[a..b]
            && KeyOf(pp) == KeyOf4(w)
            && Feeds(Handle(f, now), KeyOf4(w))
            && Honest(Handle(f, now), KeyOf4(w), IpPayload(w))
  {
    KeyInBytes(f);
    Key4Iff(f, w);
  }

  // ---- from fragments to the packet

  // What the engine is told of is a sweep, an IPv6 fragment, or an IPv4 frame; one of the same
  // datagram as w is a fragment of w.
  ghost predicate Traffic(es: seq<Event>, w: seq<byte>)
    requires Whole(w)
  {
    forall i :: 0 <= i < |es| ==> es[i].Sweep? || es[i].pp.isIpv6 || FrameOf(es[i], w)
  }

  ghost predicate FrameOf(e: Event, w: seq<byte>)
    requires Whole(w)
  {
    exists f, now ::
      HeaderOk(f) && e == Handle(f, now) && (SameDatagram(f, w) ==> exists a, b :: FragmentOf(f, w, a, b))
  }

  // Whatever feeds the entry of w is a fragment of w.
  lemma FedIsFragment(e: Event, w: seq<byte>) returns (f: seq<byte>, a: nat, b: nat, now: uint64)
    requires Whole(w) && (e.Sweep? || e.pp.isIpv6 || FrameOf(e, w)) && Feeds(e, KeyOf4(w))
    ensures FragmentOf(f, w, a, b) && e == Handle(f, now)
  {
    hide FragmentOf, ParseIpv4, SameDatagram;
    f, now :| HeaderOk(f) && e == Handle(f, now) && (SameDatagram(f, w) ==> exists a, b :: FragmentOf(f, w, a, b));
    KeyInBytes(f);
    Key4Iff(f, w);
    a, b :| FragmentOf(f, w, a, b);
  }

  // Whatever the order, duplication and overlap of the fragments of w, the pipeline goes on with
  // the addresses and the protocol in w's header and the ports, numbers, flags and payload that
  // stand in w's payload.
  lemma WireToWire(cfg: Config, s: State, es: seq<Event>, w: seq<byte>)
    requires Whole(w) && Traffic(es, w)
    requires WithinCaps(cfg, s) && MAX_DATAGRAM_LEN <= cfg.maxMem && KeyOf4(w) !in s.table
    requires NeverEvicted(cfg, s, es, KeyOf4(w))
    requires forall i :: 0 <= i < |es| ==> !Full(es[..i], KeyOf4(w), IpPayload(w))
    requires Full(es, KeyOf4(w), IpPayload(w))
    ensures es != [] && es[|es| - 1].Fragment?
    ensures var r := ResultAt(cfg, s, es, |es| - 1);
            var rp := Reassembled(es[|es| - 1].pp, r.datagram);
            && r.complete && r.datagram == w[w[0] as int % 16 * 4..w[2] as int * 256 + w[3]]
            && rp.l4Data == r.datagram && Says(rp.l4, r.datagram, w[9]) && rp.l4Proto == w[9]
            && rp.srcIp == w[12..16] + ZEROS12 && rp.dstIp == w[16..20] + ZEROS12 && rp.isIpv4 && !rp.isFragment
            && rp == ParseIpv4(w).(firstFragment := false, fragId := 0)
  {
    hide ParseIpv4, Reassembled, FragmentOf, Handle, Feeds, NeverEvicted, WithinCaps, Full, ResultAt, Says,
      SameDatagram;
    WholePayload(w);
    var k, d := KeyOf4(w), IpPayload(w);
    forall i | 0 <= i < |es| ensures Honest(es[i], k, d) {
      if Feeds(es[i], k) {
        var f, a, b, now := FedIsFragment(es[i], w);
        ParsedFragment(f, w, a, b, now);
      }
    }
    Reassembles(cfg, s, es, k, d);
    var f, a, b, now := FedIsFragment(es[|es| - 1], w);
    Rebuilt(f, w, a, b, now);
  }

  lemma WholePayload(w: seq<byte>)
    requires Whole(w)
    ensures 0 < |IpPayload(w)| <= MAX_DATAGRAM_LEN
    ensures w[0] as int % 16 * 4 <= w[2] as int * 256 + w[3] <= |w|
    ensures IpPayload(w) == w[w[0] as int % 16 * 4..w[2] as int * 256 + w[3]]
  {
  }

  // The packet rebuilt around the payload of w is seen as w is.
  lemma Rebuilt(f: seq<byte>, w: seq<byte>, a: nat, b: nat, now: uint64)
    requires Whole(w) && FragmentOf(f, w, a, b)
    ensures Handle(f, now).Fragment?
    ensures var rp := Reassembled(Handle(f, now).pp, IpPayload(w));
            && rp.l4Data == IpPayload(w) && Says(rp.l4, IpPayload(w), w[9]) && rp.l4Proto == w[9]
            && rp.srcIp == w[12..16] + ZEROS12 && rp.dstIp == w[16..20] + ZEROS12 && rp.isIpv4 && !rp.isFragment
            && rp == ParseIpv4(w).(firstFragment := false, fragId := 0)
  {
    hide ParseL4, Says;
    ParseSays(IpPayload(w), w[9]);
    assert f[12..16] == f[12..20][..4] == w[12..16];
    assert f[16..20] == f[12..20][4..] == w[16..20];
  }
}
