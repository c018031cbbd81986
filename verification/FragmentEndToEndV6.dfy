/**
 * From IPv6 fragments on the wire to the L4 view of the packet that was fragmented,
 * and the headers for which the two differ.
 */
module FragmentEndToEndV6 {
  import opened Machine
  import opened Packet
  import opened PacketV6
  import opened Defrag
  import opened DefragRuns

  // w is an unfragmented packet, cut for fragmenting after k extension headers, at u.
  predicate Whole6(w: seq<byte>, u: Place, k: nat) {
    && HeaderOk6(w) && k < MAX_HOPS && Reaches(w, FirstPlace(w), k, u)
    && u.off < |w| <= u.off + MAX_DATAGRAM_LEN
    && !ParseIpv6(w).isFragment
  }

  // f carries the bytes [a, b) of what w has from u on, as section 4.5 of RFC 8200 fragments
  // it: after j extension headers of its own comes the fragment header, at v.
  predicate FragmentOf6(f: seq<byte>, w: seq<byte>, u: Place, id: uint32, a: nat, b: nat, j: nat, v: nat)
    requires u.off <= |w|
  {
    && HeaderOk6(f) && HeaderOk6(w) && f[8..40] == w[8..40]
    && j < MAX_HOPS && Reaches(f, FirstPlace(f), j, Place(FRAGMENT, v))
    && a < b <= |w| - u.off && |f| == v + 8 + (b - a)
    && f[v] == u.next && Rd32(f, v + 4) == id
    && Rd16(f, v + 2) / 8 * 8 == a && (Rd16(f, v + 2) % 2 == 1 <==> b < |w| - u.off)
    && f[v + 8..] == w[u.off + a..u.off + b]
  }

  function Handle6(f: seq<byte>, now: uint64): Event {
    var pp := ParseIpv6(f);
    Fragment(pp, pp.l4Data, now)
  }

  function KeyOf6(w: seq<byte>, u: Place, id: uint32): FragKey
    requires HeaderOk6(w)
  {
    FragKey(w[8..24], w[24..40], id, u.next, true)
  }

  lemma ParsedHeaders6(f: seq<byte>, w: seq<byte>, u: Place, id: uint32, a: nat, b: nat, j: nat, v: nat)
    requires u.off <= |w| && FragmentOf6(f, w, u, id, a, b, j, v)
    ensures var pp := ParseIpv6(f);
            && pp.isFragment && pp.isIpv6 && pp.srcIp == w[8..24] && pp.dstIp == w[24..40] && pp.l4Proto == u.next
            && pp.fragId == id && pp.fragOffset == a && (pp.fragMore <==> b < |w| - u.off)
            && pp.l4Data == w[u.off + a..u.off + b]
  {
    hide ParseL4, Reaches, Walk, Over;
    WalkOn(f, FirstPlace(f), j, Place(FRAGMENT, v), MAX_HOPS);
    assert Walk(f, FirstPlace(f), MAX_HOPS) == At(Place(FRAGMENT, v), MAX_HOPS - j) by {
      WalkEnds(f, Place(FRAGMENT, v), MAX_HOPS - j);
    }
    assert f[8..24] == f[8..40][..16] == w[8..24];
    assert f[24..40] == f[8..40][16..] == w[24..40];
  }

  lemma ParsedFragment6(f: seq<byte>, w: seq<byte>, u: Place, k: nat, id: uint32, a: nat, b: nat, j: nat, v: nat,
                        now: uint64)
    requires Whole6(w, u, k) && FragmentOf6(f, w, u, id, a, b, j, v)
    ensures var pp := ParseIpv6(f);
            && pp.isFragment && pp.isIpv6 && pp.srcIp == w[8..24] && pp.dstIp == w[24..40] && pp.l4Proto == u.next
            && KeyOf(pp) == KeyOf6(w, u, id)
            && Feeds(Handle6(f, now), KeyOf6(w, u, id))
            && Honest(Handle6(f, now), KeyOf6(w, u, id), w[u.off..])
  {
    hide ParseIpv6, Reaches;
    ParsedHeaders6(f, w, u, id, a, b, j, v);
    assert w[u.off + a..u.off + b] == w[u.off..][a..b];
  }

  ghost predicate Traffic6(es: seq<Event>, w: seq<byte>, u: Place, id: uint32)
    requires u.off <= |w| && HeaderOk6(w)
  {
    forall i :: 0 <= i < |es| ==>
      || !Feeds(es[i], KeyOf6(w, u, id))
      || exists f, a, b, j, v, now :: FragmentOf6(f, w, u, id, a, b, j, v) && es[i] == Handle6(f, now)
  }

  // The packet handed on once the datagram is whole, next to the packet that was sent.
  function Rebuilt(w: seq<byte>, u: Place): ParsedPacket
    requires HeaderOk6(w) && u.off <= |w|
  {
    Addresses(w).(l4Proto := u.next, l4Data := w[u.off..], l4 := ParseL4(w[u.off..], u.next))
  }

  lemma AllHonest6(es: seq<Event>, w: seq<byte>, u: Place, k: nat, id: uint32)
    requires Whole6(w, u, k) && Traffic6(es, w, u, id)
    ensures AllHonest(es, KeyOf6(w, u, id), w[u.off..])
  {
    hide FragmentOf6, Handle6, Feeds, Honest;
    var key, d := KeyOf6(w, u, id), w[u.off..];
    forall i | 0 <= i < |es| ensures Honest(es[i], key, d) {
      if Feeds(es[i], key) {
        var f, a, b, j, v, now :| FragmentOf6(f, w, u, id, a, b, j, v) && es[i] == Handle6(f, now);
        ParsedFragment6(f, w, u, k, id, a, b, j, v, now);
      } else {
        NotFed(es[i], key, d);
      }
    }
  }

  lemma NotFed(e: Event, key: FragKey, d: seq<byte>)
    requires !Feeds(e, key)
    ensures Honest(e, key, d)
  {
  }

  // The fragment that completes the datagram is rebuilt to what w has.
  lemma Completed6(e: Event, w: seq<byte>, u: Place, k: nat, id: uint32, datagram: seq<byte>)
    requires Whole6(w, u, k) && Traffic6([e], w, u, id) && Feeds(e, KeyOf6(w, u, id)) && datagram == w[u.off..]
    ensures Reassembled(e.pp, datagram) == Rebuilt(w, u)
  {
    hide ParseIpv6, FragmentOf6, Reaches, ParseL4;
    assert [e][0] == e;
    var f, a, b, j, v, now :| FragmentOf6(f, w, u, id, a, b, j, v) && e == Handle6(f, now);
    ParsedFragment6(f, w, u, k, id, a, b, j, v, now);
    HandledPacket(f, now);
  }

  // Whatever the order, duplication and overlap of the fragments, the pipeline goes on
  // with the addresses of w and everything w has from u on.
  lemma WireToWire6(cfg: Config, s: State, es: seq<Event>, w: seq<byte>, u: Place, k: nat, id: uint32)
    requires Whole6(w, u, k) && Traffic6(es, w, u, id)
    requires WithinCaps(cfg, s) && MAX_DATAGRAM_LEN <= cfg.maxMem && KeyOf6(w, u, id) !in s.table
    requires NeverEvicted(cfg, s, es, KeyOf6(w, u, id))
    requires forall i :: 0 <= i < |es| ==> !Full(es[..i], KeyOf6(w, u, id), w[u.off..])
    requires Full(es, KeyOf6(w, u, id), w[u.off..])
    ensures es != [] && es[|es| - 1].Fragment?
    ensures var r := ResultAt(cfg, s, es, |es| - 1);
            r.complete && Reassembled(es[|es| - 1].pp, r.datagram) == Rebuilt(w, u)
  {
    hide ParseIpv6, FragmentOf6, Handle6, Reaches, ParseL4, AllHonest, ResultAt, WithinCaps, NeverEvicted, Full;
    AllHonest6(es, w, u, k, id);
    Reassembles(cfg, s, es, KeyOf6(w, u, id), w[u.off..]);
    Completed6(es[|es| - 1], w, u, k, id, w[u.off..]);
  }

  lemma HandledPacket(f: seq<byte>, now: uint64)
    ensures Handle6(f, now).pp == ParseIpv6(f) && !ParseIpv6(f).isIpv4
  {
  }

  // That is what parsing w would have given exactly when the part from u on does not begin
  // with a header the parser walks over: a reassembled datagram is not walked again.
  lemma SameViewIff(w: seq<byte>, u: Place, k: nat)
    requires Whole6(w, u, k)
    ensures Rebuilt(w, u) == ParseIpv6(w) <==> !IsExtension(u.next) && u.next != FRAGMENT
  {
    hide ParseL4, Reaches;
    WalkOn(w, FirstPlace(w), k, u, MAX_HOPS);
    var stop := Walk(w, u, MAX_HOPS - k);
    assert Rebuilt(w, u).l4Data != [];
    if IsExtension(u.next) && stop.At? {
      assert |w[stop.place.off..]| < |w[u.off..]|;
    }
  }
}
