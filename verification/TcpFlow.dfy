/** Which packets share a flow, what their flags do to it, what the result tells, and what a sweep leaves. */
module TcpFlow {
  import opened Machine
  import opened LruList
  import opened Packet
  import opened TcpStream
  import opened TcpTable

  // ---- the flow of a packet

  // Two packets share a flow exactly when they go between the same two endpoints, whichever way.
  lemma SameFlowIff(p: ParsedPacket, q: ParsedPacket)
    ensures
      var (pa, pb) := ((p.srcIp, p.l4.srcPort), (p.dstIp, p.l4.dstPort));
      var (qa, qb) := ((q.srcIp, q.l4.srcPort), (q.dstIp, q.l4.dstPort));
      KeyOf(p) == KeyOf(q) <==> (pa == qa && pb == qb) || (pa == qb && pb == qa)
  {
    hide LexLess;
    LexTotal(p.srcIp, p.dstIp);
    LexTotal(q.srcIp, q.dstIp);
  }

  // Of one flow, those from one endpoint go one way and those from the other the other way.
  lemma SameWayIff(p: ParsedPacket, q: ParsedPacket)
    requires KeyOf(p) == KeyOf(q) && (p.srcIp, p.l4.srcPort) != (p.dstIp, p.l4.dstPort)
    ensures Forward(p) == Forward(q) <==> (p.srcIp, p.l4.srcPort) == (q.srcIp, q.l4.srcPort)
  {
    hide LexLess;
    LexTotal(p.srcIp, p.dstIp);
    LexTotal(q.srcIp, q.dstIp);
  }

  // The low three bits of the flags octet are FIN, SYN and RST, from the least significant one.
  lemma FlagBits(pp: ParsedPacket, fin: bool, syn: bool, rst: bool, higher: nat)
    requires pp.l4.tcpFlags as int ==
               (if fin then 1 else 0) + (if syn then 2 else 0) + (if rst then 4 else 0) + 8 * higher
    ensures FlagsOf(pp) == Flags(fin, syn, rst)
  {
    var (f, s, r) := (if fin then 1 else 0, if syn then 2 else 0, if rst then 4 else 0);
    Bit(s / 2 + r / 2 + 4 * higher, f);
    Bit(r / 4 + 2 * higher, s / 2);
    Bit(higher, r / 4);
    assert pp.l4.tcpFlags as int == 2 * (s / 2 + r / 2 + 4 * higher) + f;
    assert pp.l4.tcpFlags / 2 == 2 * (r / 4 + 2 * higher) + s / 2;
    assert pp.l4.tcpFlags / 4 == 2 * higher + r / 4;
  }

  lemma Bit(n: nat, b: nat)
    requires b < 2
    ensures (2 * n + b) % 2 == b && (2 * n + b) / 2 == n
  {
  }

  // ---- what one call tells

  // A reset ends its flow at once and delivers nothing.
  lemma ResetEnds(cfg: Config, s: State, pp: ParsedPacket, now: uint64)
    requires Linked(cfg, s) && |pp.l4.payload| < TWO_31 && pp.l4.isTcp && FlagsOf(pp).rst
    ensures var (t, r) := Add(cfg, s, pp, now);
            KeyOf(pp) !in t.flows && r.closed && !r.hasData && r.data == []
  {
    hide Names, Weight;
  }

  lemma NotTcpNothing(cfg: Config, s: State, pp: ParsedPacket, now: uint64)
    requires Linked(cfg, s) && |pp.l4.payload| < TWO_31 && !pp.l4.isTcp
    ensures Add(cfg, s, pp, now) == (s, NOTHING)
  {
  }

  // The flow as the table has it, or a fresh one.
  function FlowAt(s: State, k: FlowKey, now: uint64): Flow {
    if k in s.flows then s.flows[k] else Flow(FRESH, FRESH, now)
  }

  // A segment closes its flow exactly when a FIN has now come from both sides; otherwise the
  // flow is there, seen now, and the last to be evicted.
  lemma ClosedIff(cfg: Config, s: State, pp: ParsedPacket, now: uint64)
    requires Linked(cfg, s) && |pp.l4.payload| < TWO_31 && pp.l4.isTcp && !FlagsOf(pp).rst
    ensures
      var (t, r) := Add(cfg, s, pp, now);
      var (k, f) := (KeyOf(pp), FlowAt(s, KeyOf(pp), now));
      && (r.closed <==> (Dir(f, Forward(pp)).finSeen || FlagsOf(pp).fin) && Dir(f, !Forward(pp)).finSeen)
      && (r.closed <==> k !in t.flows)
      && (!r.closed ==> t.flows[k].lastSeen == now && t.order != [] && t.order[|t.order| - 1] == k)
  {
    hide Names, Weight, FlagsOf, Sorted, Sized, Bytes, Data, Flatten, Refused, Without, Evict, LexLess, Forward, KeyOf;
    var k := KeyOf(pp);
    EvictLinked(cfg, s, k);
    var s1 := if k in s.flows then s else Evict(cfg, s, k);
    TouchedLinked(cfg, s1, k, now);
    var s2 := Touched(s1, k, now);
    assert FlowOk(cfg, s2.flows[k]);
    var d := Start(Dir(s2.flows[k], Forward(pp)), pp.l4.tcpSeq, FlagsOf(pp).syn);
    FinStays(cfg, d, SegOf(pp), Mem(s2), now);
  }

  // The call says that it delivers exactly when it does.
  lemma HasDataIff(cfg: Config, s: State, pp: ParsedPacket, now: uint64)
    requires Linked(cfg, s) && |pp.l4.payload| < TWO_31
    ensures var r := Add(cfg, s, pp, now).1; r.hasData <==> r.data != []
  {
    hide Names, Weight, Segment, Flatten, Refused, Without, Evict, Forward, KeyOf;
    FlattenNone();
    var k := KeyOf(pp);
    EvictLinked(cfg, s, k);
    var s1 := if k in s.flows then s else Evict(cfg, s, k);
    TouchedLinked(cfg, s1, k, now);
    var s2 := Touched(s1, k, now);
    assert FlowOk(cfg, s2.flows[k]);
    var d := Dir(s2.flows[k], Forward(pp));
    SegmentBrings(cfg, d, SegOf(pp), FlagsOf(pp), Mem(s2), now);
    BringsData(Segment(cfg, d, SegOf(pp), FlagsOf(pp), Mem(s2), now).1);
  }

  // Every piece delivered holds bytes.
  predicate Brings(out: seq<Seg>) {
    forall i :: 0 <= i < |out| ==> out[i].data != []
  }

  lemma BringsData(out: seq<Seg>)
    requires Brings(out)
    ensures Flatten(out) == [] <==> out == []
  {
  }

  lemma SegmentBrings(cfg: Config, d: Direction, g: Seg, flags: Flags, mem: nat, now: uint64)
    requires Sized(d.ooo) && |g.data| < TWO_31
    ensures Brings(Segment(cfg, d, g, flags, mem, now).1)
  {
    hide Sized, Store, Drain, SeqLeq, SeqLt, Wrap32;
    var d0 := Start(d, g.start, flags.syn);
    if g.data != [] {
      StoreSized(d.ooo, g);
      PlaceBrings(cfg, d0, g, mem, now);
      var d1 := SkipGap(cfg, Place(cfg, d0, g, mem, now).0, now);
      DrainBrings(d1.ooo, d1.nextSeq);
    }
  }

  lemma PlaceBrings(cfg: Config, d: Direction, g: Seg, mem: nat, now: uint64)
    requires g.data != [] && |g.data| < TWO_31
    ensures Brings(Place(cfg, d, g, mem, now).1)
  {
    hide Store, Dominated, Bytes;
    if SeqLt(g.start, d.nextSeq) && !SeqLeq(End(g), d.nextSeq) {
      TrimInside(g, d.nextSeq);
    }
  }

  lemma {:induction false} DrainBrings(ooo: seq<Seg>, next: uint32)
    requires Sized(ooo)
    ensures Brings(Drain(ooo, next).2)
    decreases |ooo|
  {
    hide SeqLeq, SeqLt, Wrap32;
    if ooo == [] || !SeqLeq(ooo[0].start, next) {
    } else if SeqLt(next, End(ooo[0])) {
      SkipInside(ooo[0], next);
      DrainBrings(ooo[1..], End(ooo[0]));
    } else {
      DrainBrings(ooo[1..], next);
    }
  }

  lemma FinStays(cfg: Config, d: Direction, g: Seg, mem: nat, now: uint64)
    requires Sized(d.ooo) && |g.data| < TWO_31
    ensures Data(cfg, d, g, mem, now).0.finSeen == d.finSeen
  {
    hide Sized, Store, Drain;
  }

  // The step reports an eviction exactly when another flow had to go, or the segment came ahead
  // of its stream and found no room.
  lemma EvictedIff(cfg: Config, s: State, pp: ParsedPacket, now: uint64)
    requires Linked(cfg, s) && |pp.l4.payload| < TWO_31 && pp.l4.isTcp && !FlagsOf(pp).rst
    ensures
      var (k, r) := (KeyOf(pp), Add(cfg, s, pp, now).1);
      var t := Touched(if k in s.flows then s else Evict(cfg, s, k), k, now);
      var (d, g) := (Start(Dir(t.flows[k], Forward(pp)), pp.l4.tcpSeq, FlagsOf(pp).syn), SegOf(pp));
      r.evicted <==>
        || (k !in s.flows && s.order != [] && |s.flows| >= cfg.maxFlows)
        || (g.data != [] && !SeqLeq(End(g), d.nextSeq) && !SeqLeq(g.start, d.nextSeq)
            && (d.oooBytes + |g.data| > cfg.maxStream || Mem(t) + |g.data| > cfg.maxMem))
  {
    hide Names, Weight, FlagsOf, Segment, Flatten, Without, LexLess, Forward, KeyOf, Wrap32;
    var k := KeyOf(pp);
    EvictLinked(cfg, s, k);
    var s1 := if k in s.flows then s else Evict(cfg, s, k);
    TouchedLinked(cfg, s1, k, now);
    var t := Touched(s1, k, now);
    assert FlowOk(cfg, t.flows[k]);
    if k !in s.flows {
      EvictsIff(cfg, s, k);
    }
    SeqEnds(SegOf(pp).start, Start(Dir(t.flows[k], Forward(pp)), pp.l4.tcpSeq, FlagsOf(pp).syn).nextSeq);
  }

  lemma SeqEnds(a: uint32, b: uint32)
    ensures SeqLeq(a, b) <==> SeqLt(a, b) || a == b
  {
    if Wrap32(a - b) == 0 {
      assert a - b == 0;
    }
  }

  // Eviction takes no more flows than it has to.
  lemma {:induction false} EvictsIff(cfg: Config, s: State, k: FlowKey)
    requires Linked(cfg, s) && k !in s.flows
    ensures Evict(cfg, s, k) != s <==> s.order != [] && |s.flows| >= cfg.maxFlows
    ensures 0 < cfg.maxFlows ==> |Evict(cfg, s, k).flows| == Min(|s.flows|, cfg.maxFlows - 1)
    decreases |s.order|
  {
    hide Linked, Mem;
    PopLinked(cfg, s);
    NamesIn(cfg, s);
    if |s.flows| >= cfg.maxFlows && s.order != [] {
      var u := State(s.flows - {s.order[0]}, s.order[1..]);
      EvictsIff(cfg, u, k);
      EvictShrinks(cfg, u, k);
      assert |s.flows| == |u.flows| + 1 by {
        Sizes(s.flows, u.flows, s.order[0]);
      }
    }
  }

  lemma NamesIn(cfg: Config, s: State)
    requires Linked(cfg, s)
    ensures s.order == [] ==> s.flows == map[]
    ensures s.order != [] ==> s.order[0] in s.flows
  {
  }

  lemma {:induction false} EvictShrinks(cfg: Config, s: State, k: FlowKey)
    ensures |Evict(cfg, s, k).order| <= |s.order|
    decreases |s.order|
  {
    if |s.flows| >= cfg.maxFlows && s.order != [] && s.order[0] != k {
      EvictShrinks(cfg, State(s.flows - {s.order[0]}, s.order[1..]), k);
    }
  }

  // ---- what a sweep leaves

  // Exactly the flows seen less than the idle timeout ago stay, and they stay as they are.
  lemma SweptIff(cfg: Config, s: State, now: uint64, k: FlowKey)
    ensures
      var t := Expire(cfg, s, now);
      && (k in t.flows <==> k in s.flows && (now - s.flows[k].lastSeen) % TWO_64 < cfg.idleTimeout)
      && (k in t.flows ==> t.flows[k] == s.flows[k])
  {
  }
}
