/** All flows: normalised keys, capacity eviction, reset and close, and the resource invariant. */
module TcpTable {
  import opened Machine
  import opened LruList
  import opened Packet
  import opened TcpStream

  datatype FlowKey = FlowKey(aIp: seq<byte>, aPort: uint16, bIp: seq<byte>, bPort: uint16)

  datatype Flow = Flow(d0: Direction, d1: Direction, lastSeen: uint64)

  // order: keys, least recently used first.
  datatype State = State(flows: map<FlowKey, Flow>, order: seq<FlowKey>)

  datatype Result = Result(hasData: bool, data: seq<byte>, closed: bool, evicted: bool)

  const NOTHING: Result := Result(false, [], false, false)

  predicate LexLess(a: seq<byte>, b: seq<byte>) {
    b != [] && (a == [] || a[0] < b[0] || (a[0] == b[0] && LexLess(a[1..], b[1..])))
  }

  // The packet goes from endpoint A to endpoint B.
  predicate Forward(pp: ParsedPacket) {
    LexLess(pp.srcIp, pp.dstIp) || (pp.srcIp == pp.dstIp && pp.l4.srcPort <= pp.l4.dstPort)
  }

  function KeyOf(pp: ParsedPacket): FlowKey {
    if Forward(pp) then FlowKey(pp.srcIp, pp.l4.srcPort, pp.dstIp, pp.l4.dstPort)
    else FlowKey(pp.dstIp, pp.l4.dstPort, pp.srcIp, pp.l4.srcPort)
  }

  function FlagsOf(pp: ParsedPacket): Flags {
    Flags(pp.l4.tcpFlags % 2 == 1, (pp.l4.tcpFlags / 2) % 2 == 1, (pp.l4.tcpFlags / 4) % 2 == 1)
  }

  function SegOf(pp: ParsedPacket): Seg {
    Seg(pp.l4.tcpSeq, pp.l4.payload)
  }

  function Buffered(f: Flow): nat {
    f.d0.oooBytes + f.d1.oooBytes
  }

  // All bytes waiting out of order.
  ghost function Mem(s: State): nat {
    Weight(s.order, s.flows, Buffered)
  }

  ghost function Drop(s: State, k: FlowKey): State {
    State(s.flows - {k}, Without(s.order, k))
  }

  ghost function Evict(cfg: Config, s: State, k: FlowKey): State
    decreases |s.order|
  {
    if |s.flows| >= cfg.maxFlows && s.order != [] && s.order[0] != k then
      Evict(cfg, State(s.flows - {s.order[0]}, s.order[1..]), k)
    else s
  }

  function Touched(s: State, k: FlowKey, now: uint64): State {
    var f := if k in s.flows then s.flows[k].(lastSeen := now) else Flow(FRESH, FRESH, now);
    State(s.flows[k := f], Without(s.order, k) + [k])
  }

  function Dir(f: Flow, forward: bool): Direction {
    if forward then f.d0 else f.d1
  }

  function WithDir(f: Flow, forward: bool, d: Direction): Flow {
    if forward then f.(d0 := d) else f.(d1 := d)
  }

  predicate DirectionOk(cfg: Config, d: Direction) {
    Sorted(d.ooo) && Sized(d.ooo) && d.oooBytes == Bytes(d.ooo) && d.oooBytes <= cfg.maxStream
  }

  predicate FlowOk(cfg: Config, f: Flow) {
    DirectionOk(cfg, f.d0) && DirectionOk(cfg, f.d1)
  }

  // Table and recency list name the same flows, and every buffer is in order.
  ghost predicate Linked(cfg: Config, s: State) {
    && Names(s.order, s.flows)
    && (forall k :: k in s.flows ==> FlowOk(cfg, s.flows[k]))
  }

  ghost predicate WithinCaps(cfg: Config, s: State) {
    && Linked(cfg, s) && Mem(s) <= cfg.maxMem && |s.flows| <= Max(cfg.maxFlows, 1)
  }

  // A segment that is not a reset, for a flow just touched.
  ghost function Deliver(cfg: Config, s: State, k: FlowKey, pp: ParsedPacket, evicted: bool, now: uint64)
    : (State, Result)
    requires k in s.flows && Linked(cfg, s) && |pp.l4.payload| < TWO_31
  {
    var f := s.flows[k];
    var d := Dir(f, Forward(pp));
    assert FlowOk(cfg, f);
    var (d1, out) := Segment(cfg, d, SegOf(pp), FlagsOf(pp), Mem(s), now);
    var refused := pp.l4.payload != [] && Refused(cfg, Start(d, pp.l4.tcpSeq, FlagsOf(pp).syn), SegOf(pp), Mem(s));
    var f1 := WithDir(f, Forward(pp), d1);
    var t := State(s.flows[k := f1], s.order);
    var closed := f1.d0.finSeen && f1.d1.finSeen;
    (if closed then Drop(t, k) else t, Result(out != [], Flatten(out), closed, evicted || refused))
  }

  // What one call does.
  ghost function Add(cfg: Config, s: State, pp: ParsedPacket, now: uint64): (State, Result)
    requires Linked(cfg, s) && |pp.l4.payload| < TWO_31
  {
    if !pp.l4.isTcp then (s, NOTHING)
    else
      var k := KeyOf(pp);
      var s1 := if k in s.flows then s else Evict(cfg, s, k);
      EvictLinked(cfg, s, k);
      TouchedLinked(cfg, s1, k, now);
      var s2 := Touched(s1, k, now);
      if FlagsOf(pp).rst then (Drop(s2, k), Result(false, [], true, s1 != s))
      else Deliver(cfg, s2, k, pp, s1 != s, now)
  }

  predicate Idle(cfg: Config, lastSeen: uint64, now: uint64) {
    Elapsed(now, lastSeen) >= cfg.idleTimeout
  }

  ghost function Restrict(s: State, ks: set<FlowKey>): State {
    State(Only(s.flows, ks), Keep(s.order, ks))
  }

  // What one expiry sweep does: idle flows go, the others stay in order.
  ghost function Expire(cfg: Config, s: State, now: uint64): State {
    Restrict(s, set k | k in s.flows && !Idle(cfg, s.flows[k].lastSeen, now))
  }

  // ---- both directions of a connection share one flow ----

  function Reply(pp: ParsedPacket): ParsedPacket {
    pp.(srcIp := pp.dstIp, dstIp := pp.srcIp, l4 := pp.l4.(srcPort := pp.l4.dstPort, dstPort := pp.l4.srcPort))
  }

  lemma {:induction false} LexTotal(a: seq<byte>, b: seq<byte>)
    ensures a == b || LexLess(a, b) || LexLess(b, a)
    ensures !(LexLess(a, b) && LexLess(b, a))
    ensures !LexLess(a, a)
    decreases |a|
  {
    if a != [] {
      LexTotal(a[1..], if b == [] then [] else b[1..]);
      LexTotal(a[1..], a[1..]);
      if b != [] && a[0] == b[0] && a[1..] == b[1..] {
        assert a == [a[0]] + a[1..] && b == [b[0]] + b[1..];
      }
    }
  }

  lemma ReplySharesFlow(pp: ParsedPacket)
    ensures KeyOf(Reply(pp)) == KeyOf(pp)
    ensures (pp.srcIp, pp.l4.srcPort) != (pp.dstIp, pp.l4.dstPort) ==> Forward(Reply(pp)) == !Forward(pp)
  {
    LexTotal(pp.srcIp, pp.dstIp);
  }

  // ---- resources ----

  lemma FreshOk(cfg: Config, now: uint64)
    ensures FlowOk(cfg, Flow(FRESH, FRESH, now))
  {
  }

  lemma TouchedLinked(cfg: Config, s: State, k: FlowKey, now: uint64)
    requires Linked(cfg, s)
    ensures var t := Touched(s, k, now);
            && Linked(cfg, t) && k in t.flows && Mem(t) == Mem(s)
            && |t.flows| == |s.flows| + if k in s.flows then 0 else 1
  {
    hide Names, Weight, Without, DirectionOk;
    FreshOk(cfg, now);
    TouchNames(s.order, s.flows, k, Touched(s, k, now).flows[k], Buffered);
  }

  // Eviction takes the least recently used flows, never the one being fed, and
  // stops as soon as there is room.
  lemma {:induction false} EvictLinked(cfg: Config, s: State, k: FlowKey)
    requires Linked(cfg, s)
    ensures var t := Evict(cfg, s, k);
            && Linked(cfg, t) && Mem(t) <= Mem(s)
            && (k in s.flows ==> k in t.flows && t.flows[k] == s.flows[k])
            && (k !in s.flows ==> k !in t.flows && (|t.flows| < cfg.maxFlows || t.flows == map[]))
            && OldestGone(s, t)
    decreases |s.order|
  {
    hide Linked, Mem, OldestGone;
    PopLinked(cfg, s);
    if |s.flows| >= cfg.maxFlows && s.order != [] && s.order[0] != k {
      var u := State(s.flows - {s.order[0]}, s.order[1..]);
      EvictLinked(cfg, u, k);
      OneMoreGone(s, Evict(cfg, u, k));
    }
  }

  lemma PopLinked(cfg: Config, s: State)
    requires Linked(cfg, s)
    ensures s.order == [] ==> s.flows == map[]
    ensures s.order != [] ==>
      var u := State(s.flows - {s.order[0]}, s.order[1..]);
      s.order[0] in s.flows && Linked(cfg, u) && Mem(u) == Mem(s) - Buffered(s.flows[s.order[0]])
    ensures OldestGone(s, s)
  {
    assert s.order[0..] == s.order;
    if s.order != [] {
      PopNames(s.order, s.flows, Buffered);
    }
  }

  ghost predicate OldestGone(s: State, t: State) {
    |t.order| <= |s.order| && t.order == s.order[|s.order| - |t.order|..]
  }

  lemma OneMoreGone(s: State, t: State)
    requires s.order != [] && OldestGone(State(s.flows - {s.order[0]}, s.order[1..]), t)
    ensures OldestGone(s, t)
  {
  }

  // ---- one segment keeps the buffer in order and within the caps ----

  lemma StoreBytes(ooo: seq<Seg>, g: Seg)
    ensures Bytes(Store(ooo, g)) <= Bytes(ooo) + |g.data|
  {
    hide Bytes, Dominated, CoveredTo, LowerBound;
    if !Dominated(ooo, g) {
      var it := LowerBound(ooo, g.start);
      var h := CoveredTo(ooo, it, End(g));
      assert ooo == ooo[..it] + (ooo[it..h] + ooo[h..]);
      BytesJoin(ooo[..it], ooo[it..h] + ooo[h..]);
      BytesJoin(ooo[it..h], ooo[h..]);
      assert Store(ooo, g) == ooo[..it] + ([g] + ooo[h..]);
      BytesJoin(ooo[..it], [g] + ooo[h..]);
      BytesJoin([g], ooo[h..]);
      BytesOne(g);
    }
  }

  // The key of a stored segment is new: whatever had it has made way.
  lemma StoreSorted(ooo: seq<Seg>, g: Seg)
    requires Sorted(ooo)
    ensures Sorted(Store(ooo, g))
  {
    hide SeqLeq, LowerBound, CoveredTo;
    if !Dominated(ooo, g) {
      GivesWay(ooo, g);
      var it := LowerBound(ooo, g.start);
      var h := CoveredTo(ooo, it, End(g));
      forall j | h <= j < |ooo| ensures g.start < ooo[j].start {
        assert it < j ==> ooo[it].start < ooo[j].start;
      }
    }
  }

  lemma GivesWay(ooo: seq<Seg>, g: Seg)
    requires !Dominated(ooo, g)
    ensures var it := LowerBound(ooo, g.start);
            it < |ooo| && ooo[it].start == g.start ==> it < CoveredTo(ooo, it, End(g))
  {
    hide SeqLeq, LowerBound, End;
    var it := LowerBound(ooo, g.start);
    if it < |ooo| && ooo[it].start == g.start {
      SeqTotal(End(g), End(ooo[it]));
    }
  }

  lemma SeqTotal(a: uint32, b: uint32)
    ensures SeqLeq(a, b) || SeqLeq(b, a)
  {
    assert a - b >= 0 ==> Wrap32(a - b) == a - b;
    assert b - a >= 0 ==> Wrap32(b - a) == b - a;
  }

  lemma {:induction false} DrainKeeps(ooo: seq<Seg>, next: uint32)
    requires Sized(ooo) && Sorted(ooo)
    ensures var rest := Drain(ooo, next).0; Sorted(rest) && Bytes(rest) <= Bytes(ooo)
    decreases |ooo|
  {
    if ooo == [] || !SeqLeq(ooo[0].start, next) {
    } else if SeqLt(next, End(ooo[0])) {
      DrainKeeps(ooo[1..], End(ooo[0]));
    } else {
      DrainKeeps(ooo[1..], next);
    }
  }

  lemma PlaceKeeps(cfg: Config, d: Direction, g: Seg, mem: nat, now: uint64)
    requires DirectionOk(cfg, d) && 0 < |g.data| < TWO_31 && mem <= cfg.maxMem
    ensures var d1 := Place(cfg, d, g, mem, now).0;
            DirectionOk(cfg, d1) && mem + d1.oooBytes <= cfg.maxMem + d.oooBytes
  {
    hide Sorted, Sized, Bytes, Store, SeqLeq, SeqLt, Dominated;
    StoreBytes(d.ooo, g);
    StoreSorted(d.ooo, g);
    StoreSized(d.ooo, g);
  }

  // For every segment whatsoever, wrapping or not.
  lemma SegmentKeeps(cfg: Config, d: Direction, g: Seg, flags: Flags, mem: nat, now: uint64)
    requires DirectionOk(cfg, d) && |g.data| < TWO_31 && mem <= cfg.maxMem
    ensures var d1 := Segment(cfg, d, g, flags, mem, now).0;
            DirectionOk(cfg, d1) && mem + d1.oooBytes <= cfg.maxMem + d.oooBytes
  {
    hide Sorted, Sized, Bytes, Place, Drain, SeqLeq, SeqLt;
    if g.data != [] {
      var d0 := Start(d, g.start, flags.syn);
      PlaceKeeps(cfg, d0, g, mem, now);
      var d1 := SkipGap(cfg, Place(cfg, d0, g, mem, now).0, now);
      DrainSized(d1.ooo, d1.nextSeq);
      DrainKeeps(d1.ooo, d1.nextSeq);
    }
  }

  lemma DeliverKeeps(cfg: Config, s: State, k: FlowKey, pp: ParsedPacket, evicted: bool, now: uint64)
    requires k in s.flows && Linked(cfg, s) && |pp.l4.payload| < TWO_31 && Mem(s) <= cfg.maxMem
    ensures var t := Deliver(cfg, s, k, pp, evicted, now).0;
            Linked(cfg, t) && Mem(t) <= cfg.maxMem && |t.flows| <= |s.flows|
  {
    hide Names, Weight, Segment, Sorted, Bytes, Without;
    var f := s.flows[k];
    assert FlowOk(cfg, f);
    var d := Dir(f, Forward(pp));
    SegmentKeeps(cfg, d, SegOf(pp), FlagsOf(pp), Mem(s), now);
    var f1 := WithDir(f, Forward(pp), Segment(cfg, d, SegOf(pp), FlagsOf(pp), Mem(s), now).0);
    PutNames(s.order, s.flows, k, f1, Buffered);
    DropNames(s.order, s.flows[k := f1], k, Buffered);
  }

  // After every call the caps hold, and the table, the list and the memory count agree.
  lemma AddKeeps(cfg: Config, s: State, pp: ParsedPacket, now: uint64)
    requires WithinCaps(cfg, s) && |pp.l4.payload| < TWO_31
    ensures WithinCaps(cfg, Add(cfg, s, pp, now).0)
  {
    hide Names, Weight, FlowOk, Without, Evict, Touched, Deliver;
    if pp.l4.isTcp {
      var k := KeyOf(pp);
      EvictLinked(cfg, s, k);
      var s1 := if k in s.flows then s else Evict(cfg, s, k);
      TouchedLinked(cfg, s1, k, now);
      var s2 := Touched(s1, k, now);
      if FlagsOf(pp).rst {
        DropNames(s2.order, s2.flows, k, Buffered);
      } else {
        DeliverKeeps(cfg, s2, k, pp, s1 != s, now);
      }
    }
  }

  lemma RestrictAll(s: State)
    requires Names(s.order, s.flows)
    ensures Restrict(s, s.flows.Keys) == s
  {
    KeepAll(s.order, s.flows.Keys);
  }

  lemma RestrictDrop(s: State, ks: set<FlowKey>, k: FlowKey)
    ensures Drop(Restrict(s, ks), k) == Restrict(s, ks - {k})
  {
    KeepWithout(s.order, ks, k);
  }

  lemma ExpireKeeps(cfg: Config, s: State, now: uint64)
    requires WithinCaps(cfg, s)
    ensures WithinCaps(cfg, Expire(cfg, s, now))
  {
    hide Names, Weight, FlowOk;
    KeepNames(s.order, s.flows, (set k | k in s.flows && !Idle(cfg, s.flows[k].lastSeen, now)), Buffered);
  }

  // ---- a flow changes only by its own segments ----

  // The direction a segment belongs to takes the stream step; the other stays.
  lemma AddOwn(cfg: Config, s: State, pp: ParsedPacket, now: uint64)
    requires Linked(cfg, s) && |pp.l4.payload| < TWO_31
    requires pp.l4.isTcp && !FlagsOf(pp).rst && KeyOf(pp) in s.flows
    ensures var (t, r) := Add(cfg, s, pp, now);
            var k, fwd := KeyOf(pp), Forward(pp);
            && DirectionOk(cfg, Dir(s.flows[k], fwd))
            && var (d, out) := Segment(cfg, Dir(s.flows[k], fwd), SegOf(pp), FlagsOf(pp), Mem(s), now);
            && r.data == Flatten(out)
            && (k in t.flows ==> Dir(t.flows[k], fwd) == d && Dir(t.flows[k], !fwd) == Dir(s.flows[k], !fwd))
  {
    hide Names, Weight, Segment, Flatten, Refused, DirectionOk;
    var k := KeyOf(pp);
    assert FlowOk(cfg, s.flows[k]);
    TouchedLinked(cfg, s, k, now);
  }

  // A segment of another flow leaves this one alone, unless capacity evicts it.
  lemma AddOther(cfg: Config, s: State, pp: ParsedPacket, now: uint64, k: FlowKey)
    requires Linked(cfg, s) && |pp.l4.payload| < TWO_31 && KeyOf(pp) != k
    ensures var t := Add(cfg, s, pp, now).0; k in t.flows ==> k in s.flows && t.flows[k] == s.flows[k]
  {
    hide Names, Weight, Segment, Flatten, Refused, DirectionOk, Evict;
    EvictSame(cfg, s, KeyOf(pp), k);
  }

  lemma {:induction false} EvictSame(cfg: Config, s: State, j: FlowKey, k: FlowKey)
    ensures var t := Evict(cfg, s, j); k in t.flows ==> k in s.flows && t.flows[k] == s.flows[k]
    decreases |s.order|
  {
    if |s.flows| >= cfg.maxFlows && s.order != [] && s.order[0] != j {
      EvictSame(cfg, State(s.flows - {s.order[0]}, s.order[1..]), j, k);
    }
  }
}
