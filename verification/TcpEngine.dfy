/** The reassembly engine: flows, recency list and memory account, changed in place. */
module TcpEngine {
  import opened Machine
  import opened LruList
  import opened Packet
  import opened TcpStream
  import opened TcpTable

  class TcpReassembly {
    const cfg: Config
    var flows: map<FlowKey, Flow>
    const lru: Lru<FlowKey>
    var memUsed: nat

    ghost function Abs(): State
      reads this, lru
    {
      State(flows, lru.Order())
    }

    ghost predicate Coherent()
      reads this, lru
    {
      lru.Valid() && Linked(cfg, Abs()) && memUsed == Mem(Abs())
    }

    ghost predicate Valid()
      reads this, lru
    {
      Coherent() && WithinCaps(cfg, Abs())
    }

    constructor (c: Config)
      ensures Valid() && fresh(lru) && cfg == c && Abs() == State(map[], [])
    {
      cfg := c;
      flows, memUsed := map[], 0;
      lru := new Lru();
      new;
      assert Abs() == State(map[], []);
    }

    method EraseFlow(k: FlowKey)
      requires Coherent() && k in flows
      modifies this, lru
      ensures Coherent() && Abs() == Drop(old(Abs()), k)
    {
      hide Names, Weight, FlowOk, Lru.Valid, Lru.Order, Without;
      DropNames(lru.Order(), flows, k, Buffered);
      memUsed := memUsed - (flows[k].d0.oooBytes + flows[k].d1.oooBytes);
      flows := flows - {k};
      lru.Remove(k);
    }

    // Make room for a new flow by erasing the least recently used ones.
    method MakeRoom(k: FlowKey) returns (evicted: bool)
      requires Coherent()
      modifies this, lru
      ensures Coherent() && Abs() == Evict(cfg, old(Abs()), k)
      ensures evicted == (Abs() != old(Abs()))
    {
      hide Names, Weight, FlowOk, Lru.Valid, Lru.Order, Linked, Mem;
      evicted := false;
      while |flows| >= cfg.maxFlows
        invariant Coherent()
        invariant Evict(cfg, Abs(), k) == Evict(cfg, old(Abs()), k)
        invariant evicted ==> |lru.Order()| < |old(lru.Order())|
        invariant !evicted ==> Abs() == old(Abs())
        decreases |lru.Order()|
      {
        var empty := lru.Empty();
        if empty {
          break;
        }
        var front := lru.Front();
        if front == k {
          break;
        }
        FrontFlow(front);
        EraseFlow(front);
        evicted := true;
      }
    }

    lemma FrontFlow(k: FlowKey)
      requires Coherent() && lru.Order() != [] && lru.Order()[0] == k
      ensures k in flows && Without(lru.Order(), k) == lru.Order()[1..]
    {
      hide Weight, FlowOk, Lru.Valid, Lru.Order;
      PopLinked(cfg, Abs());
      WithoutAt(lru.Order(), 0);
      assert lru.Order()[..0] + lru.Order()[1..] == lru.Order()[1..];
    }

    method Touch(k: FlowKey, now: uint64)
      requires Coherent()
      modifies this, lru
      ensures Coherent() && Abs() == Touched(old(Abs()), k, now) && k in flows
      ensures memUsed == old(memUsed)
    {
      hide Names, Weight, FlowOk, Lru.Valid, Lru.Order, Linked, Mem, Without;
      TouchedLinked(cfg, Abs(), k, now);
      var f := if k in flows then flows[k].(lastSeen := now) else Flow(FRESH, FRESH, now);
      flows := flows[k := f];
      lru.Touch(k);
    }

    // Buffer a segment that is ahead of the stream, unless it brings nothing.
    method Buffer(d: Direction, g: Seg, now: uint64) returns (out: Direction)
      requires d.oooBytes == Bytes(d.ooo) <= memUsed
      modifies this`memUsed
      ensures out == if Dominated(d.ooo, g) then d else
        d.(ooo := Store(d.ooo, g), oooBytes := Bytes(Store(d.ooo, g)), gapPending := true,
           gapSince := if d.gapPending then d.gapSince else now)
      ensures memUsed + d.oooBytes == old(memUsed) + out.oooBytes
    {
      var it := LowerBound(d.ooo, g.start);
      var dominated := it < |d.ooo| && d.ooo[it].start == g.start && SeqLeq(End(g), End(d.ooo[it]));
      if 0 < it && SeqLeq(End(g), End(d.ooo[it - 1])) {
        dominated := true;
      }
      out := d;
      if !dominated {
        out := Displace(d, it, g);
        if !d.gapPending {
          out := out.(gapPending := true, gapSince := now);
        }
      }
    }

    // Drop the later segments that g covers, from it on, and put g there.
    method Displace(d: Direction, it: nat, g: Seg) returns (out: Direction)
      requires it <= |d.ooo| && d.oooBytes == Bytes(d.ooo) <= memUsed
      modifies this`memUsed
      ensures
        var ooo := d.ooo[..it] + [g] + d.ooo[CoveredTo(d.ooo, it, End(g))..];
        out == d.(ooo := ooo, oooBytes := Bytes(ooo))
      ensures memUsed + d.oooBytes == old(memUsed) + out.oooBytes
    {
      hide Bytes, Cut, SeqLeq, End;
      var ooo, bytes := d.ooo, d.oooBytes;
      ghost var h := it;
      CutNone(d.ooo, it);
      while it < |ooo| && SeqLeq(End(ooo[it]), End(g))
        invariant it <= h <= |d.ooo| && ooo == Cut(d.ooo, it, h)
        invariant CoveredTo(d.ooo, h, End(g)) == CoveredTo(d.ooo, it, End(g))
        invariant bytes == Bytes(ooo) && memUsed + d.oooBytes == old(memUsed) + bytes
        decreases |d.ooo| - h
      {
        CutNext(d.ooo, it, h);
        bytes := bytes - |ooo[it].data|;
        memUsed := memUsed - |ooo[it].data|;
        ooo := ooo[..it] + ooo[it + 1..];
        h := h + 1;
      }
      if h < |d.ooo| {
        CutNext(d.ooo, it, h);
      }
      CutInsert(d.ooo, it, h, g);
      ooo := ooo[..it] + [g] + ooo[it..];
      bytes := bytes + |g.data|;
      memUsed := memUsed + |g.data|;
      out := d.(ooo := ooo, oooBytes := bytes);
    }

    // Take what has become contiguous off the front of the buffer.
    method DrainBuffer(d: Direction) returns (out: Direction, data: seq<byte>, hasData: bool, ghost pieces: seq<Seg>)
      requires Sized(d.ooo) && d.oooBytes == Bytes(d.ooo) <= memUsed
      modifies this`memUsed
      ensures (out, pieces) == DrainAll(d) && data == Flatten(pieces) && hasData == (pieces != [])
      ensures memUsed + d.oooBytes == old(memUsed) + out.oooBytes
    {
      hide SeqLeq, SeqLt, End, Flatten, Drain, Bytes;
      out, data, hasData, pieces := d, [], false, [];
      FlattenNone();
      NothingBefore(Drain(d.ooo, d.nextSeq));
      if d.ooo == [] {
        DrainStops(d.ooo, d.nextSeq, []);
      }
      while out.ooo != [] && SeqLeq(out.ooo[0].start, out.nextSeq)
        invariant Sized(out.ooo) && out.oooBytes == Bytes(out.ooo) <= memUsed
        invariant out == d.(ooo := out.ooo, oooBytes := out.oooBytes, nextSeq := out.nextSeq)
        invariant Drain(d.ooo, d.nextSeq) == Behind(pieces, Drain(out.ooo, out.nextSeq))
        invariant data == Flatten(pieces) && hasData == (pieces != [])
        invariant memUsed + d.oooBytes == old(memUsed) + out.oooBytes
        decreases |out.ooo|
      {
        var g := out.ooo[0];
        var next := out.nextSeq;
        DrainFront(out.ooo, out.nextSeq, pieces);
        if SeqLt(out.nextSeq, End(g)) {
          SkipInside(g, out.nextSeq);
          var news := g.data[Wrap32(out.nextSeq - g.start)..];
          FlattenJoin(pieces, [Seg(out.nextSeq, news)]);
          FlattenOne(Seg(out.nextSeq, news));
          data := data + news;
          hasData := true;
          pieces := pieces + [Seg(out.nextSeq, news)];
          next := End(g);
        }
        memUsed := memUsed - |g.data|;
        out := out.(ooo := out.ooo[1..], oooBytes := out.oooBytes - |g.data|, nextSeq := next);
      }
      DrainStops(out.ooo, out.nextSeq, pieces);
      if d.ooo != [] && out.ooo == [] {
        out := out.(gapPending := false);
      }
    }

    // Deliver, buffer or refuse the segment itself.
    method PlaceSegment(d: Direction, g: Seg, now: uint64)
      returns (out: Direction, data: seq<byte>, hasData: bool, refused: bool)
      requires d.oooBytes == Bytes(d.ooo) <= memUsed && 0 < |g.data| < TWO_31
      modifies this`memUsed
      ensures var (placed, pieces) := Place(cfg, d, g, old(memUsed), now);
              out == placed && data == Flatten(pieces) && hasData == (pieces != [])
      ensures refused == Refused(cfg, d, g, old(memUsed))
      ensures memUsed + d.oooBytes == old(memUsed) + out.oooBytes
    {
      hide SeqLeq, SeqLt, Flatten, Store, Dominated, Bytes, Wrap32;
      FlattenNone();
      FlattenOne(g);
      out, data, hasData, refused := d, [], false, false;
      if SeqLeq(End(g), d.nextSeq) {
        return;
      } else if SeqLt(g.start, d.nextSeq) {
        TrimInside(g, d.nextSeq);
        data, hasData := g.data[Wrap32(d.nextSeq - g.start)..], true;
        FlattenOne(Seg(d.nextSeq, data));
        out := d.(nextSeq := Wrap32(d.nextSeq + |data|));
      } else if g.start == d.nextSeq {
        data, hasData := g.data, true;
        out := d.(nextSeq := Wrap32(d.nextSeq + |g.data|));
      } else if d.oooBytes + |g.data| <= cfg.maxStream && memUsed + |g.data| <= cfg.maxMem {
        out := Buffer(d, g, now);
      } else {
        refused := true;
      }
    }

    // One segment for direction d of the flow just touched.
    method Process(d: Direction, g: Seg, flags: Flags, now: uint64)
      returns (out: Direction, data: seq<byte>, hasData: bool, refused: bool)
      requires DirectionOk(cfg, d) && d.oooBytes <= memUsed <= cfg.maxMem && |g.data| < TWO_31
      modifies this`memUsed
      ensures var (d1, pieces) := Segment(cfg, d, g, flags, old(memUsed), now);
              out == d1 && data == Flatten(pieces) && hasData == (pieces != [])
      ensures refused == (g.data != [] && Refused(cfg, Start(d, g.start, flags.syn), g, old(memUsed)))
      ensures memUsed + d.oooBytes == old(memUsed) + out.oooBytes
    {
      hide SeqLeq, SeqLt, Flatten, Place, DrainAll, Refused, Sorted, Sized, Bytes, Wrap32;
      out, data, hasData, refused := Start(d, g.start, flags.syn), [], false, false;
      FlattenNone();
      if g.data != [] {
        ghost var placed := Place(cfg, out, g, memUsed, now);
        PlaceKeeps(cfg, out, g, memUsed, now);
        out, data, hasData, refused := PlaceSegment(out, g, now);
        if out.ooo != [] && out.gapPending && Elapsed(now, out.gapSince) >= cfg.gapTimeout
           && SeqLt(out.nextSeq, out.ooo[0].start) {
          out := out.(nextSeq := out.ooo[0].start, gapPending := false);
        }
        ghost var pieces: seq<Seg>;
        var more, hasMore;
        out, more, hasMore, pieces := DrainBuffer(out);
        FlattenJoin(placed.1, pieces);
        data, hasData := data + more, hasData || hasMore;
      }
      if flags.fin && !out.finSeen {
        out := out.(finSeen := true, nextSeq := Wrap32(out.nextSeq + 1));
      }
    }

    // A segment that is not a reset, for the flow just touched.
    method DeliverTo(k: FlowKey, pp: ParsedPacket, evicted: bool, now: uint64) returns (r: Result)
      requires Coherent() && k in flows && memUsed <= cfg.maxMem && |pp.l4.payload| < TWO_31
      modifies this, lru
      ensures Coherent()
      ensures (Abs(), r) == Deliver(cfg, old(Abs()), k, pp, evicted, now)
    {
      hide Names, Weight, DirectionOk, Lru.Valid, Lru.Order, Segment, Refused, Flatten;
      MemHolds(cfg, Abs(), k);
      var f := flows[k];
      var d := Dir(f, Forward(pp));
      SegmentKeeps(cfg, d, SegOf(pp), FlagsOf(pp), memUsed, now);
      var d1, data, hasData, refused := Process(d, SegOf(pp), FlagsOf(pp), now);
      var f1 := WithDir(f, Forward(pp), d1);
      PutNames(lru.Order(), flows, k, f1, Buffered);
      flows := flows[k := f1];
      var closed := f1.d0.finSeen && f1.d1.finSeen;
      if closed {
        EraseFlow(k);
      }
      r := Result(hasData, data, closed, evicted || refused);
    }

    method AddSegment(pp: ParsedPacket, now: uint64) returns (r: Result)
      requires Valid() && |pp.l4.payload| < TWO_31
      modifies this, lru
      ensures Valid()
      ensures (Abs(), r) == Add(cfg, old(Abs()), pp, now)
    {
      hide Names, Weight, FlowOk, Lru.Valid, Lru.Order, Linked, Mem, WithinCaps, Deliver, Touched, Evict, FlagsOf;
      WithinMem(cfg, Abs());
      AddKeeps(cfg, Abs(), pp, now);
      if !pp.l4.isTcp {
        return NOTHING;
      }
      var k := KeyOf(pp);
      EvictLinked(cfg, Abs(), k);
      var evicted := false;
      if k !in flows {
        evicted := MakeRoom(k);
      }
      Touch(k, now);
      if FlagsOf(pp).rst {
        EraseFlow(k);
        r := Result(false, [], true, evicted);
      } else {
        r := DeliverTo(k, pp, evicted, now);
      }
    }

    method Expire(now: uint64) returns (dropped: nat)
      requires Valid()
      modifies this, lru
      ensures Valid() && Abs() == TcpTable.Expire(cfg, old(Abs()), now)
      ensures dropped == |old(flows)| - |flows|
    {
      hide Weight, Names, FlowOk, Lru.Valid, Lru.Order, WithinCaps, Restrict, Mem, Linked, Drop;
      ExpireKeeps(cfg, Abs(), now);
      LinkedNames(cfg, Abs());
      RestrictAll(Abs());
      dropped := 0;
      var todo := flows.Keys;
      ghost var s := Abs();
      ghost var left := s.flows.Keys;
      while todo != {}
        invariant Coherent() && Abs() == Restrict(s, left)
        invariant todo <= left == flows.Keys <= s.flows.Keys
        invariant forall k :: k in todo ==> flows[k] == s.flows[k]
        invariant forall k :: k in s.flows && k !in todo ==> (k in left <==> !Idle(cfg, s.flows[k].lastSeen, now))
        invariant dropped + |flows| == |old(flows)|
        decreases |todo|
      {
        var k :| k in todo;
        if Elapsed(now, flows[k].lastSeen) >= cfg.idleTimeout {
          RestrictDrop(s, left, k);
          DropKeys(Abs(), k);
          EraseFlow(k);
          left := left - {k};
          dropped := dropped + 1;
        }
        todo := todo - {k};
      }
      assert left == set k | k in s.flows && !Idle(cfg, s.flows[k].lastSeen, now);
    }
  }

  lemma DropKeys(s: State, k: FlowKey)
    requires k in s.flows
    ensures Drop(s, k).flows == s.flows - {k} && |s.flows - {k}| == |s.flows| - 1
  {
    Sizes(s.flows, s.flows - {k}, k);
  }

  lemma LinkedNames(cfg: Config, s: State)
    requires Linked(cfg, s)
    ensures Names(s.order, s.flows)
  {
  }

  lemma WithinMem(cfg: Config, s: State)
    requires WithinCaps(cfg, s)
    ensures Mem(s) <= cfg.maxMem
  {
  }

  lemma MemHolds(cfg: Config, s: State, k: FlowKey)
    requires Linked(cfg, s) && k in s.flows
    ensures Buffered(s.flows[k]) <= Mem(s) && FlowOk(cfg, s.flows[k])
  {
    TotalWithout(s.order, k, WeightIn(s.flows, Buffered));
  }

  // ooo with the segments it..h taken out.
  function Cut(ooo: seq<Seg>, it: nat, h: nat): (r: seq<Seg>)
    requires it <= h <= |ooo|
    ensures |r| == |ooo| - (h - it)
  {
    ooo[..it] + ooo[h..]
  }

  lemma CutNone(ooo: seq<Seg>, it: nat)
    requires it <= |ooo|
    ensures Cut(ooo, it, it) == ooo
  {
  }

  lemma CutNext(ooo: seq<Seg>, it: nat, h: nat)
    requires it <= h < |ooo|
    ensures var r := Cut(ooo, it, h);
            && it < |r| && r[it] == ooo[h] && r[..it] + r[it + 1..] == Cut(ooo, it, h + 1)
            && Bytes(r) == Bytes(Cut(ooo, it, h + 1)) + |ooo[h].data|
  {
    hide Bytes;
    BytesAt(Cut(ooo, it, h), it);
  }

  lemma CutInsert(ooo: seq<Seg>, it: nat, h: nat, g: Seg)
    requires it <= h <= |ooo|
    ensures var r := Cut(ooo, it, h);
            && |r| == |ooo| - (h - it) && r[..it] + [g] + r[it..] == ooo[..it] + [g] + ooo[h..]
            && Bytes(ooo[..it] + [g] + ooo[h..]) == Bytes(r) + |g.data|
  {
    hide Bytes;
    var more := ooo[..it] + [g] + ooo[h..];
    BytesAt(more, it);
    assert more[..it] + more[it + 1..] == Cut(ooo, it, h);
  }

  lemma BytesAt(ooo: seq<Seg>, i: nat)
    requires i < |ooo|
    ensures Bytes(ooo) == Bytes(ooo[..i] + ooo[i + 1..]) + |ooo[i].data|
  {
    hide Bytes;
    var rest := ooo[i + 1..];
    BytesJoin(ooo[..i], rest);
    assert ooo == ooo[..i] + ([ooo[i]] + rest);
    BytesJoin(ooo[..i], [ooo[i]] + rest);
    BytesJoin([ooo[i]], rest);
    BytesOne(ooo[i]);
  }

  // What draining the rest gives, behind the pieces that are out already.
  ghost function Behind(pieces: seq<Seg>, r: (seq<Seg>, uint32, seq<Seg>)): (seq<Seg>, uint32, seq<Seg>) {
    (r.0, r.1, pieces + r.2)
  }

  lemma NothingBefore(r: (seq<Seg>, uint32, seq<Seg>))
    ensures Behind([], r) == r
  {
    assert [] + r.2 == r.2;
  }

  lemma DrainFront(ooo: seq<Seg>, next: uint32, pieces: seq<Seg>)
    requires Sized(ooo) && ooo != [] && SeqLeq(ooo[0].start, next)
    ensures Bytes(ooo) == |ooo[0].data| + Bytes(ooo[1..])
    ensures
      var g := ooo[0];
      if SeqLt(next, End(g)) then
        && Wrap32(next - g.start) < |g.data|
        && Behind(pieces, Drain(ooo, next)) ==
             Behind(pieces + [Seg(next, g.data[Wrap32(next - g.start)..])], Drain(ooo[1..], End(g)))
      else Drain(ooo, next) == Drain(ooo[1..], next)
  {
    hide SeqLeq, SeqLt, End, Wrap32;
    var g := ooo[0];
    if SeqLt(next, End(g)) {
      SkipInside(g, next);
      var piece := Seg(next, g.data[Wrap32(next - g.start)..]);
      Regroup(pieces, [piece], Drain(ooo[1..], End(g)).2);
    }
  }

  lemma Regroup(a: seq<Seg>, b: seq<Seg>, c: seq<Seg>)
    ensures a + (b + c) == (a + b) + c
  {
  }

  lemma DrainStops(ooo: seq<Seg>, next: uint32, pieces: seq<Seg>)
    requires Sized(ooo) && (ooo == [] || !SeqLeq(ooo[0].start, next))
    ensures Behind(pieces, Drain(ooo, next)) == (ooo, next, pieces)
  {
    hide SeqLeq;
    assert pieces + [] == pieces;
  }
}
