/** The fragment engine itself: buffers, interval sets, recency list and memory account. */
module IpDefragEngine {
  import opened Machine
  import opened LruList
  import opened Packet
  import opened Intervals
  import opened Defrag

  datatype Datagram = Datagram(
    buf: seq<byte>,
    covered: seq<Range>,
    totalLen: nat,
    haveLast: bool,
    lastSeen: uint64,
    accounted: nat)

  const EMPTY: Datagram := Datagram([], [], 0, false, 0, 0)

  ghost predicate DatagramOk(dg: Datagram) {
    && Separated(dg.covered)
    && (forall i :: 0 <= i < |dg.covered| ==> dg.covered[i].end <= |dg.buf|)
    && dg.accounted == |dg.buf|
  }

  ghost function CoveredBytes(buf: seq<byte>, cov: seq<Range>): map<int, byte> {
    map x | x in Span(0, |buf|) && Covers(cov, x) :: buf[x]
  }

  ghost function AbsEntry(dg: Datagram): Entry {
    Entry(CoveredBytes(dg.buf, dg.covered), |dg.buf|,
          if dg.haveLast then Some(dg.totalLen) else None, dg.lastSeen)
  }

  ghost function AbsTable(table: map<FragKey, Datagram>): (r: map<FragKey, Entry>)
    ensures r.Keys == table.Keys
    ensures |r| == |table|
  {
    var r := map k | k in table :: AbsEntry(table[k]);
    assert r.Keys == table.Keys;
    assert |r| == |r.Keys|;
    r
  }

  lemma AbsTableRemove(table: map<FragKey, Datagram>, k: FragKey)
    ensures AbsTable(table - {k}) == AbsTable(table) - {k}
    ensures k in table && DatagramOk(table[k]) ==> AbsTable(table)[k].extent == table[k].accounted
  {
  }

  lemma AbsTablePut(table: map<FragKey, Datagram>, k: FragKey, dg: Datagram)
    ensures AbsTable(table[k := dg]) == AbsTable(table)[k := AbsEntry(dg)]
  {
  }

  // buf grown with zeros to hold need bytes.
  function Resize(buf: seq<byte>, need: nat): (r: seq<byte>)
    ensures |r| == Max(|buf|, need)
    ensures buf <= r
  {
    if |buf| < need then buf + seq(need - |buf|, _ => 0) else buf
  }

  // Copy, merge and record the end: the interval-set form of one fragment.
  method Take(dg: Datagram, off: nat, data: seq<byte>, more: bool) returns (out: Datagram)
    requires DatagramOk(dg) && 0 < |data| && off + |data| <= |dg.buf|
    ensures DatagramOk(out)
    ensures AbsEntry(out) == Absorb(AbsEntry(dg), off, data, more)
  {
    hide CoveredBytes, FirstSeen, Separated, Covers, Fill;
    var end := off + |data|;
    var buf := CopyUncovered(dg.buf, dg.covered, data, off);
    var cov := Merge(dg.covered, off, end);
    out := dg.(buf := buf, covered := cov);
    CoveredInside(dg);
    FillSize(dg.buf, dg.covered, data, off);
    EndsInside(cov, |buf|);
    if !more {
      out := out.(haveLast := true, totalLen := end);
    }
    TakeMeaning(dg, off, data, buf, cov);
  }

  lemma EndsInside(cov: seq<Range>, n: nat)
    requires Separated(cov) && forall x :: Covers(cov, x) ==> x < n
    ensures forall i :: 0 <= i < |cov| ==> cov[i].end <= n
  {
    forall i | 0 <= i < |cov| ensures cov[i].end <= n {
      assert Covers(cov, cov[i].end - 1);
    }
  }

  lemma FillSize(buf: seq<byte>, cov: seq<Range>, frag: seq<byte>, off: nat)
    ensures |Fill(buf, cov, frag, off)| == |buf|
  {
  }

  lemma TakeMeaning(dg: Datagram, off: nat, data: seq<byte>, buf: seq<byte>, cov: seq<Range>)
    requires DatagramOk(dg) && off + |data| <= |dg.buf|
    requires buf == Fill(dg.buf, dg.covered, data, off)
    requires forall x :: Covers(cov, x) <==> Covers(dg.covered, x) || off <= x < off + |data|
    ensures CoveredBytes(buf, cov) == FirstSeen(CoveredBytes(dg.buf, dg.covered), off, data)
  {
    hide Covers;
    CoveredInside(dg);
  }

  lemma CoveredInside(dg: Datagram)
    requires DatagramOk(dg)
    ensures forall x :: Covers(dg.covered, x) ==> 0 <= x < |dg.buf|
  {
  }

  // The completion test on the interval set.
  predicate SingleRange(dg: Datagram) {
    && dg.haveLast
    && |dg.covered| == 1
    && dg.covered[0].begin == 0
    && dg.totalLen <= dg.covered[0].end
  }

  lemma SingleRangeIsComplete(dg: Datagram)
    requires DatagramOk(dg)
    ensures SingleRange(dg) <==> Complete(AbsEntry(dg))
    ensures SingleRange(dg) ==> dg.buf[..dg.totalLen] == Assembled(AbsEntry(dg))
  {
    var e := AbsEntry(dg);
    if SingleRange(dg) {
      var n := dg.covered[0].end;
      SingleFromZero(dg.covered, n);
      assert IsInitial(e.bytes, n);
    }
    if Complete(e) {
      var n: nat :| 0 < n && e.last.value <= n && IsInitial(e.bytes, n);
      assert n - 1 in e.bytes;
      forall x: int ensures Covers(dg.covered, x) <==> 0 <= x < n {
        assert x in e.bytes <==> 0 <= x < n;
      }
      SingleFromZero(dg.covered, n);
    }
  }

  class IpDefrag {
    const cfg: Config
    var table: map<FragKey, Datagram>
    const lru: Lru<FragKey>
    var memUsed: nat

    ghost function Abs(): State
      reads this, lru
    {
      State(AbsTable(table), lru.Order())
    }

    // Everything except the caps, which are briefly exceeded inside a call.
    ghost predicate Coherent()
      reads this, lru
    {
      && lru.Valid()
      && (forall k :: k in table ==> DatagramOk(table[k]))
      && Linked(Abs())
      && memUsed == Mem(Abs())
    }

    ghost predicate Valid()
      reads this, lru
    {
      Coherent() && WithinCaps(cfg, Abs())
    }

    constructor (c: Config)
      ensures Valid() && fresh(lru) && cfg == c && Abs() == State(map[], [])
    {
      cfg := c;
      table, memUsed := map[], 0;
      lru := new Lru();
      new;
      assert Abs() == State(map[], []);
    }

    method EvictOne() returns (evicted: bool)
      requires Coherent()
      modifies this, lru
      ensures Coherent()
      ensures evicted == (old(lru.Order()) != [])
      ensures memUsed <= old(memUsed)
      ensures evicted ==>
        var k := old(lru.Order())[0];
        table == old(table) - {k} && lru.Order() == old(lru.Order())[1..]
        && Abs() == State(old(Abs()).table - {k}, old(Abs()).order[1..])
      ensures !evicted ==> Abs() == old(Abs()) && table == old(table)
    {
      hide AbsTable, AbsEntry, DatagramOk, Weight, Names, Lru.Valid, Lru.Order;
      var empty := lru.Empty();
      if empty {
        return false;
      }
      PopNames(Abs().order, Abs().table, Extent);
      var victim := lru.PopFront();
      AbsTableRemove(table, victim);
      memUsed := memUsed - table[victim].accounted;
      table := table - {victim};
      assert Abs() == State(old(Abs()).table - {victim}, old(Abs()).order[1..]);
      return true;
    }

    method MakeRoomForEntry() returns (evicted: bool)
      requires Coherent()
      modifies this, lru
      ensures Coherent()
      ensures Abs() == EvictForCount(cfg, old(Abs()))
      ensures evicted == (Abs() != old(Abs()))
      ensures memUsed <= old(memUsed)
    {
      hide AbsTable, AbsEntry, DatagramOk, Weight, Names, Lru.Valid, Lru.Order;
      evicted := false;
      while |table| >= cfg.maxDatagrams
        invariant Coherent()
        invariant EvictForCount(cfg, Abs()) == EvictForCount(cfg, old(Abs()))
        invariant memUsed <= old(memUsed)
        invariant evicted ==> |lru.Order()| < |old(lru.Order())|
        invariant !evicted ==> Abs() == old(Abs())
        decreases |lru.Order()|
      {
        var more := EvictOne();
        if !more {
          break;
        }
        evicted := true;
      }
    }

    method MakeRoomForBytes(k: FragKey, grow: nat) returns (evicted: bool)
      requires Coherent()
      modifies this, lru
      ensures Coherent()
      ensures Abs() == EvictForMem(cfg, old(Abs()), k, grow)
      ensures evicted == (Abs() != old(Abs()))
      ensures forall x :: x in table ==> x in old(table) && table[x] == old(table)[x]
    {
      hide AbsTable, AbsEntry, DatagramOk, Weight, Names, Lru.Valid, Lru.Order;
      evicted := false;
      while memUsed + grow > cfg.maxMem
        invariant Coherent()
        invariant EvictForMem(cfg, Abs(), k, grow) == EvictForMem(cfg, old(Abs()), k, grow)
        invariant evicted ==> |lru.Order()| < |old(lru.Order())|
        invariant !evicted ==> Abs() == old(Abs())
        invariant forall x :: x in table ==> x in old(table) && table[x] == old(table)[x]
        decreases |lru.Order()|
      {
        var empty := lru.Empty();
        if empty {
          break;
        }
        var front := lru.Front();
        if front == k {
          break;
        }
        var _ := EvictOne();
        evicted := true;
      }
    }

    // Touch the entry of k, creating an empty one when there is none.
    method TouchEntry(k: FragKey, now: uint64)
      requires Coherent()
      modifies this, lru
      ensures Coherent()
      ensures Abs() == Touched(old(Abs()), k, now)
      ensures k in table && memUsed == old(memUsed)
    {
      hide AbsEntry, AbsTable, DatagramOk, Weight, Names, Touched, Lru.Valid, Lru.Order;
      var dg := (if k in table then table[k] else EMPTY).(lastSeen := now);
      TouchMeaning(Abs(), table, k, now);
      table := table[k := dg];
      lru.Touch(k);
      assert Abs() == Touched(old(Abs()), k, now);
    }

    method RemoveEntry(k: FragKey)
      requires Coherent() && k in table
      modifies this, lru
      ensures Coherent()
      ensures Abs() == Drop(old(Abs()), k) && table == old(table) - {k}
    {
      hide AbsEntry, AbsTable, DatagramOk, Weight, Names, Lru.Valid, Lru.Order;
      DropNames(Abs().order, Abs().table, k, Extent);
      AbsTableRemove(table, k);
      memUsed := memUsed - table[k].accounted;
      table := table - {k};
      lru.Remove(k);
      assert Abs() == Drop(old(Abs()), k);
    }

    // Grow the buffer of k, charging the pool.
    method GrowBuffer(k: FragKey, need: nat)
      requires Coherent() && k in table
      modifies this
      ensures Coherent() && lru.Order() == old(lru.Order())
      ensures table.Keys == old(table).Keys && |table[k].buf| == Max(|old(table)[k].buf|, need)
      ensures
        var e := AbsEntry(old(table)[k]);
        Abs() == State(old(Abs()).table[k := e.(extent := Max(e.extent, need))], old(Abs()).order)
      ensures memUsed == old(memUsed) + Grow(AbsEntry(old(table)[k]), need)
    {
      hide AbsTable, AbsEntry, DatagramOk, Resize, Weight, Names, Lru.Valid, Lru.Order;
      var dg := table[k];
      AbsExtent(dg);
      var grow := if |dg.buf| < need then need - |dg.buf| else 0;
      var grown := dg.(buf := Resize(dg.buf, need), accounted := dg.accounted + grow);
      ResizeMeaning(dg, need);
      PutNames(Abs().order, Abs().table, k, AbsEntry(grown), Extent);
      AbsTablePut(table, k, grown);
      AbsTableAt(table, k);
      memUsed := memUsed + grow;
      table := table[k := grown];
      assert Abs() == State(old(Abs()).table[k := AbsEntry(grown)], old(Abs()).order);
    }

    // Copy and merge the bytes, then hand the datagram over when it is complete.
    method TakeAndFinish(k: FragKey, off: nat, data: seq<byte>, more: bool, evicted: bool) returns (r: Result)
      requires Coherent() && k in table
      requires 0 < |data| && off + |data| <= |table[k].buf|
      modifies this, lru
      ensures Coherent()
      ensures
        var s := old(Abs());
        (Abs(), r) == Finish(State(s.table[k := Absorb(AbsEntry(old(table)[k]), off, data, more)], s.order), k, evicted)
    {
      hide AbsEntry, AbsTable, Weight, Names, Lru.Valid, Lru.Order, FirstSeen, Separated;
      var dg := Take(table[k], off, data, more);
      PutNames(Abs().order, Abs().table, k, AbsEntry(dg), Extent);
      AbsTablePut(table, k, dg);
      AbsTableAt(table, k);
      AbsExtent(table[k]);
      AbsExtent(dg);
      table := table[k := dg];
      SingleRangeIsComplete(dg);
      assert Abs() == State(old(Abs()).table[k := AbsEntry(dg)], old(Abs()).order);
      if SingleRange(dg) {
        r := Result(true, evicted, dg.buf[..dg.totalLen]);
        RemoveEntry(k);
      } else {
        r := Result(false, evicted, []);
      }
    }

    // Room for the bytes up to need, if eviction can make it.
    method MakeRoom(k: FragKey, need: nat) returns (fits: bool, evicted: bool)
      requires Coherent() && k in table && memUsed <= cfg.maxMem
      modifies this, lru
      ensures Coherent() && k in table && table[k] == old(table[k])
      ensures
        var grow := Grow(AbsEntry(table[k]), need);
        && Abs() == Room(cfg, old(Abs()), k, grow) && evicted == (Abs() != old(Abs()))
        && fits == !(0 < grow && Mem(Abs()) + grow > cfg.maxMem)
    {
      hide AbsEntry, AbsTable, Weight, Names, Lru.Valid, Lru.Order, EvictForMem, DatagramOk;
      fits, evicted := true, false;
      AbsTableAt(table, k);
      AbsExtent(table[k]);
      if |table[k].buf| < need {
        var grow := need - |table[k].buf|;
        RoomFacts(cfg, Abs(), k, grow);
        evicted := MakeRoomForBytes(k, grow);
        fits := memUsed + grow <= cfg.maxMem;
      }
    }

    // The entry under k has just been touched.
    method FeedEntry(k: FragKey, off: nat, data: seq<byte>, more: bool, evictedBefore: bool) returns (r: Result)
      requires Coherent() && k in table && memUsed <= cfg.maxMem && 0 < |data|
      modifies this, lru
      ensures Coherent()
      ensures (Abs(), r) == Feed(cfg, old(Abs()), k, off, data, more, evictedBefore)
    {
      hide AbsEntry, AbsTable, Weight, Names, Lru.Valid, Lru.Order, Absorb, Finish, Grow, Room, DatagramOk,
        Linked, Mem;
      AbsTableAt(table, k);
      ghost var e := AbsEntry(table[k]);
      var fits, some := MakeRoom(k, off + |data|);
      var evicted := evictedBefore || some;
      AbsTableAt(table, k);
      if !fits {
        AccountedIsExtent(k);
        if table[k].accounted == 0 {
          RemoveEntry(k);
        }
        return Result(false, evicted, []);
      }
      ghost var t := Abs();
      GrowBuffer(k, off + |data|);
      AbsTableAt(table, k);
      GrownAbsorbs(t, k, e, off, data, more);
      r := TakeAndFinish(k, off, data, more, evicted);
    }

    lemma AccountedIsExtent(k: FragKey)
      requires Coherent() && k in table
      ensures table[k].accounted == AbsEntry(table[k]).extent
    {
    }

    // Make room for a new entry, touch it and feed it.
    method Accept(k: FragKey, off: nat, data: seq<byte>, more: bool, now: uint64) returns (r: Result)
      requires Coherent() && memUsed <= cfg.maxMem && 0 < |data|
      modifies this, lru
      ensures Coherent()
      ensures
        var s1 := if k in old(table) then old(Abs()) else EvictForCount(cfg, old(Abs()));
        (Abs(), r) == Feed(cfg, Touched(s1, k, now), k, off, data, more, s1 != old(Abs()))
    {
      hide AbsEntry, AbsTable, Weight, Names, Lru.Valid, Lru.Order, Feed, EvictForCount, DatagramOk;
      var evicted := false;
      if k !in table {
        evicted := MakeRoomForEntry();
      }
      TouchEntry(k, now);
      r := FeedEntry(k, off, data, more, evicted);
    }

    method AddFragment(pp: ParsedPacket, frag: seq<byte>, now: uint64) returns (r: Result)
      requires Valid()
      requires |frag| <= TWO_32 - 1 - MAX_DATAGRAM_LEN
      modifies this, lru
      ensures Valid()
      ensures (Abs(), r) == Add(cfg, old(Abs()), pp, frag, now)
    {
      hide AbsEntry, AbsTable, Weight, Names, Lru.Valid, Lru.Order, Feed, Touched, EvictForCount, DatagramOk,
        WithinCaps;
      AddKeeps(cfg, Abs(), pp, frag, now);
      WithinMem(cfg, Abs());
      if frag == [] || pp.fragOffset >= MAX_DATAGRAM_LEN {
        return Result(false, false, []);
      }
      var off := pp.fragOffset;
      var flen: uint32 := |frag|;
      if Wrap32(off + flen) > MAX_DATAGRAM_LEN {
        flen := MAX_DATAGRAM_LEN - off;
      }
      assert frag[..|frag|] == frag;
      r := Accept(KeyOf(pp), off, frag[..flen], pp.fragMore, now);
    }

    method Expire(now: uint64) returns (dropped: nat)
      requires Valid()
      modifies this, lru
      ensures Valid()
      ensures Abs() == Defrag.Expire(cfg, old(Abs()), now)
      ensures dropped == |old(table)| - |table|
    {
      hide AbsEntry, AbsTable, Lru.Valid, Lru.Order, DatagramOk, WithinCaps, Restrict, Drop, Linked, Mem;
      ExpireKeeps(cfg, Abs(), now);
      RestrictAll(Abs());
      dropped := 0;
      var todo := table.Keys;
      ghost var s := Abs();
      ghost var left := s.table.Keys;
      while todo != {}
        invariant Coherent() && Abs() == Restrict(s, left)
        invariant todo <= left == table.Keys <= s.table.Keys
        invariant forall k :: k in todo ==> table[k] == old(table)[k]
        invariant forall k :: k in s.table && k !in todo ==> (k in left <==> !Stale(cfg, s.table[k].lastSeen, now))
        invariant dropped + |table| == |old(table)|
        decreases |todo|
      {
        var k :| k in todo;
        AbsTableAt(old(table), k);
        SeenAt(table[k]);
        if Elapsed(now, table[k].lastSeen) >= cfg.timeout {
          RestrictDrop(s, left, k);
          Sizes(table, table - {k}, k);
          RemoveEntry(k);
          left := left - {k};
          dropped := dropped + 1;
        }
        todo := todo - {k};
      }
      assert left == set k | k in s.table && !Stale(cfg, s.table[k].lastSeen, now);
    }
  }

  lemma SeenAt(dg: Datagram)
    ensures AbsEntry(dg).lastSeen == dg.lastSeen
  {
  }

  // Growing the buffer first changes nothing about what absorbing gives.
  lemma GrownAbsorbs(t: State, k: FragKey, e: Entry, off: nat, data: seq<byte>, more: bool)
    ensures var grown := e.(extent := Max(e.extent, off + |data|));
            && Absorb(grown, off, data, more) == Absorb(e, off, data, more)
            && t.table[k := grown][k := Absorb(e, off, data, more)] == t.table[k := Absorb(e, off, data, more)]
  {
  }

  lemma AbsExtent(dg: Datagram)
    ensures AbsEntry(dg).extent == |dg.buf|
  {
  }

  lemma AbsTableAt(table: map<FragKey, Datagram>, k: FragKey)
    requires k in table
    ensures AbsTable(table)[k] == AbsEntry(table[k])
  {
  }

  lemma ResizeMeaning(dg: Datagram, need: nat)
    requires DatagramOk(dg)
    ensures var grow := if |dg.buf| < need then need - |dg.buf| else 0;
            var grown := dg.(buf := Resize(dg.buf, need), accounted := dg.accounted + grow);
            && DatagramOk(grown)
            && AbsEntry(grown) == AbsEntry(dg).(extent := Max(|dg.buf|, need))
  {
    CoveredInside(dg);
    assert CoveredBytes(Resize(dg.buf, need), dg.covered) == CoveredBytes(dg.buf, dg.covered) by {
      hide Covers;
    }
  }

  lemma EmptyEntry()
    ensures DatagramOk(EMPTY) && AbsEntry(EMPTY) == Entry(map[], 0, None, 0)
  {
    assert CoveredBytes([], []) == map[];
  }

  lemma SeenOnly(dg: Datagram, now: uint64)
    ensures DatagramOk(dg) ==> DatagramOk(dg.(lastSeen := now))
    ensures AbsEntry(dg.(lastSeen := now)) == AbsEntry(dg).(lastSeen := now)
  {
  }

  lemma TouchMeaning(s: State, table: map<FragKey, Datagram>, k: FragKey, now: uint64)
    requires Linked(s) && s.table == AbsTable(table)
    requires k in table ==> DatagramOk(table[k])
    ensures var dg := (if k in table then table[k] else EMPTY).(lastSeen := now);
            && DatagramOk(dg)
            && Touched(s, k, now) == State(AbsTable(table[k := dg]), Without(s.order, k) + [k])
            && Linked(Touched(s, k, now))
            && Mem(Touched(s, k, now)) == Mem(s)
  {
    hide Weight, Names, Without, AbsTable, AbsEntry, DatagramOk;
    var dg := (if k in table then table[k] else EMPTY).(lastSeen := now);
    EmptyEntry();
    SeenOnly(if k in table then table[k] else EMPTY, now);
    if k in table {
      AbsTableAt(table, k);
    }
    AbsTablePut(table, k, dg);
    TouchNames(s.order, s.table, k, AbsEntry(dg), Extent);
  }
}
