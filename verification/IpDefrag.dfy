/**
 * What IP fragment reassembly means: a datagram is a partial map from offsets to the
 * first byte seen there. The engine, with its growing buffer, interval set, recency
 * list and memory account, does exactly this.
 */
module Defrag {
  import opened Machine
  import opened LruList
  import opened Packet

  const MAX_DATAGRAM_LEN: int := 65535

  datatype Config = Config(maxDatagrams: nat, maxMem: nat, timeout: uint32)

  datatype FragKey = FragKey(src: seq<byte>, dst: seq<byte>, id: uint32, proto: byte, isV6: bool)

  // bytes: the first byte seen at each offset. extent: bytes charged to the
  // memory pool. last: the end announced by the newest final fragment.
  datatype Entry = Entry(bytes: map<int, byte>, extent: nat, last: Option<nat>, lastSeen: uint64)

  // order: keys, least recently touched first.
  datatype State = State(table: map<FragKey, Entry>, order: seq<FragKey>)

  datatype Result = Result(complete: bool, evicted: bool, datagram: seq<byte>)

  function KeyOf(pp: ParsedPacket): FragKey {
    FragKey(pp.srcIp, pp.dstIp, pp.fragId, pp.l4Proto, pp.isIpv6)
  }

  // One entry takes the fragments that have both addresses, the identification, the protocol
  // and the version of IP in common, and no others.
  lemma SameKeyIff(p: ParsedPacket, q: ParsedPacket)
    ensures KeyOf(p) == KeyOf(q) <==>
              && p.srcIp == q.srcIp && p.dstIp == q.dstIp && p.fragId == q.fragId
              && p.l4Proto == q.l4Proto && p.isIpv6 == q.isIpv6
  {
  }

  // Whether a fragment is looked at, and the part of it that is kept.
  predicate Accepts(pp: ParsedPacket, frag: seq<byte>) {
    frag != [] && pp.fragOffset < MAX_DATAGRAM_LEN
  }

  function Clip(off: nat, frag: seq<byte>): seq<byte>
    requires off < MAX_DATAGRAM_LEN
  {
    if off + |frag| > MAX_DATAGRAM_LEN then frag[..MAX_DATAGRAM_LEN - off] else frag
  }

  function Span(off: int, n: nat): (s: set<int>)
    ensures forall x :: x in s <==> off <= x < off + n
  {
    if n == 0 then {} else {off + n - 1} + Span(off, n - 1)
  }

  // First seen wins: known bytes stay, unknown ones come from the fragment.
  ghost function FirstSeen(known: map<int, byte>, off: nat, frag: seq<byte>): (r: map<int, byte>)
    ensures forall x :: x in r <==> x in known || off <= x < off + |frag|
    ensures forall x :: x in r ==> r[x] == if x in known then known[x] else frag[x - off]
  {
    map x | x in known.Keys + Span(off, |frag|) :: if x in known then known[x] else frag[x - off]
  }

  function Extent(e: Entry): nat {
    e.extent
  }

  // All bytes charged to the pool.
  ghost function Mem(s: State): nat {
    Weight(s.order, s.table, Extent)
  }

  ghost function Drop(s: State, k: FragKey): State {
    State(s.table - {k}, Without(s.order, k))
  }

  // Evict from the least recently touched end while the table is full.
  ghost function EvictForCount(cfg: Config, s: State): State
    decreases |s.order|
  {
    if |s.table| >= cfg.maxDatagrams && s.order != [] then
      EvictForCount(cfg, State(s.table - {s.order[0]}, s.order[1..]))
    else s
  }

  // Evict while the pool cannot take grow more bytes, but never the entry being fed.
  ghost function EvictForMem(cfg: Config, s: State, k: FragKey, grow: nat): State
    decreases |s.order|
  {
    if Mem(s) + grow > cfg.maxMem && s.order != [] && s.order[0] != k then
      EvictForMem(cfg, State(s.table - {s.order[0]}, s.order[1..]), k, grow)
    else s
  }

  // A final fragment has been seen and the known bytes are exactly an initial
  // stretch that reaches its end.
  ghost predicate Complete(e: Entry) {
    && e.last.Some?
    && exists n: nat :: 0 < n && e.last.value <= n && IsInitial(e.bytes, n)
  }

  ghost predicate IsInitial(bytes: map<int, byte>, n: nat) {
    forall x :: x in bytes <==> 0 <= x < n
  }

  ghost function Assembled(e: Entry): (d: seq<byte>)
    requires Complete(e)
    ensures |d| == e.last.value
    ensures forall x :: 0 <= x < |d| ==> x in e.bytes && d[x] == e.bytes[x]
  {
    assert forall x :: 0 <= x < e.last.value ==> x in e.bytes;
    seq(e.last.value, x requires 0 <= x < e.last.value => e.bytes[x])
  }

  // The entry under its key once the fragment has been touched, before its bytes are taken.
  ghost function Touched(s: State, k: FragKey, now: uint64): State {
    var e := if k in s.table then s.table[k].(lastSeen := now) else Entry(map[], 0, None, now);
    State(s.table[k := e], Without(s.order, k) + [k])
  }

  ghost function Absorb(e: Entry, off: nat, frag: seq<byte>, more: bool): Entry {
    Entry(FirstSeen(e.bytes, off, frag), Max(e.extent, off + |frag|),
          if more then e.last else Some(off + |frag|), e.lastSeen)
  }

  ghost function Finish(s: State, k: FragKey, evicted: bool): (State, Result)
    requires k in s.table
  {
    if Complete(s.table[k]) then (Drop(s, k), Result(true, evicted, Assembled(s.table[k])))
    else (s, Result(false, evicted, []))
  }

  ghost function Grow(e: Entry, need: nat): nat {
    if e.extent < need then need - e.extent else 0
  }

  ghost function Room(cfg: Config, s: State, k: FragKey, grow: nat): State {
    if grow == 0 then s else EvictForMem(cfg, s, k, grow)
  }

  // The bytes of a fragment reach the entry just touched, if the pool can take them.
  ghost function Feed(cfg: Config, s: State, k: FragKey, off: nat, data: seq<byte>, more: bool, evicted: bool)
    : (State, Result)
    requires k in s.table
  {
    var grow := Grow(s.table[k], off + |data|);
    var t := Room(cfg, s, k, grow);
    if k !in t.table then (t, Result(false, evicted || t != s, []))
    else if 0 < grow && Mem(t) + grow > cfg.maxMem then
      (if t.table[k].extent == 0 then Drop(t, k) else t, Result(false, evicted || t != s, []))
    else
      Finish(State(t.table[k := Absorb(t.table[k], off, data, more)], t.order), k, evicted || t != s)
  }

  // What one call does.
  ghost function Add(cfg: Config, s: State, pp: ParsedPacket, frag: seq<byte>, now: uint64): (State, Result) {
    if !Accepts(pp, frag) then (s, Result(false, false, []))
    else
      var k := KeyOf(pp);
      var s1 := if k in s.table then s else EvictForCount(cfg, s);
      Feed(cfg, Touched(s1, k, now), k, pp.fragOffset, Clip(pp.fragOffset, frag), pp.fragMore, s1 != s)
  }

  predicate Stale(cfg: Config, lastSeen: uint64, now: uint64) {
    Elapsed(now, lastSeen) >= cfg.timeout
  }

  // What one expiry sweep does: the stale entries go, the others stay in order.
  ghost function Expire(cfg: Config, s: State, now: uint64): State {
    Restrict(s, set k | k in s.table && !Stale(cfg, s.table[k].lastSeen, now))
  }

  ghost function Restrict(s: State, ks: set<FragKey>): State {
    State(Only(s.table, ks), Keep(s.order, ks))
  }

  // Table and recency list name the same keys, each once.
  ghost predicate Linked(s: State) {
    Names(s.order, s.table)
  }

  // Both resource caps hold as well; one entry is always allowed.
  ghost predicate WithinCaps(cfg: Config, s: State) {
    && Linked(s)
    && Mem(s) <= cfg.maxMem
    && |s.table| <= Max(cfg.maxDatagrams, 1)
  }

  lemma WithinMem(cfg: Config, s: State)
    requires WithinCaps(cfg, s)
    ensures Mem(s) <= cfg.maxMem
  {
  }

  // Eviction takes the k oldest entries and nothing else.
  ghost predicate OldestGone(s: State, t: State, n: nat) {
    && n <= |s.order|
    && t.order == s.order[n..]
    && (forall k :: k in t.table <==> k in s.table && k in s.order[n..])
    && (forall k :: k in t.table ==> t.table[k] == s.table[k])
  }

  lemma NoneGone(s: State)
    requires Linked(s)
    ensures OldestGone(s, s, 0)
    ensures s.order == [] ==> s.table == map[]
  {
    assert s.order[0..] == s.order;
  }

  lemma OneMoreGone(s: State, t: State, m: nat)
    requires Linked(s) && s.order != []
    requires OldestGone(State(s.table - {s.order[0]}, s.order[1..]), t, m)
    ensures OldestGone(s, t, m + 1)
  {
    assert s.order[1..][m..] == s.order[m + 1..];
    assert forall j :: 0 < j < |s.order| ==> s.order[j] != s.order[0];
  }

  lemma SizeMonotone(s: State, t: State, n: nat)
    requires OldestGone(s, t, n)
    ensures |t.table| <= |s.table|
  {
    assert t.table.Keys <= s.table.Keys;
    SubsetSize(t.table.Keys, s.table.Keys);
    assert |t.table| == |t.table.Keys| && |s.table| == |s.table.Keys|;
  }

  lemma {:induction false} EvictForCountFacts(cfg: Config, s: State) returns (n: nat)
    requires Linked(s)
    ensures var t := EvictForCount(cfg, s);
            && Linked(t) && OldestGone(s, t, n) && Mem(t) <= Mem(s)
            && (|t.table| < cfg.maxDatagrams || t.table == map[])
    decreases |s.order|
  {
    hide Linked, Mem, OldestGone;
    if |s.table| >= cfg.maxDatagrams && s.order != [] {
      PopLinked(s);
      var u := State(s.table - {s.order[0]}, s.order[1..]);
      var m := EvictForCountFacts(cfg, u);
      OneMoreGone(s, EvictForCount(cfg, u), m);
      n := m + 1;
    } else {
      NoneGone(s);
      n := 0;
    }
  }

  lemma PopLinked(s: State)
    requires Linked(s) && s.order != []
    ensures var u := State(s.table - {s.order[0]}, s.order[1..]); Linked(u) && Mem(u) <= Mem(s)
  {
    hide Weight, Names;
    PopNames(s.order, s.table, Extent);
  }

  lemma {:induction false} EvictForMemFacts(cfg: Config, s: State, k: FragKey, grow: nat) returns (n: nat)
    requires Linked(s) && k in s.table
    ensures var t := EvictForMem(cfg, s, k, grow);
            && Linked(t) && OldestGone(s, t, n) && Mem(t) <= Mem(s) && |t.table| <= |s.table|
            && k in t.table && t.table[k] == s.table[k]
            && (Mem(t) + grow <= cfg.maxMem || t.order[0] == k)
    decreases |s.order|
  {
    hide Weight, Names;
    if Mem(s) + grow > cfg.maxMem && s.order != [] && s.order[0] != k {
      PopNames(s.order, s.table, Extent);
      var m := EvictForMemFacts(cfg, State(s.table - {s.order[0]}, s.order[1..]), k, grow);
      OneMoreGone(s, EvictForMem(cfg, s, k, grow), m);
      SizeMonotone(s, EvictForMem(cfg, s, k, grow), m + 1);
      n := m + 1;
    } else {
      NoneGone(s);
      n := 0;
    }
  }

  lemma RoomFacts(cfg: Config, s: State, k: FragKey, grow: nat)
    requires Linked(s) && k in s.table
    ensures var t := Room(cfg, s, k, grow);
            && Linked(t) && k in t.table && t.table[k] == s.table[k]
            && Mem(t) <= Mem(s) && |t.table| <= |s.table|
  {
    hide Weight, Names, OldestGone, EvictForMem;
    var n := EvictForMemFacts(cfg, s, k, grow);
  }

  // Feeding an entry keeps the links and the memory cap.
  lemma FeedKeeps(cfg: Config, s: State, k: FragKey, off: nat, data: seq<byte>, more: bool, evicted: bool)
    requires Linked(s) && k in s.table && Mem(s) <= cfg.maxMem
    ensures var t := Feed(cfg, s, k, off, data, more, evicted).0;
            Linked(t) && Mem(t) <= cfg.maxMem && |t.table| <= |s.table|
  {
    hide Weight, Names, Complete, FirstSeen, Room;
    var grow := Grow(s.table[k], off + |data|);
    var t := Room(cfg, s, k, grow);
    RoomFacts(cfg, s, k, grow);
    if 0 < grow && Mem(t) + grow > cfg.maxMem {
      DropNames(t.order, t.table, k, Extent);
    } else {
      var e := Absorb(t.table[k], off, data, more);
      PutNames(t.order, t.table, k, e, Extent);
      DropNames(t.order, t.table[k := e], k, Extent);
    }
  }

  // Both caps hold again after every call.
  lemma AddKeeps(cfg: Config, s: State, pp: ParsedPacket, frag: seq<byte>, now: uint64)
    requires WithinCaps(cfg, s)
    ensures WithinCaps(cfg, Add(cfg, s, pp, frag, now).0)
  {
    if Accepts(pp, frag) {
      var k := KeyOf(pp);
      var n := EvictForCountFacts(cfg, s);
      var s1 := if k in s.table then s else EvictForCount(cfg, s);
      var e := if k in s1.table then s1.table[k].(lastSeen := now) else Entry(map[], 0, None, now);
      TouchNames(s1.order, s1.table, k, e, Extent);
      FeedKeeps(cfg, Touched(s1, k, now), k, pp.fragOffset, Clip(pp.fragOffset, frag), pp.fragMore, s1 != s);
    }
  }

  lemma RestrictAll(s: State)
    requires Linked(s)
    ensures Restrict(s, s.table.Keys) == s
  {
    KeepAll(s.order, s.table.Keys);
  }

  lemma RestrictDrop(s: State, ks: set<FragKey>, k: FragKey)
    ensures Drop(Restrict(s, ks), k) == Restrict(s, ks - {k})
  {
    KeepWithout(s.order, ks, k);
  }

  lemma ExpireKeeps(cfg: Config, s: State, now: uint64)
    requires WithinCaps(cfg, s)
    ensures WithinCaps(cfg, Expire(cfg, s, now))
  {
    KeepNames(s.order, s.table, (set k | k in s.table && !Stale(cfg, s.table[k].lastSeen, now)), Extent);
  }
}
