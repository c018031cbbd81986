/** What keeps a datagram in reassembly from being evicted, told from the traffic alone. */
module DefragTraffic {
  import opened Machine
  import opened LruList
  import opened Packet
  import opened Defrag
  import opened DefragRuns

  // Every fragment looked at belongs to one of these datagrams.
  predicate Among(es: seq<Event>, keys: set<FragKey>) {
    forall i :: 0 <= i < |es| ==> AmongOne(es[i], keys)
  }

  predicate AmongOne(e: Event, keys: set<FragKey>) {
    e.Fragment? && Accepts(e.pp, e.frag) ==> KeyOf(e.pp) in keys
  }

  // There is room for all of them at their full size.
  predicate Spacious(cfg: Config, keys: set<FragKey>) {
    |keys| <= cfg.maxDatagrams && MAX_DATAGRAM_LEN * |keys| <= cfg.maxMem
  }

  // When the newest fragment of k came.
  function LastFed(es: seq<Event>, k: FragKey): Option<uint64> {
    if es == [] then None
    else
      var e := es[|es| - 1];
      if Feeds(e, k) then Some(e.now) else LastFed(es[..|es| - 1], k)
  }

  // No sweep comes a timeout after the newest fragment of k.
  ghost predicate Timely(cfg: Config, es: seq<Event>, k: FragKey) {
    forall i :: 0 <= i < |es| && es[i].Sweep? && LastFed(es[..i], k).Some? ==>
      Elapsed(es[i].now, LastFed(es[..i], k).value) < cfg.timeout
  }

  ghost predicate Bounded(s: State, keys: set<FragKey>) {
    && Linked(s) && s.table.Keys <= keys
    && forall k :: k in s.table ==> s.table[k].extent <= MAX_DATAGRAM_LEN
  }

  lemma {:induction false} MemBound(s: State, keys: set<FragKey>)
    requires Bounded(s, keys)
    ensures Mem(s) <= MAX_DATAGRAM_LEN * |s.table|
    decreases |s.order|
  {
    hide Names, Weight;
    if s.order == [] {
      NoneGone(s);
      assert Mem(s) == 0 by {
        NoWeight(s);
      }
    } else {
      PopNames(s.order, s.table, Extent);
      MemBound(State(s.table - {s.order[0]}, s.order[1..]), keys);
    }
  }

  lemma NoWeight(s: State)
    requires s.order == []
    ensures Mem(s) == 0
  {
  }

  lemma SizeBound(s: State, keys: set<FragKey>)
    requires s.table.Keys <= keys
    ensures |s.table| <= |keys|
    ensures forall k :: k in keys && k !in s.table ==> |s.table| < |keys|
  {
    assert |s.table| == |s.table.Keys|;
    SubsetSize(s.table.Keys, keys);
    forall k | k in keys && k !in s.table ensures |s.table| < |keys| {
      SubsetSize(s.table.Keys, keys - {k});
    }
  }

  // With room for all datagrams, growing one evicts none.
  lemma RoomStays(cfg: Config, s: State, k: FragKey, need: nat, keys: set<FragKey>)
    requires Bounded(s, keys) && Spacious(cfg, keys) && k in s.table && need <= MAX_DATAGRAM_LEN
    ensures Room(cfg, s, k, Grow(s.table[k], need)) == s
    ensures Mem(s) + Grow(s.table[k], need) <= cfg.maxMem
  {
    hide Names, Weight, EvictForMem;
    var e := s.table[k].(extent := Max(s.table[k].extent, need));
    PutNames(s.order, s.table, k, e, Extent);
    var t := State(s.table[k := e], s.order);
    assert t.table.Keys == s.table.Keys;
    MemBound(t, keys);
    SizeBound(t, keys);
    assert MAX_DATAGRAM_LEN * |t.table| <= MAX_DATAGRAM_LEN * |keys|;
    assert Mem(s) + Grow(s.table[k], need) == Mem(t);
    NoneForMem(cfg, s, k, Grow(s.table[k], need));
  }

  lemma NoneForMem(cfg: Config, s: State, k: FragKey, grow: nat)
    requires Mem(s) + grow <= cfg.maxMem
    ensures EvictForMem(cfg, s, k, grow) == s
  {
  }

  // Only the entry of j changes, and what is in it then was last seen now.
  ghost predicate OnlyAt(s: State, t: State, j: FragKey, now: uint64) {
    && (forall k :: k in s.table && k != j ==> k in t.table && t.table[k] == s.table[k])
    && (forall k :: k in t.table && k != j ==> k in s.table)
    && (j in t.table ==> t.table[j].lastSeen == now)
  }

  lemma TouchBounded(s: State, j: FragKey, now: uint64, keys: set<FragKey>)
    requires Bounded(s, keys) && j in keys
    ensures var t := Touched(s, j, now); Bounded(t, keys) && OnlyAt(s, t, j, now) && j in t.table
  {
    hide Names, Weight, Without;
    TouchNames(s.order, s.table, j, Before(s, j, now), Extent);
  }

  lemma FeedKeepsOthers(cfg: Config, s: State, j: FragKey, off: nat, data: seq<byte>, more: bool, ev: bool,
                        now: uint64, keys: set<FragKey>)
    requires Bounded(s, keys) && Spacious(cfg, keys) && j in s.table && s.table[j].lastSeen == now
    requires off + |data| <= MAX_DATAGRAM_LEN
    ensures var t := Feed(cfg, s, j, off, data, more, ev).0; Bounded(t, keys) && OnlyAt(s, t, j, now)
  {
    hide Names, Weight, Without, Complete, FirstSeen, Room, Spacious;
    RoomStays(cfg, s, j, off + |data|, keys);
    var e := Absorb(s.table[j], off, data, more);
    PutNames(s.order, s.table, j, e, Extent);
    DropNames(s.order, s.table[j := e], j, Extent);
  }

  // A fragment leaves every other datagram as it is.
  lemma AddKeepsOthers(cfg: Config, s: State, pp: ParsedPacket, frag: seq<byte>, now: uint64, keys: set<FragKey>)
    requires Bounded(s, keys) && Spacious(cfg, keys) && Accepts(pp, frag) && KeyOf(pp) in keys
    ensures var t := Add(cfg, s, pp, frag, now).0; Bounded(t, keys) && OnlyAt(s, t, KeyOf(pp), now)
  {
    hide Names, Weight, Without, Feed, Touched;
    var j := KeyOf(pp);
    SizeBound(s, keys);
    assert j !in s.table ==> EvictForCount(cfg, s) == s;
    TouchBounded(s, j, now, keys);
    var data := Clip(pp.fragOffset, frag);
    FeedKeepsOthers(cfg, Touched(s, j, now), j, pp.fragOffset, data, pp.fragMore, false, now, keys);
  }

  lemma SweepKeeps(cfg: Config, s: State, now: uint64, keys: set<FragKey>)
    requires Bounded(s, keys)
    ensures
      var t := Expire(cfg, s, now);
      && Bounded(t, keys)
      && (forall k :: k in t.table ==> k in s.table && t.table[k] == s.table[k])
      && (forall k :: k in s.table && Elapsed(now, s.table[k].lastSeen) < cfg.timeout ==> k in t.table)
  {
    hide Names, Weight, Keep;
    KeepNames(s.order, s.table, (set k | k in s.table && !Stale(cfg, s.table[k].lastSeen, now)), Extent);
  }

  // With room for all datagrams under way and sweeps that are not late, none is evicted.
  lemma {:induction false} SafeFromEviction(cfg: Config, s: State, es: seq<Event>, k: FragKey, keys: set<FragKey>)
    requires Bounded(s, keys) && k !in s.table
    requires Spacious(cfg, keys) && Among(es, keys) && Timely(cfg, es, k)
    ensures NeverEvicted(cfg, s, es, k)
    ensures
      var t := After(cfg, s, es);
      Bounded(t, keys) && (k in t.table ==> LastFed(es, k) == Some(t.table[k].lastSeen))
  {
    hide Bounded, Spacious, Step, Feeds, AmongOne;
    if es != [] {
      var p, e := es[..|es| - 1], es[|es| - 1];
      assert forall i :: 0 <= i < |p| ==> p[..i] == es[..i] && p[i] == es[i];
      SafeFromEviction(cfg, s, p, k, keys);
      StepSafe(cfg, After(cfg, s, p), e, k, keys);
    }
  }

  lemma StepSafe(cfg: Config, s: State, e: Event, k: FragKey, keys: set<FragKey>)
    requires Bounded(s, keys) && Spacious(cfg, keys) && AmongOne(e, keys)
    requires e.Sweep? && k in s.table ==> Elapsed(e.now, s.table[k].lastSeen) < cfg.timeout
    ensures
      var t := Step(cfg, s, e).0;
      && Bounded(t, keys)
      && (if Feeds(e, k) then k in t.table ==> t.table[k].lastSeen == e.now
          else (k in s.table <==> k in t.table) && (k in s.table ==> t.table[k].lastSeen == s.table[k].lastSeen))
  {
    hide Bounded, Spacious, Add, Expire, Accepts;
    match e {
      case Fragment(pp, frag, now) =>
        if Accepts(pp, frag) {
          AddKeepsOthers(cfg, s, pp, frag, now, keys);
        } else {
          NotAccepted(cfg, s, pp, frag, now);
        }
      case Sweep(now) => SweepKeeps(cfg, s, now, keys);
    }
  }

  lemma NotAccepted(cfg: Config, s: State, pp: ParsedPacket, frag: seq<byte>, now: uint64)
    requires !Accepts(pp, frag)
    ensures Add(cfg, s, pp, frag, now).0 == s
  {
  }

  lemma NothingYet(keys: set<FragKey>)
    ensures Bounded(State(map[], []), keys)
  {
  }

  // Any fragmentation of d among other datagrams that fit the caps with it, no sweep being
  // late: the call that brings the last missing byte delivers exactly d.
  lemma ReassemblesAmid(cfg: Config, es: seq<Event>, k: FragKey, d: seq<byte>, keys: set<FragKey>)
    requires AllHonest(es, k, d) && Spacious(cfg, keys) && k in keys && Among(es, keys) && Timely(cfg, es, k)
    requires (forall i :: 0 <= i < |es| ==> !Full(es[..i], k, d)) && Full(es, k, d)
    ensures es != []
    ensures var r := ResultAt(cfg, State(map[], []), es, |es| - 1); r.complete && r.datagram == d
  {
    hide NeverEvicted, Full, AllHonest, Known, Spacious, Bounded, ResultAt;
    var s := State(map[], []);
    NothingYet(keys);
    SafeFromEviction(cfg, s, es, k, keys);
    ReachableWithinCaps(cfg, []);
    OneFits(cfg, k, keys);
    Reassembles(cfg, s, es, k, d);
  }

  lemma OneFits(cfg: Config, k: FragKey, keys: set<FragKey>)
    requires Spacious(cfg, keys) && k in keys
    ensures MAX_DATAGRAM_LEN <= cfg.maxMem
  {
    SubsetSize({k}, keys);
  }
}
