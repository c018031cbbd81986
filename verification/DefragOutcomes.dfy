/** What one fragment does in terms of caps and clock: what is taken of it, who has to go, what is told. */
module DefragOutcomes {
  import opened Machine
  import opened LruList
  import opened Packet
  import opened Defrag
  import opened DefragRuns

  // A fragment brings the bytes that a datagram can have: those at offsets below 65535.
  lemma BringsIff(e: Event, k: FragKey, x: int)
    ensures Brings(e, k, x) <==>
              && e.Fragment? && KeyOf(e.pp) == k
              && e.pp.fragOffset <= x < e.pp.fragOffset + |e.frag| && x < 65535
    ensures Brings(e, k, x) ==> ByteOf(e, k, x) == e.frag[x - e.pp.fragOffset]
  {
  }

  // An empty fragment, or one that begins at 65535 or later, changes nothing.
  lemma IgnoredIff(cfg: Config, s: State, pp: ParsedPacket, frag: seq<byte>, now: uint64)
    ensures !Accepts(pp, frag) <==> frag == [] || 65535 <= pp.fragOffset
    ensures !Accepts(pp, frag) ==> Add(cfg, s, pp, frag, now) == (s, Result(false, false, []))
  {
  }

  // ---- who has to go

  // A new entry makes the oldest ones go, no more than it takes to have a place.
  lemma {:induction false} CountEvictsLeast(cfg: Config, s: State)
    requires Linked(s)
    ensures |EvictForCount(cfg, s).table| == if cfg.maxDatagrams == 0 then 0 else Min(|s.table|, cfg.maxDatagrams - 1)
    decreases |s.order|
  {
    hide Linked, Mem;
    NoOrder(s);
    if |s.table| >= cfg.maxDatagrams && s.order != [] {
      PopLinked(s);
      var u := State(s.table - {s.order[0]}, s.order[1..]);
      Sizes(s.table, u.table, s.order[0]);
      CountEvictsLeast(cfg, u);
    }
  }

  lemma NoOrder(s: State)
    requires Linked(s)
    ensures s.order == [] <==> s.table == map[]
    ensures s.order != [] ==> s.order[0] in s.table
  {
    if s.order != [] {
      assert s.order[0] in s.table;
    }
  }

  // Bytes make the oldest entries go, and the last of them had to: without it the pool
  // would be too small.
  lemma {:induction false} MemEvictsLeast(cfg: Config, s: State, k: FragKey, grow: nat)
    requires Linked(s) && k in s.table
    ensures
      var t := EvictForMem(cfg, s, k, grow);
      var n := |s.order| - |t.order|;
      && 0 <= n && (t == s <==> n == 0)
      && (0 < n ==> s.order[n - 1] in s.table && Mem(t) + s.table[s.order[n - 1]].extent + grow > cfg.maxMem)
    decreases |s.order|
  {
    hide Weight, Names, EvictForMem, Linked;
    EvictStep(cfg, s, k, grow);
    if Mem(s) + grow > cfg.maxMem && s.order != [] && s.order[0] != k {
      var u := State(s.table - {s.order[0]}, s.order[1..]);
      PopMem(s);
      MemEvictsLeast(cfg, u, k, grow);
      var n := |s.order| - |EvictForMem(cfg, u, k, grow).order|;
      if 1 < n {
        assert s.order[n - 1] == u.order[n - 2];
      }
    }
  }

  lemma EvictStep(cfg: Config, s: State, k: FragKey, grow: nat)
    ensures
      EvictForMem(cfg, s, k, grow) ==
        if Mem(s) + grow > cfg.maxMem && s.order != [] && s.order[0] != k then
          EvictForMem(cfg, State(s.table - {s.order[0]}, s.order[1..]), k, grow)
        else s
  {
    hide Weight;
  }

  lemma PopMem(s: State)
    requires Linked(s) && s.order != []
    ensures
      var u := State(s.table - {s.order[0]}, s.order[1..]);
      Linked(u) && s.order[0] in s.table && Mem(s) == s.table[s.order[0]].extent + Mem(u)
  {
    hide Weight, Names;
    PopNames(s.order, s.table, Extent);
  }

  // ---- what is told

  // The entry after a fragment of k that finds room, and the one that does not.
  lemma FedIff(cfg: Config, s: State, e: Event, k: FragKey)
    requires Linked(s) && Feeds(e, k)
    ensures
      var (t, r) := Step(cfg, s, e);
      var (was, need) := (Before(s, k, e.now), e.pp.fragOffset + |Data(e)|);
      if need <= was.extent || need <= cfg.maxMem then Outcome(Fed(s, e, k), t, r, k)
      else !r.complete && (if was.extent == 0 then k !in t.table else k in t.table && t.table[k] == was)
  {
    hide Weight, Names, Complete, FirstSeen, OldestGone, EvictForCount, Feed, Outcome;
    var n := EvictForCountFacts(cfg, s);
    var s1 := if k in s.table then s else EvictForCount(cfg, s);
    if k !in s.table {
      SameAfterGone(s, s1, n, k);
    }
    FedTouched(cfg, s1, e, k, s1 != s);
  }

  lemma FedTouched(cfg: Config, s1: State, e: Event, k: FragKey, ev: bool)
    requires Linked(s1) && Feeds(e, k)
    ensures
      var (t, r) := Feed(cfg, Touched(s1, k, e.now), k, e.pp.fragOffset, Data(e), e.pp.fragMore, ev);
      var (was, need) := (Before(s1, k, e.now), e.pp.fragOffset + |Data(e)|);
      if need <= was.extent || need <= cfg.maxMem then Outcome(Fed(s1, e, k), t, r, k)
      else !r.complete && (if was.extent == 0 then k !in t.table else k in t.table && t.table[k] == was)
  {
    hide Weight, Names, Complete, FirstSeen, Room, Without;
    var s2 := Touched(s1, k, e.now);
    var need := e.pp.fragOffset + |Data(e)|;
    TouchNames(s1.order, s1.table, k, Before(s1, k, e.now), Extent);
    RoomFacts(cfg, s2, k, Grow(s2.table[k], need));
    if s2.table[k].extent < need {
      RoomIff(cfg, s2, k, need);
    }
  }

  // Eviction makes room for the newest entry exactly when it fits the pool by itself.
  lemma RoomIff(cfg: Config, s: State, k: FragKey, need: nat)
    requires Linked(s) && k in s.table && s.order[|s.order| - 1] == k && s.table[k].extent < need
    ensures Mem(Room(cfg, s, k, Grow(s.table[k], need))) + Grow(s.table[k], need) <= cfg.maxMem <==> need <= cfg.maxMem
  {
    hide EvictForMem, Without, Weight;
    var grow := Grow(s.table[k], need);
    var n := EvictForMemFacts(cfg, s, k, grow);
    var t := EvictForMem(cfg, s, k, grow);
    OwnWeight(t, k);
    if t.order[0] == k {
      assert t.order[0] == s.order[n] == k;
      assert n == |s.order| - 1;
      assert t.order == [k];
      OnlyWeight(t, k);
    }
  }

  lemma OnlyWeight(t: State, k: FragKey)
    requires t.order == [k] && k in t.table
    ensures Mem(t) == t.table[k].extent
  {
    var w := WeightIn(t.table, Extent);
    assert [k][1..] == [] && w(k) == t.table[k].extent;
    assert Total([k], w) == w(k) + Total([], w);
  }

  lemma OwnWeight(t: State, k: FragKey)
    requires Linked(t) && k in t.table
    ensures t.table[k].extent <= Mem(t)
  {
    hide Weight, Names;
    DropNames(t.order, t.table, k, Extent);
  }

  // Some entry that s had besides that of k is gone from t.
  ghost predicate OthersGone(s: State, t: State, k: FragKey) {
    exists j :: j in s.table && j != k && j !in t.table
  }

  lemma GoneIff(s: State, t: State, n: nat, k: FragKey)
    requires Linked(s) && OldestGone(s, t, n) && (k in s.table ==> k in t.table)
    ensures OthersGone(s, t, k) <==> t != s
  {
    if n == 0 {
      assert s.order[0..] == s.order;
      assert t.table == s.table;
    } else {
      var j := s.order[0];
      assert j in s.table;
      assert j !in s.order[n..];
    }
  }

  // After room has been made only the entry of k can still go.
  lemma FeedEvicts(cfg: Config, s: State, k: FragKey, off: nat, data: seq<byte>, more: bool, ev: bool) returns (m: nat)
    requires Linked(s) && k in s.table
    ensures
      var ((t, r), u) := (Feed(cfg, s, k, off, data, more, ev), Room(cfg, s, k, Grow(s.table[k], off + |data|)));
      && OldestGone(s, u, m) && k in u.table && t.table.Keys + {k} == u.table.Keys && (r.evicted <==> ev || u != s)
  {
    hide Weight, Names, Complete, FirstSeen, OldestGone, EvictForMem, Without;
    NoneGone(s);
    m := EvictForMemFacts(cfg, s, k, Grow(s.table[k], off + |data|));
    if Grow(s.table[k], off + |data|) == 0 {
      m := 0;
    }
  }

  // An eviction is reported exactly when an entry of another datagram had to go.
  lemma EvictedIff(cfg: Config, s: State, e: Event, k: FragKey)
    requires Linked(s) && Feeds(e, k)
    ensures var (t, r) := Step(cfg, s, e); r.evicted <==> OthersGone(s, t, k)
  {
    hide Linked, Touched, Step, Feeds, OldestGone, EvictForCount, Feed, Room, OthersGone, Mem;
    var n := EvictForCountFacts(cfg, s);
    var s1 := if k in s.table then s else EvictForCount(cfg, s);
    var s2 := Touched(s1, k, e.now);
    TouchedKeys(s1, k, e.now);
    StepIsFeed(cfg, s, e, k);
    var off, data := e.pp.fragOffset, Data(e);
    var m := FeedEvicts(cfg, s2, k, off, data, e.pp.fragMore, s1 != s);
    var u := Room(cfg, s2, k, Grow(s2.table[k], off + |data|));
    GoneIff(s2, u, m, k);
    if k !in s.table {
      GoneIff(s, s1, n, k);
    }
    GoneThrough(s, s1, s2, u, Step(cfg, s, e).0, n, m, k);
    if s1 == s {
      SameKeys(s, s2, k);
    }
  }

  lemma TouchedKeys(s: State, k: FragKey, now: uint64)
    requires Linked(s)
    ensures var t := Touched(s, k, now); Linked(t) && t.table.Keys == s.table.Keys + {k} && k in t.table
  {
    hide Names, Without;
    TouchNames(s.order, s.table, k, Before(s, k, now), Extent);
  }

  lemma StepIsFeed(cfg: Config, s: State, e: Event, k: FragKey)
    requires Feeds(e, k)
    ensures e.Fragment? && Accepts(e.pp, e.frag)
    ensures
      var s1 := if k in s.table then s else EvictForCount(cfg, s);
      Step(cfg, s, e) ==
        Feed(cfg, Touched(s1, k, e.now), k, e.pp.fragOffset, Data(e), e.pp.fragMore, s1 != s)
  {
    hide Touched, Feed;
  }

  lemma SameKeys(s: State, t: State, k: FragKey)
    requires t.table.Keys == s.table.Keys + {k}
    ensures !OthersGone(s, t, k)
  {
  }

  // What is gone after both evictions was gone after one of them.
  lemma GoneThrough(s: State, s1: State, s2: State, s3: State, t: State, n: nat, m: nat, k: FragKey)
    requires s1 == s || OldestGone(s, s1, n)
    requires s2.table.Keys == s1.table.Keys + {k} && OldestGone(s2, s3, m) && k in s3.table
    ensures t.table.Keys + {k} == s3.table.Keys ==>
              (OthersGone(s, t, k) <==> OthersGone(s2, s3, k) || (s1 != s && OthersGone(s, s1, k)))
  {
    if t.table.Keys + {k} == s3.table.Keys && OthersGone(s, t, k) {
      var j :| j in s.table && j != k && j !in t.table;
      assert j !in s3.table;
      assert j in s1.table ==> j in s2.table;
    }
    if t.table.Keys + {k} == s3.table.Keys && OthersGone(s2, s3, k) {
      var j :| j in s2.table && j != k && j !in s3.table;
      assert j in s1.table && j in s.table;
      assert j !in t.table;
    }
    if t.table.Keys + {k} == s3.table.Keys && s1 != s && OthersGone(s, s1, k) {
      var j :| j in s.table && j != k && j !in s1.table;
      assert j !in s2.table && j !in s3.table;
      assert j !in t.table;
    }
  }

  // ---- what a sweep leaves

  // Exactly the entries touched less than the timeout ago stay, and they stay as they are.
  lemma SweptIff(cfg: Config, s: State, now: uint64, k: FragKey)
    ensures
      var t := Expire(cfg, s, now);
      && (k in t.table <==> k in s.table && (now - s.table[k].lastSeen) % TWO_64 < cfg.timeout)
      && (k in t.table ==> t.table[k] == s.table[k])
  {
  }
}
