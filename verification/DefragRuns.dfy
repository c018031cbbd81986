/**
 * Whole runs of the fragment engine: first-seen-wins for any input, and
 * completion to the original datagram for any honest fragmentation of it,
 * in any order, with any duplication and overlap, among any other traffic.
 */
module DefragRuns {
  import opened Machine
  import opened LruList
  import opened Packet
  import opened Defrag

  datatype Event =
    | Fragment(pp: ParsedPacket, frag: seq<byte>, now: uint64)
    | Sweep(now: uint64)

  ghost function Step(cfg: Config, s: State, e: Event): (State, Result) {
    match e
    case Fragment(pp, frag, now) => Add(cfg, s, pp, frag, now)
    case Sweep(now) => (Expire(cfg, s, now), Result(false, false, []))
  }

  ghost function After(cfg: Config, s: State, es: seq<Event>): State {
    if es == [] then s
    else Step(cfg, After(cfg, s, es[..|es| - 1]), es[|es| - 1]).0
  }

  // The result of the i-th call of a run.
  ghost function ResultAt(cfg: Config, s: State, es: seq<Event>, i: nat): Result
    requires i < |es|
  {
    Step(cfg, After(cfg, s, es[..i]), es[i]).1
  }

  predicate Feeds(e: Event, k: FragKey) {
    e.Fragment? && KeyOf(e.pp) == k && Accepts(e.pp, e.frag)
  }

  function Data(e: Event): seq<byte>
    requires e.Fragment? && Accepts(e.pp, e.frag)
  {
    Clip(e.pp.fragOffset, e.frag)
  }

  // Event e brings byte b for offset x of datagram k.
  predicate Brings(e: Event, k: FragKey, x: int) {
    Feeds(e, k) && e.pp.fragOffset <= x < e.pp.fragOffset + |Data(e)|
  }

  function ByteOf(e: Event, k: FragKey, x: int): byte
    requires Brings(e, k, x)
  {
    Data(e)[x - e.pp.fragOffset]
  }

  // ---- one step ----

  // With room for one whole datagram in the pool, a fragment is never refused.
  lemma RoomForOne(cfg: Config, s: State, k: FragKey, need: nat)
    requires Linked(s) && k in s.table && s.order[|s.order| - 1] == k
    requires need <= MAX_DATAGRAM_LEN <= cfg.maxMem
    ensures var grow := Grow(s.table[k], need); 0 < grow ==> Mem(Room(cfg, s, k, grow)) + grow <= cfg.maxMem
  {
    hide EvictForMem, Without;
    var grow := Grow(s.table[k], need);
    var n := EvictForMemFacts(cfg, s, k, grow);
    var t := EvictForMem(cfg, s, k, grow);
    if t.order[0] == k {
      assert t.order[0] == s.order[n] == k;
      assert n == |s.order| - 1;
      assert t.order == [k];
      assert Mem(t) == t.table[k].extent + Total(t.order[1..], WeightIn(t.table, Extent));
    }
  }

  ghost function Before(s: State, k: FragKey, now: uint64): Entry {
    if k in s.table then s.table[k].(lastSeen := now) else Entry(map[], 0, None, now)
  }

  ghost function Fed(s: State, e: Event, k: FragKey): Entry
    requires Feeds(e, k)
  {
    Absorb(Before(s, k, e.now), e.pp.fragOffset, Data(e), e.pp.fragMore)
  }

  // Feeding after the touch, whatever was evicted before it.
  lemma FeedTouched(cfg: Config, s1: State, e: Event, k: FragKey, ev: bool)
    requires Linked(s1) && MAX_DATAGRAM_LEN <= cfg.maxMem && Feeds(e, k)
    ensures var (t, r) := Feed(cfg, Touched(s1, k, e.now), k, e.pp.fragOffset, Data(e), e.pp.fragMore, ev);
            Outcome(Fed(s1, e, k), t, r, k)
  {
    hide Weight, Names, Complete, FirstSeen, Room, Without;
    var s2 := Touched(s1, k, e.now);
    TouchNames(s1.order, s1.table, k, Before(s1, k, e.now), Extent);
    RoomFacts(cfg, s2, k, Grow(s2.table[k], e.pp.fragOffset + |Data(e)|));
    RoomForOne(cfg, s2, k, e.pp.fragOffset + |Data(e)|);
  }

  // The entry is handed over as soon as it is complete, and kept until then.
  ghost predicate Outcome(e: Entry, t: State, r: Result, k: FragKey) {
    if Complete(e) then k !in t.table && r.complete && r.datagram == Assembled(e)
    else k in t.table && t.table[k] == e && !r.complete
  }

  lemma FeedStep(cfg: Config, s: State, e: Event, k: FragKey)
    requires Linked(s) && MAX_DATAGRAM_LEN <= cfg.maxMem && Feeds(e, k)
    ensures var (t, r) := Step(cfg, s, e); Outcome(Fed(s, e, k), t, r, k)
  {
    hide Weight, Names, Complete, FirstSeen, OldestGone, EvictForCount, Feed, Outcome;
    var n := EvictForCountFacts(cfg, s);
    var s1 := if k in s.table then s else EvictForCount(cfg, s);
    if k !in s.table {
      SameAfterGone(s, s1, n, k);
    }
    FeedTouched(cfg, s1, e, k, s1 != s);
  }

  // An entry that t has was in s, unchanged.
  ghost predicate Same(s: State, t: State, k: FragKey) {
    k in t.table ==> k in s.table && t.table[k] == s.table[k]
  }

  lemma SameAfterGone(s: State, t: State, n: nat, k: FragKey)
    requires OldestGone(s, t, n)
    ensures Same(s, t, k)
  {
  }

  lemma FeedOther(cfg: Config, s: State, j: FragKey, k: FragKey, off: nat, data: seq<byte>, more: bool, ev: bool)
    requires Linked(s) && j in s.table && j != k
    ensures Same(s, Feed(cfg, s, j, off, data, more, ev).0, k)
  {
    hide Weight, EvictForMem, Complete, FirstSeen, Names, OldestGone;
    var grow := Grow(s.table[j], off + |data|);
    var m := EvictForMemFacts(cfg, s, j, grow);
    SameAfterGone(s, EvictForMem(cfg, s, j, grow), m, k);
  }

  lemma AddOther(cfg: Config, s: State, pp: ParsedPacket, frag: seq<byte>, now: uint64, k: FragKey)
    requires Linked(s) && KeyOf(pp) != k
    ensures Same(s, Add(cfg, s, pp, frag, now).0, k)
  {
    hide Weight, Names, EvictForCount, OldestGone, Feed, Without, Clip;
    if Accepts(pp, frag) {
      var j := KeyOf(pp);
      var n := EvictForCountFacts(cfg, s);
      SameAfterGone(s, EvictForCount(cfg, s), n, k);
      var s1 := if j in s.table then s else EvictForCount(cfg, s);
      TouchNames(s1.order, s1.table, j, Before(s1, j, now), Extent);
      FeedOther(cfg, Touched(s1, j, now), j, k, pp.fragOffset, Clip(pp.fragOffset, frag), pp.fragMore, s1 != s);
    }
  }

  // A step about something else leaves an entry alone, or removes it.
  lemma OtherStep(cfg: Config, s: State, e: Event, k: FragKey)
    requires Linked(s) && !Feeds(e, k)
    ensures Same(s, Step(cfg, s, e).0, k)
  {
    if e.Fragment? && KeyOf(e.pp) != k {
      hide Add;
      AddOther(cfg, s, e.pp, e.frag, e.now, k);
    }
  }

  lemma StepKeeps(cfg: Config, s: State, e: Event)
    requires WithinCaps(cfg, s)
    ensures WithinCaps(cfg, Step(cfg, s, e).0)
  {
    match e
    case Fragment(pp, frag, now) => AddKeeps(cfg, s, pp, frag, now);
    case Sweep(now) => ExpireKeeps(cfg, s, now);
  }

  // Both caps and the agreement of table and recency list hold in every reachable state.
  lemma {:induction false} ReachableWithinCaps(cfg: Config, es: seq<Event>)
    ensures WithinCaps(cfg, After(cfg, State(map[], []), es))
  {
    if es != [] {
      ReachableWithinCaps(cfg, es[..|es| - 1]);
      StepKeeps(cfg, After(cfg, State(map[], []), es[..|es| - 1]), es[|es| - 1]);
    }
  }

  // ---- runs ----

  // First-seen bytes of datagram k over a run.
  ghost function Known(es: seq<Event>, k: FragKey): map<int, byte> {
    if es == [] then map[]
    else
      var before, e := Known(es[..|es| - 1], k), es[|es| - 1];
      if Feeds(e, k) then FirstSeen(before, e.pp.fragOffset, Data(e)) else before
  }

  // Where the newest final fragment of k ends.
  ghost function LastEnd(es: seq<Event>, k: FragKey): Option<nat> {
    if es == [] then None
    else
      var e := es[|es| - 1];
      if Feeds(e, k) && !e.pp.fragMore then Some(e.pp.fragOffset + |Data(e)|) else LastEnd(es[..|es| - 1], k)
  }

  // No event removes the entry of k behind its back.
  ghost predicate NeverEvicted(cfg: Config, s: State, es: seq<Event>, k: FragKey) {
    forall i :: 0 <= i < |es| && !Feeds(es[i], k) && k in After(cfg, s, es[..i]).table
      ==> k in Step(cfg, After(cfg, s, es[..i]), es[i]).0.table
  }

  ghost predicate NeverComplete(cfg: Config, s: State, es: seq<Event>, k: FragKey) {
    forall i :: 0 <= i < |es| && Feeds(es[i], k) ==> !ResultAt(cfg, s, es, i).complete
  }

  lemma PrefixRun(cfg: Config, s: State, es: seq<Event>, k: FragKey)
    requires es != []
    ensures NeverEvicted(cfg, s, es, k) ==> NeverEvicted(cfg, s, es[..|es| - 1], k)
    ensures NeverComplete(cfg, s, es, k) ==> NeverComplete(cfg, s, es[..|es| - 1], k)
  {
    var p := es[..|es| - 1];
    forall i | 0 <= i < |p| ensures p[..i] == es[..i] && p[i] == es[i] {
    }
  }

  lemma {:induction false} StaysLinked(cfg: Config, s: State, es: seq<Event>)
    requires WithinCaps(cfg, s)
    ensures WithinCaps(cfg, After(cfg, s, es)) && Linked(After(cfg, s, es))
  {
    if es != [] {
      StaysLinked(cfg, s, es[..|es| - 1]);
      StepKeeps(cfg, After(cfg, s, es[..|es| - 1]), es[|es| - 1]);
    }
  }

  ghost predicate Holds(t: State, k: FragKey, bytes: map<int, byte>, last: Option<nat>) {
    if k in t.table then t.table[k].bytes == bytes && t.table[k].last == last
    else bytes == map[] && last == None
  }

  // While k is neither evicted nor complete, its entry is the first-seen map of
  // all fragments of k so far, conflicting or not.
  lemma {:induction false} EntryIsFirstSeen(cfg: Config, s: State, es: seq<Event>, k: FragKey)
    requires WithinCaps(cfg, s) && MAX_DATAGRAM_LEN <= cfg.maxMem && k !in s.table
    requires NeverEvicted(cfg, s, es, k) && NeverComplete(cfg, s, es, k)
    ensures Holds(After(cfg, s, es), k, Known(es, k), LastEnd(es, k))
  {
    hide Names, Weight, Complete, FirstSeen, Clip, Add, WithinCaps;
    if es != [] {
      var p, e := es[..|es| - 1], es[|es| - 1];
      PrefixRun(cfg, s, es, k);
      EntryIsFirstSeen(cfg, s, p, k);
      StaysLinked(cfg, s, p);
      if Feeds(e, k) {
        FeedStep(cfg, After(cfg, s, p), e, k);
        assert !ResultAt(cfg, s, es, |es| - 1).complete;
      } else {
        OtherStep(cfg, After(cfg, s, p), e, k);
      }
    }
  }

  // The first-seen map is what its name says.
  lemma {:induction false} KnownIsFirst(es: seq<Event>, k: FragKey, x: int)
    ensures x in Known(es, k) <==> exists i :: 0 <= i < |es| && Brings(es[i], k, x)
    ensures forall i :: 0 <= i < |es| && Brings(es[i], k, x) && (forall j :: 0 <= j < i ==> !Brings(es[j], k, x))
              ==> x in Known(es, k) && Known(es, k)[x] == ByteOf(es[i], k, x)
  {
    if es != [] {
      var p, e := es[..|es| - 1], es[|es| - 1];
      KnownIsFirst(p, k, x);
      assert forall i :: 0 <= i < |p| ==> p[i] == es[i];
      assert x in Known(es, k) <==> x in Known(p, k) || Brings(e, k, x);
      if x in Known(es, k) {
        if x in Known(p, k) {
          var i :| 0 <= i < |p| && Brings(p[i], k, x);
          assert Brings(es[i], k, x);
        } else {
          assert Brings(es[|es| - 1], k, x);
        }
      }
    }
  }

  // ---- honest fragments of one datagram ----

  predicate Honest(e: Event, k: FragKey, d: seq<byte>) {
    Feeds(e, k) ==>
      && e.pp.fragOffset + |e.frag| <= |d|
      && e.frag == d[e.pp.fragOffset..e.pp.fragOffset + |e.frag|]
      && e.pp.fragMore == (e.pp.fragOffset + |e.frag| < |d|)
  }

  ghost predicate AllHonest(es: seq<Event>, k: FragKey, d: seq<byte>) {
    && 0 < |d| <= MAX_DATAGRAM_LEN
    && forall i :: 0 <= i < |es| ==> Honest(es[i], k, d)
  }

  ghost predicate Full(es: seq<Event>, k: FragKey, d: seq<byte>) {
    forall x :: 0 <= x < |d| ==> x in Known(es, k)
  }

  lemma {:induction false} HonestKnown(es: seq<Event>, k: FragKey, d: seq<byte>)
    requires AllHonest(es, k, d)
    ensures forall x :: x in Known(es, k) ==> 0 <= x < |d| && Known(es, k)[x] == d[x]
    ensures LastEnd(es, k) == if |d| - 1 in Known(es, k) then Some(|d|) else None
  {
    if es != [] {
      var p, e := es[..|es| - 1], es[|es| - 1];
      HonestKnown(p, k, d);
      if Feeds(e, k) {
        assert Honest(e, k, d) && Data(e) == e.frag;
      }
    }
  }

  lemma HonestComplete(e: Entry, d: seq<byte>)
    requires 0 < |d|
    requires forall x :: x in e.bytes ==> 0 <= x < |d| && e.bytes[x] == d[x]
    requires e.last == if |d| - 1 in e.bytes then Some(|d|) else None
    ensures Complete(e) <==> forall x :: 0 <= x < |d| ==> x in e.bytes
    ensures Complete(e) ==> Assembled(e) == d
  {
    if forall x :: 0 <= x < |d| ==> x in e.bytes {
      assert IsInitial(e.bytes, |d|);
    }
    if Complete(e) {
      var n: nat :| 0 < n && e.last.value <= n && IsInitial(e.bytes, n);
      assert n - 1 in e.bytes;
    }
  }

  // Any fragmentation of d, in any order, with duplicates and overlaps, amid any
  // other traffic: nothing is delivered while a byte is missing, and the call
  // that brings the last missing byte delivers exactly d.
  lemma {:induction false} Reassembles(cfg: Config, s: State, es: seq<Event>, k: FragKey, d: seq<byte>)
    requires WithinCaps(cfg, s) && MAX_DATAGRAM_LEN <= cfg.maxMem && k !in s.table
    requires AllHonest(es, k, d) && NeverEvicted(cfg, s, es, k)
    requires forall i :: 0 <= i < |es| ==> !Full(es[..i], k, d)
    ensures !Full(es, k, d) ==> NeverComplete(cfg, s, es, k)
    ensures Full(es, k, d) ==>
      && es != [] && Feeds(es[|es| - 1], k)
      && ResultAt(cfg, s, es, |es| - 1).complete
      && ResultAt(cfg, s, es, |es| - 1).datagram == d
      && k !in After(cfg, s, es).table
  {
    hide Known, LastEnd, WithinCaps, Names, Step, After, ResultAt, Full, NeverComplete, NeverEvicted, Feeds, Honest;
    if es == [] {
      NothingKnown(k, d);
      NothingDone(cfg, s, k);
    } else {
      var p := es[..|es| - 1];
      PrefixRun(cfg, s, es, k);
      HonestPrefix(es, k, d);
      assert forall i :: 0 <= i < |p| ==> p[..i] == es[..i];
      Reassembles(cfg, s, p, k, d);
      StaysLinked(cfg, s, p);
      EntryIsFirstSeen(cfg, s, p, k);
      LastCall(cfg, s, es, k, d);
    }
  }

  lemma HonestPrefix(es: seq<Event>, k: FragKey, d: seq<byte>)
    requires es != [] && AllHonest(es, k, d)
    ensures AllHonest(es[..|es| - 1], k, d)
  {
    assert forall i :: 0 <= i < |es| - 1 ==> es[..|es| - 1][i] == es[i];
  }

  lemma NothingKnown(k: FragKey, d: seq<byte>)
    requires 0 < |d|
    ensures !Full([], k, d)
  {
    assert 0 !in Known([], k);
  }

  lemma NothingDone(cfg: Config, s: State, k: FragKey)
    ensures NeverComplete(cfg, s, [], k)
  {
  }

  // The last call completes the datagram exactly when it brings the last byte.
  lemma LastCall(cfg: Config, s: State, es: seq<Event>, k: FragKey, d: seq<byte>)
    requires MAX_DATAGRAM_LEN <= cfg.maxMem && es != [] && AllHonest(es, k, d)
    requires Linked(After(cfg, s, es[..|es| - 1]))
    requires Holds(After(cfg, s, es[..|es| - 1]), k, Known(es[..|es| - 1], k), LastEnd(es[..|es| - 1], k))
    requires !Full(es[..|es| - 1], k, d) && NeverComplete(cfg, s, es[..|es| - 1], k)
    ensures !Full(es, k, d) ==> NeverComplete(cfg, s, es, k)
    ensures Full(es, k, d) ==>
      && Feeds(es[|es| - 1], k)
      && ResultAt(cfg, s, es, |es| - 1).complete
      && ResultAt(cfg, s, es, |es| - 1).datagram == d
      && k !in After(cfg, s, es).table
  {
    hide Known, LastEnd, Names, Step, Full, Honest, Feeds;
    var p, e := es[..|es| - 1], es[|es| - 1];
    if Feeds(e, k) {
      StepDelivers(cfg, After(cfg, s, p), es, k, d);
    } else {
      NoNews(es, k, d);
    }
    forall i | 0 <= i < |p| && Feeds(es[i], k) ensures !ResultAt(cfg, s, es, i).complete {
      assert p[..i] == es[..i] && p[i] == es[i];
      assert !ResultAt(cfg, s, p, i).complete;
    }
  }

  lemma NoNews(es: seq<Event>, k: FragKey, d: seq<byte>)
    requires es != [] && !Feeds(es[|es| - 1], k)
    ensures Full(es, k, d) ==> Full(es[..|es| - 1], k, d)
  {
    assert Known(es, k) == Known(es[..|es| - 1], k);
  }

  lemma StepDelivers(cfg: Config, t: State, es: seq<Event>, k: FragKey, d: seq<byte>)
    requires Linked(t) && MAX_DATAGRAM_LEN <= cfg.maxMem
    requires es != [] && AllHonest(es, k, d) && Feeds(es[|es| - 1], k)
    requires Holds(t, k, Known(es[..|es| - 1], k), LastEnd(es[..|es| - 1], k))
    ensures var (u, r) := Step(cfg, t, es[|es| - 1]);
            if Full(es, k, d) then r.complete && r.datagram == d && k !in u.table else !r.complete
  {
    hide Complete, Names, FirstSeen, Assembled, Step, AllHonest, Clip, Accepts;
    var e := es[|es| - 1];
    HonestKnown(es, k, d);
    FeedStep(cfg, t, e, k);
    assert Fed(t, e, k).bytes == Known(es, k) && Fed(t, e, k).last == LastEnd(es, k);
    NotEmpty(es, k, d);
    HonestComplete(Fed(t, e, k), d);
  }

  lemma NotEmpty(es: seq<Event>, k: FragKey, d: seq<byte>)
    requires AllHonest(es, k, d)
    ensures 0 < |d|
  {
  }
}
