/**
 * When delivery is exact: the bytes delivered are the longest contiguous prefix
 * of what was received. It is so for every order, duplication and overlap of
 * segments of one stream, as long as the raw numbers by which the buffer is
 * ordered come in the order of the stream.
 */
module TcpExact {
  import opened Machine
  import opened TcpStream
  import opened TcpRuns

  // Both ends of the segments increase.
  ghost predicate Climbs(base: uint32, ooo: seq<Seg>) {
    forall i, j :: 0 <= i < j < |ooo| ==> Lo(base, ooo[i]) < Lo(base, ooo[j]) && Hi(base, ooo[i]) < Hi(base, ooo[j])
  }

  predicate InReach(base: uint32, g: Seg) {
    0 < |g.data| && Hi(base, g) <= REACH
  }

  ghost predicate Ascending(base: uint32, ooo: seq<Seg>) {
    Climbs(base, ooo) && forall i :: 0 <= i < |ooo| ==> InReach(base, ooo[i])
  }

  // The buffer in stream order.
  ghost predicate Chain(s: seq<byte>, base: uint32, ooo: seq<Seg>) {
    Slices(s, base, ooo) && Climbs(base, ooo)
  }

  lemma ChainAscends(s: seq<byte>, base: uint32, ooo: seq<Seg>)
    requires StreamOk(s) && Chain(s, base, ooo)
    ensures Ascending(base, ooo)
  {
    forall i | 0 <= i < |ooo| ensures InReach(base, ooo[i]) {
      assert IsSlice(s, base, ooo[i]);
    }
  }

  // The raw numbers of the buffered segments and of g come in the order of their
  // distances from base.
  predicate Orderly(base: uint32, ooo: seq<Seg>, g: Seg) {
    forall i :: 0 <= i < |ooo| ==> (ooo[i].start < g.start <==> Lo(base, ooo[i]) < Lo(base, g))
  }

  ghost predicate Ahead(base: uint32, ooo: seq<Seg>, n: nat) {
    forall i :: 0 <= i < |ooo| ==> n < Lo(base, ooo[i])
  }

  ghost predicate Holds(base: uint32, ooo: seq<Seg>, x: int) {
    exists i :: 0 <= i < |ooo| && Lo(base, ooo[i]) <= x < Hi(base, ooo[i])
  }

  // ---- draining ----

  lemma {:induction false} DrainExact(s: seq<byte>, base: uint32, ooo: seq<Seg>, n: nat) returns (m: nat)
    requires StreamOk(s) && Chain(s, base, ooo) && Sized(ooo) && n <= |s|
    ensures var (rest, e, out) := Drain(ooo, SeqOf(base, n));
            && n <= m <= |s| && e == SeqOf(base, m) && Flatten(out) == s[n..m]
            && Chain(s, base, rest) && Ahead(base, rest, m)
            && (forall x :: n <= x < m ==> Holds(base, ooo, x))
            && (forall x :: m <= x ==> (Holds(base, rest, x) <==> Holds(base, ooo, x)))
    decreases |ooo|
  {
    hide Wrap32, SeqLeq, SeqLt, SeqOf, IsSlice, Holds, Flatten, Pos;
    if ooo == [] {
      m := n;
      FlattenNone();
    } else {
      var g, tail := ooo[0], ooo[1..];
      assert IsSlice(s, base, g);
      SegEnds(base, g);
      SliceInside(s, base, g);
      SeqOrder(base, Lo(base, g), n);
      SeqOrder(base, n, Hi(base, g));
      HoldsCons(base, ooo);
      if n < Lo(base, g) {
        m := n;
        FlattenNone();
      } else if n < Hi(base, g) {
        SubSlice(s, base, g, n);
        m := DrainExact(s, base, tail, Hi(base, g));
        var out := Drain(tail, SeqOf(base, Hi(base, g))).2;
        FlattenCons(Seg(SeqOf(base, n), g.data[n - Lo(base, g)..]), out);
        SliceJoin(s, n, Hi(base, g), m);
      } else {
        m := DrainExact(s, base, tail, n);
      }
    }
  }

  lemma SliceJoin(s: seq<byte>, a: nat, b: nat, c: nat)
    requires a <= b <= c <= |s|
    ensures s[a..b] + s[b..c] == s[a..c]
  {
  }

  lemma SliceInside(s: seq<byte>, base: uint32, g: Seg)
    requires IsSlice(s, base, g)
    ensures Lo(base, g) < Hi(base, g) <= |s|
    ensures forall n :: Lo(base, g) <= n < Hi(base, g) ==> g.data[n - Lo(base, g)..] == s[n..Hi(base, g)]
  {
  }

  lemma HoldsCons(base: uint32, ooo: seq<Seg>)
    requires ooo != []
    ensures forall x :: Holds(base, ooo, x) <==> Lo(base, ooo[0]) <= x < Hi(base, ooo[0]) || Holds(base, ooo[1..], x)
  {
    forall x ensures Holds(base, ooo, x) <==> Lo(base, ooo[0]) <= x < Hi(base, ooo[0]) || Holds(base, ooo[1..], x) {
      if Holds(base, ooo[1..], x) {
        var i :| 0 <= i < |ooo| - 1 && Lo(base, ooo[1..][i]) <= x < Hi(base, ooo[1..][i]);
        assert ooo[i + 1] == ooo[1..][i];
      }
      if Holds(base, ooo, x) {
        var i :| 0 <= i < |ooo| && Lo(base, ooo[i]) <= x < Hi(base, ooo[i]);
        if 0 < i {
          assert ooo[1..][i - 1] == ooo[i];
        }
      }
    }
  }

  // ---- buffering ----

  // Where the new segment belongs, in terms of positions.
  lemma Placement(base: uint32, ooo: seq<Seg>, g: Seg)
    requires Ascending(base, ooo) && InReach(base, g) && Orderly(base, ooo, g)
    ensures var it := LowerBound(ooo, g.start);
            && (forall j :: 0 <= j < it ==> Lo(base, ooo[j]) < Lo(base, g))
            && (forall j :: it <= j < |ooo| ==> Lo(base, g) <= Lo(base, ooo[j]))
            && (it < |ooo| && ooo[it].start == g.start ==> Lo(base, ooo[it]) == Lo(base, g))
            && (it < |ooo| && Lo(base, ooo[it]) == Lo(base, g) ==> ooo[it].start == g.start)
    ensures forall j :: 0 <= j < |ooo| ==>
              && (SeqLeq(End(g), End(ooo[j])) <==> Hi(base, g) <= Hi(base, ooo[j]))
              && (SeqLeq(End(ooo[j]), End(g)) <==> Hi(base, ooo[j]) <= Hi(base, g))
  {
    hide Wrap32, SeqLeq, SeqLt, SeqOf, Pos, End;
    var it := LowerBound(ooo, g.start);
    SegEnds(base, g);
    forall j | 0 <= j < |ooo|
      ensures ooo[j].start == g.start <==> Lo(base, ooo[j]) == Lo(base, g)
      ensures SeqLeq(End(g), End(ooo[j])) <==> Hi(base, g) <= Hi(base, ooo[j])
      ensures SeqLeq(End(ooo[j]), End(g)) <==> Hi(base, ooo[j]) <= Hi(base, g)
    {
      assert InReach(base, ooo[j]);
      SegEnds(base, ooo[j]);
      SeqOrder(base, Lo(base, ooo[j]), Lo(base, g));
      SeqOrder(base, Hi(base, g), Hi(base, ooo[j]));
      SeqOrder(base, Hi(base, ooo[j]), Hi(base, g));
    }
    forall j | it <= j < |ooo| ensures Lo(base, g) <= Lo(base, ooo[j]) {
      assert it < j ==> Lo(base, ooo[it]) < Lo(base, ooo[j]);
    }
  }

  // A dominated segment brings nothing new.
  lemma DominatedHeld(base: uint32, ooo: seq<Seg>, g: Seg)
    requires Ascending(base, ooo) && InReach(base, g) && Orderly(base, ooo, g)
    requires Dominated(ooo, g)
    ensures forall x :: Lo(base, g) <= x < Hi(base, g) ==> Holds(base, ooo, x)
  {
    hide SeqLeq, End, Ascending, InReach, Orderly;
    Placement(base, ooo, g);
    var it := LowerBound(ooo, g.start);
    var i := if it < |ooo| && ooo[it].start == g.start && SeqLeq(End(g), End(ooo[it])) then it else it - 1;
    forall x | Lo(base, g) <= x < Hi(base, g) ensures Holds(base, ooo, x) {
      assert Lo(base, ooo[i]) <= x < Hi(base, ooo[i]);
    }
  }

  // out is ooo with it..h replaced by g.
  ghost predicate Spliced(out: seq<Seg>, ooo: seq<Seg>, it: nat, h: nat, g: Seg) {
    && it <= h <= |ooo| && |out| == |ooo| - (h - it) + 1
    && (forall j :: 0 <= j < it ==> out[j] == ooo[j])
    && out[it] == g
    && (forall j :: it < j < |out| ==> out[j] == ooo[j - it - 1 + h])
  }

  ghost predicate Fits(base: uint32, ooo: seq<Seg>, it: nat, h: nat, g: Seg) {
    && it <= h <= |ooo|
    && (forall j :: 0 <= j < it ==> Lo(base, ooo[j]) < Lo(base, g) && Hi(base, ooo[j]) < Hi(base, g))
    && (forall j :: it <= j < h ==> Lo(base, g) <= Lo(base, ooo[j]) && Hi(base, ooo[j]) <= Hi(base, g))
    && (forall j :: h <= j < |ooo| ==> Lo(base, g) < Lo(base, ooo[j]) && Hi(base, g) < Hi(base, ooo[j]))
  }

  lemma NewFits(base: uint32, ooo: seq<Seg>, g: Seg)
    requires Ascending(base, ooo) && InReach(base, g) && Orderly(base, ooo, g)
    requires !Dominated(ooo, g)
    ensures var it := LowerBound(ooo, g.start); Fits(base, ooo, it, CoveredTo(ooo, it, End(g)), g)
  {
    hide SeqLeq, End, InReach, Orderly, Lo, Hi, LowerBound, CoveredTo;
    Placement(base, ooo, g);
    var it := LowerBound(ooo, g.start);
    var h := CoveredTo(ooo, it, End(g));
    forall j | 0 <= j < it ensures Hi(base, ooo[j]) < Hi(base, g) {
      assert j < it - 1 ==> Hi(base, ooo[j]) < Hi(base, ooo[it - 1]);
    }
    forall j | h <= j < |ooo| ensures Lo(base, g) < Lo(base, ooo[j]) && Hi(base, g) < Hi(base, ooo[j]) {
      assert h < j ==> Lo(base, ooo[h]) < Lo(base, ooo[j]) && Hi(base, ooo[h]) < Hi(base, ooo[j]);
      assert it < h ==> Lo(base, ooo[it]) < Lo(base, ooo[j]);
    }
  }

  lemma SpliceClimbs(base: uint32, out: seq<Seg>, ooo: seq<Seg>, it: nat, h: nat, g: Seg)
    requires Climbs(base, ooo) && Fits(base, ooo, it, h, g) && Spliced(out, ooo, it, h, g)
    ensures Climbs(base, out)
  {
    hide Lo, Hi;
  }

  lemma SpliceHolds(base: uint32, out: seq<Seg>, ooo: seq<Seg>, it: nat, h: nat, g: Seg, x: int)
    requires Fits(base, ooo, it, h, g) && Spliced(out, ooo, it, h, g)
    ensures Holds(base, out, x) <==> Holds(base, ooo, x) || Lo(base, g) <= x < Hi(base, g)
  {
    hide Lo, Hi;
    if Holds(base, ooo, x) {
      var j :| 0 <= j < |ooo| && Lo(base, ooo[j]) <= x < Hi(base, ooo[j]);
      var k := if j < it then j else if j < h then it else j - h + it + 1;
      assert Lo(base, out[k]) <= x < Hi(base, out[k]);
    }
    if Lo(base, g) <= x < Hi(base, g) {
      assert Lo(base, out[it]) <= x < Hi(base, out[it]);
    }
  }

  lemma StoreSplices(ooo: seq<Seg>, g: Seg)
    requires !Dominated(ooo, g)
    ensures var it := LowerBound(ooo, g.start); Spliced(Store(ooo, g), ooo, it, CoveredTo(ooo, it, End(g)), g)
  {
    hide Dominated, LowerBound, CoveredTo, SeqLeq, End;
    var it := LowerBound(ooo, g.start);
    var h := CoveredTo(ooo, it, End(g));
    SpliceOut(ooo, it, h, g);
  }

  lemma SpliceOut(ooo: seq<Seg>, it: nat, h: nat, g: Seg)
    requires it <= h <= |ooo|
    ensures Spliced(ooo[..it] + [g] + ooo[h..], ooo, it, h, g)
  {
  }

  // Buffering keeps the order and adds exactly the bytes of the segment.
  lemma StoreClimbs(base: uint32, ooo: seq<Seg>, g: Seg)
    requires Ascending(base, ooo) && InReach(base, g) && Orderly(base, ooo, g)
    ensures Climbs(base, Store(ooo, g))
    ensures forall x :: Holds(base, Store(ooo, g), x) <==> Holds(base, ooo, x) || Lo(base, g) <= x < Hi(base, g)
  {
    hide Climbs, Holds, InReach, Orderly, Fits, Dominated, Lo, Spliced, Store;
    if Dominated(ooo, g) {
      DominatedHeld(base, ooo, g);
      DominatedStore(ooo, g);
    } else {
      NewFits(base, ooo, g);
      StoreSplices(ooo, g);
      var it := LowerBound(ooo, g.start);
      var h := CoveredTo(ooo, it, End(g));
      SpliceClimbs(base, Store(ooo, g), ooo, it, h, g);
      forall x ensures Holds(base, Store(ooo, g), x) <==> Holds(base, ooo, x) || Lo(base, g) <= x < Hi(base, g) {
        SpliceHolds(base, Store(ooo, g), ooo, it, h, g, x);
      }
    }
  }

  // ---- one segment ----

  // Position 0 is next and what is buffered is in stream order from there on.
  ghost predicate Tracks(s: seq<byte>, base: uint32, d: Direction) {
    d.initialized && d.nextSeq == base && Chain(s, base, d.ooo)
  }

  // What placing a segment does: the first k bytes are delivered at once, or none are.
  ghost predicate Placed(s: seq<byte>, base: uint32, d: Direction, d1: Direction, out: seq<Seg>, k: nat) {
    && d1.initialized && d1.finSeen == d.finSeen && Chain(s, base, d1.ooo)
    && k <= |s| && d1.nextSeq == SeqOf(base, k) && Flatten(out) == s[..k]
  }

  // The bytes [p, q) are where they belong: delivered up to k, buffered from there on.
  ghost predicate Kept(base: uint32, d: Direction, d1: Direction, p: int, q: int, k: nat) {
    && (0 < k ==> p <= 0 && k <= q)
    && (forall x :: k <= x ==> (Holds(base, d1.ooo, x) <==> Holds(base, d.ooo, x) || p <= x < q))
  }

  lemma PlaceTracks(cfg: Config, s: seq<byte>, base: uint32, d: Direction, p: nat, q: nat, mem: nat, now: uint64)
    returns (k: nat)
    requires StreamOk(s) && Tracks(s, base, d) && p < q <= |s|
    requires 0 < p ==> Orderly(base, d.ooo, Carry(s, base, p, q))
    ensures var (d1, out) := Place(cfg, d, Carry(s, base, p, q), mem, now);
            && Placed(s, base, d, d1, out, k)
            && (!Refused(cfg, d, Carry(s, base, p, q), mem) ==> Kept(base, d, d1, p, q, k))
            && Sized(d1.ooo)
  {
    hide Wrap32, SeqLeq, SeqLt, SeqOf, IsSlice, Store, Dominated, Full, Lo, Hi, Climbs, Holds, Orderly, Slices, Sized;
    var g := Carry(s, base, p, q);
    CarrySlice(s, base, p, q);
    OriginSeq(base);
    SeqOrder(base, q, 0);
    SeqOrder(base, p, 0);
    if p == 0 {
      k := q;
      FlattenOne(g);
    } else {
      k := 0;
      FlattenNone();
      ChainAscends(s, base, d.ooo);
      assert InReach(base, g) by {
        assert IsSlice(s, base, g);
      }
      StoreClimbs(base, d.ooo, g);
      StoreSlices(s, base, d.ooo, g);
      DominatedStore(d.ooo, g);
    }
    SlicesSized(s, base, Place(cfg, d, g, mem, now).0.ooo);
  }

  lemma DominatedStore(ooo: seq<Seg>, g: Seg)
    ensures Dominated(ooo, g) ==> Store(ooo, g) == ooo
  {
  }

  lemma OriginSeq(base: uint32)
    ensures SeqOf(base, 0) == base
  {
  }

  // Draining after the gap has been given up, if it has: the bytes [g, m) are delivered.
  lemma DrainTracks(cfg: Config, s: seq<byte>, base: uint32, d: Direction, k: nat, now: uint64) returns (g: nat, m: nat)
    requires StreamOk(s) && Chain(s, base, d.ooo) && k <= |s| && d.nextSeq == SeqOf(base, k) && Sized(d.ooo)
    ensures var (d1, out) := DrainAll(SkipGap(cfg, d, now));
            && d1.initialized == d.initialized && d1.finSeen == d.finSeen
            && k <= g <= m <= |s| && d1.nextSeq == SeqOf(base, m) && Flatten(out) == s[g..m]
            && Chain(s, base, d1.ooo) && Ahead(base, d1.ooo, m)
            && (!GapExpired(cfg, d, now) ==> g == k)
            && (forall x :: g <= x < m ==> Holds(base, d.ooo, x))
            && (forall x :: m <= x ==> (Holds(base, d1.ooo, x) <==> Holds(base, d.ooo, x)))
  {
    hide Wrap32, SeqLeq, SeqLt, SeqOf, Drain, Holds, Sized, Climbs, Flatten;
    g := k;
    if GapExpired(cfg, d, now) {
      var f := d.ooo[0];
      assert IsSlice(s, base, f);
      g := Lo(base, f);
      SegEnds(base, f);
      SeqOrder(base, k, g);
    }
    var e := SkipGap(cfg, d, now);
    if e.ooo == [] {
      m := g;
      FlattenNone();
    } else {
      m := DrainExact(s, base, e.ooo, g);
    }
  }
}
