/**
 * Copies of a byte that differ. Of those buffered, the one in the first segment that
 * holds the byte is delivered; it need not be the copy that came first.
 */
module TcpFirstCopy {
  import opened Machine
  import opened TcpStream
  import opened TcpRuns
  import opened TcpExact

  predicate Covers(base: uint32, g: Seg, x: nat) {
    Lo(base, g) <= x < Hi(base, g)
  }

  // The byte at position x in the first buffered segment that holds one.
  function First(base: uint32, ooo: seq<Seg>, x: nat): Option<byte> {
    if ooo == [] then None
    else if Covers(base, ooo[0], x) then Some(ooo[0].data[x - Lo(base, ooo[0])])
    else First(base, ooo[1..], x)
  }

  lemma {:induction false} FirstNone(base: uint32, ooo: seq<Seg>, x: nat)
    ensures First(base, ooo, x).Some? <==> Holds(base, ooo, x)
    decreases |ooo|
  {
    hide Holds, Lo;
    if ooo == [] {
      HoldsNone(base, x);
    } else {
      HoldsCons(base, ooo);
      FirstNone(base, ooo[1..], x);
    }
  }

  lemma HoldsNone(base: uint32, x: int)
    ensures !Holds(base, [], x)
  {
  }

  lemma {:induction false} FirstJoin(base: uint32, a: seq<Seg>, b: seq<Seg>, x: nat)
    ensures First(base, a + b, x) == if First(base, a, x).Some? then First(base, a, x) else First(base, b, x)
    decreases |a|
  {
    hide Covers;
    if a == [] {
      assert a + b == b;
    } else {
      assert (a + b)[1..] == a[1..] + b;
      FirstJoin(base, a[1..], b, x);
    }
  }

  // Draining from position n delivers at each position the first buffered copy, up to
  // the first position that has none.
  lemma {:induction false} DrainDeliversFirst(base: uint32, ooo: seq<Seg>, n: nat) returns (m: nat)
    requires Ascending(base, ooo) && Sized(ooo) && n <= REACH
    ensures var (rest, e, out) := Drain(ooo, SeqOf(base, n));
            && n <= m <= REACH && e == SeqOf(base, m) && |Flatten(out)| == m - n
            && (forall x :: n <= x < m ==> First(base, ooo, x) == Some(Flatten(out)[x - n]))
            && First(base, ooo, m) == None
            && (forall x: nat :: First(base, rest, x) == if x <= m then None else First(base, ooo, x))
    decreases |ooo|
  {
    hide Wrap32, SeqLeq, SeqLt, SeqOf, Flatten, Pos, Climbs;
    m := n;
    if ooo == [] {
      FlattenNone();
    } else {
      var g, tail := ooo[0], ooo[1..];
      assert InReach(base, g);
      TailAscends(base, ooo);
      SegEnds(base, g);
      SeqOrder(base, Lo(base, g), n);
      SeqOrder(base, n, Hi(base, g));
      if n < Lo(base, g) {
        FlattenNone();
        forall x: nat | x <= n ensures First(base, ooo, x) == None {
          NothingBefore(base, ooo, x);
        }
      } else if n < Hi(base, g) {
        m := DrainDeliversFirst(base, tail, Hi(base, g));
        var out := Drain(tail, SeqOf(base, Hi(base, g))).2;
        WrapDiff(base, n, Lo(base, g));
        WrapSmall(n - Lo(base, g));
        FlattenCons(Seg(SeqOf(base, n), g.data[n - Lo(base, g)..]), out);
      } else {
        m := DrainDeliversFirst(base, tail, n);
      }
    }
  }

  lemma TailAscends(base: uint32, ooo: seq<Seg>)
    requires Ascending(base, ooo) && ooo != []
    ensures Ascending(base, ooo[1..])
  {
    hide InReach, Lo;
  }

  lemma NothingBefore(base: uint32, ooo: seq<Seg>, n: nat)
    requires Climbs(base, ooo) && ooo != [] && n < Lo(base, ooo[0])
    ensures First(base, ooo, n) == None
  {
    hide Lo;
    FirstNone(base, ooo, n);
    assert forall i :: 0 < i < |ooo| ==> Lo(base, ooo[0]) < Lo(base, ooo[i]);
  }

  // ---- what a new segment changes ----

  // A buffered segment that starts before g holds position x.
  ghost predicate CoveredEarlier(base: uint32, ooo: seq<Seg>, g: Seg, x: nat) {
    exists i :: 0 <= i < |ooo| && Lo(base, ooo[i]) < Lo(base, g) && Covers(base, ooo[i], x)
  }

  // g has the bytes that would be delivered wherever it overlaps buffered segments, those
  // held by a segment that starts earlier apart.
  ghost predicate Agrees(base: uint32, ooo: seq<Seg>, g: Seg) {
    forall x: nat :: Covers(base, g, x) && !CoveredEarlier(base, ooo, g, x) && First(base, ooo, x).Some? ==>
      First(base, ooo, x) == Some(g.data[x - Lo(base, g)])
  }

  // Every byte that was to be delivered still is.
  ghost predicate FirstKept(base: uint32, ooo: seq<Seg>, out: seq<Seg>) {
    forall x: nat :: First(base, ooo, x).Some? ==> First(base, out, x) == First(base, ooo, x)
  }

  lemma EarlierPart(base: uint32, ooo: seq<Seg>, g: Seg, it: nat, x: nat)
    requires it <= |ooo|
    requires forall j :: 0 <= j < it ==> Lo(base, ooo[j]) < Lo(base, g)
    requires forall j :: it <= j < |ooo| ==> Lo(base, g) <= Lo(base, ooo[j])
    ensures CoveredEarlier(base, ooo, g, x) <==> First(base, ooo[..it], x).Some?
  {
    hide Lo;
    FirstNone(base, ooo[..it], x);
    if CoveredEarlier(base, ooo, g, x) {
      var i :| 0 <= i < |ooo| && Lo(base, ooo[i]) < Lo(base, g) && Covers(base, ooo[i], x);
      assert ooo[..it][i] == ooo[i];
    }
  }

  // The segments that make way for g lie within it.
  lemma WithinNew(base: uint32, gone: seq<Seg>, g: Seg, x: nat)
    requires forall j :: 0 <= j < |gone| ==> Lo(base, g) <= Lo(base, gone[j]) && Hi(base, gone[j]) <= Hi(base, g)
    requires !Covers(base, g, x)
    ensures First(base, gone, x) == None
  {
    hide Lo;
    FirstNone(base, gone, x);
  }

  lemma SpliceFirst(base: uint32, ooo: seq<Seg>, it: nat, h: nat, g: Seg, x: nat)
    requires Fits(base, ooo, it, h, g)
    ensures First(base, ooo[..it] + [g] + ooo[h..], x) ==
              if CoveredEarlier(base, ooo, g, x) then First(base, ooo, x)
              else if Covers(base, g, x) then Some(g.data[x - Lo(base, g)])
              else First(base, ooo, x)
  {
    hide Lo, Hi, Covers, CoveredEarlier;
    EarlierPart(base, ooo, g, it, x);
    FirstJoin(base, ooo[..it], ooo[it..], x);
    FirstJoin(base, ooo[it..h], ooo[h..], x);
    assert ooo == ooo[..it] + ooo[it..] && ooo[it..] == ooo[it..h] + ooo[h..];
    FirstJoin(base, ooo[..it] + [g], ooo[h..], x);
    FirstJoin(base, ooo[..it], [g], x);
    if !Covers(base, g, x) {
      InMiddle(base, ooo, it, h, g);
      WithinNew(base, ooo[it..h], g, x);
    }
  }

  lemma InMiddle(base: uint32, ooo: seq<Seg>, it: nat, h: nat, g: Seg)
    requires Fits(base, ooo, it, h, g)
    ensures forall j :: 0 <= j < |ooo[it..h]| ==>
              Lo(base, g) <= Lo(base, ooo[it..h][j]) && Hi(base, ooo[it..h][j]) <= Hi(base, g)
  {
    hide Lo;
    forall j | 0 <= j < |ooo[it..h]|
      ensures Lo(base, g) <= Lo(base, ooo[it..h][j]) && Hi(base, ooo[it..h][j]) <= Hi(base, g)
    {
      assert ooo[it..h][j] == ooo[it + j];
    }
  }

  // Buffering g keeps every byte that was to be delivered exactly when g is dominated, or
  // has the same bytes wherever it overlaps a segment that does not start earlier.
  lemma FirstCopyKeptIff(base: uint32, ooo: seq<Seg>, g: Seg)
    requires Ascending(base, ooo) && InReach(base, g) && Orderly(base, ooo, g)
    ensures FirstKept(base, ooo, Store(ooo, g)) <==> Dominated(ooo, g) || Agrees(base, ooo, g)
  {
    hide Ascending, InReach, Orderly, Fits, Dominated, CoveredEarlier, First;
    if !Dominated(ooo, g) {
      NewFits(base, ooo, g);
      var it := LowerBound(ooo, g.start);
      var h := CoveredTo(ooo, it, End(g));
      forall x: nat
        ensures First(base, Store(ooo, g), x) ==
                  if CoveredEarlier(base, ooo, g, x) then First(base, ooo, x)
                  else if Covers(base, g, x) then Some(g.data[x - Lo(base, g)])
                  else First(base, ooo, x)
      {
        SpliceFirst(base, ooo, it, h, g, x);
      }
    }
  }

  // ---- a segment that is next in line

  // It begins at or before the expected number and ends behind it.
  predicate InLine(d: Direction, g: Seg) {
    |g.data| < TWO_31 && SeqLeq(g.start, d.nextSeq) && !SeqLeq(End(g), d.nextSeq)
  }

  // What is new of it.
  function NewPart(d: Direction, g: Seg): Seg
    requires InLine(d, g)
  {
    NewInside(g, d.nextSeq);
    Seg(d.nextSeq, g.data[Wrap32(d.nextSeq - g.start)..])
  }

  lemma NewInside(g: Seg, next: uint32)
    requires |g.data| < TWO_31 && SeqLeq(g.start, next) && !SeqLeq(End(g), next)
    ensures Wrap32(next - g.start) < |g.data|
  {
  }

  lemma PlaceInLine(cfg: Config, d: Direction, g: Seg, mem: nat, now: uint64)
    requires InLine(d, g)
    ensures var f := NewPart(d, g);
            f.data != [] && Place(cfg, d, g, mem, now) == (d.(nextSeq := SeqOf(d.nextSeq, |f.data|)), [f])
  {
    hide Store, Dominated, Full;
    NewInside(g, d.nextSeq);
  }

  // Position x after the step: delivered, in one of the stretches [0, n) and [k, m), or buffered.
  function NowAt(base: uint32, out: seq<byte>, ooo: seq<Seg>, n: nat, k: nat, m: nat, x: nat): Option<byte> {
    if x < n && x < |out| then Some(out[x])
    else if k <= x < m && n + x - k < |out| then Some(out[n + x - k])
    else First(base, ooo, x)
  }

  // n bytes are delivered and something later is buffered: bytes are missing in between.
  predicate Hole(base: uint32, ooo: seq<Seg>, n: nat) {
    ooo != [] && n < Lo(base, ooo[0])
  }

  // The clock of the gap has run for its time; both readings are 64 bits wide.
  predicate TimedOut(cfg: Config, d: Direction, now: uint64) {
    d.gapPending && (now - d.gapSince) % TWO_64 >= cfg.gapTimeout
  }

  // Draining where n bytes have been delivered. A hole whose clock has timed out is given up:
  // what follows are the first copies from the first buffered position on. Until then nothing
  // behind a hole is delivered. Giving up stops the clock, and so does emptying the buffer.
  lemma DrainFrom(cfg: Config, base: uint32, d: Direction, n: nat, now: uint64) returns (k: nat, m: nat)
    requires Ascending(base, d.ooo) && Sized(d.ooo) && d.nextSeq == SeqOf(base, n) && n <= REACH
    ensures
      var (d1, out) := DrainAll(SkipGap(cfg, d, now));
      var giveUp := Hole(base, d.ooo, n) && TimedOut(cfg, d, now);
      && k == (if giveUp then Lo(base, d.ooo[0]) else n)
      && k <= m <= REACH && (Hole(base, d.ooo, n) && !giveUp ==> m == n)
      && |Flatten(out)| == m - k && (forall x :: k <= x < m ==> First(base, d.ooo, x) == Some(Flatten(out)[x - k]))
      && First(base, d.ooo, m) == None
      && (forall x: nat :: n <= x < k ==> First(base, d.ooo, x) == None)
      && (forall x: nat :: First(base, d1.ooo, x) == if x <= m then None else First(base, d.ooo, x))
      && d1.nextSeq == SeqOf(base, m)
      && d1.gapPending == (d.gapPending && !giveUp && (d1.ooo != [] || d.ooo == [])) && d1.gapSince == d.gapSince
  {
    hide Wrap32, SeqLeq, SeqLt, SeqOf, Flatten, First, Pos, Climbs, Drain, Sized;
    k := n;
    if d.ooo != [] {
      assert InReach(base, d.ooo[0]);
      SegEnds(base, d.ooo[0]);
      var h := Lo(base, d.ooo[0]);
      SeqOrder(base, n, h);
      forall x: nat | x < h ensures First(base, d.ooo, x) == None {
        NothingBefore(base, d.ooo, x);
      }
      if n < h && TimedOut(cfg, d, now) {
        k := h;
      }
    }
    m := DrainDeliversFirst(base, d.ooo, k);
    FlattenNone();
    if d.ooo == [] {
      DrainNothing(SeqOf(base, k));
    } else if n < Lo(base, d.ooo[0]) && k == n {
      HoleStops(base, d.ooo, n, m);
    }
  }

  lemma HoleStops(base: uint32, ooo: seq<Seg>, n: nat, m: nat)
    requires Climbs(base, ooo) && Hole(base, ooo, n) && n <= m
    requires forall x: nat :: n <= x < m ==> First(base, ooo, x).Some?
    ensures m == n
  {
    NothingBefore(base, ooo, n);
  }

  // The step delivers the new part of the segment and then the first buffered copies: from
  // there on, or, past a hole whose time has run out, from the first buffered position on.
  // What is left buffered is as it was.
  lemma InLineDelivers(cfg: Config, d: Direction, g: Seg, mem: nat, now: uint64) returns (k: nat, m: nat)
    requires Ascending(d.nextSeq, d.ooo) && Sized(d.ooo) && InLine(d, g) && |NewPart(d, g).data| <= REACH
    ensures
      var (base, f, (d1, out)) := (d.nextSeq, NewPart(d, g), Data(cfg, d, g, mem, now));
      var n := |f.data|;
      && 0 < n <= k <= m && |Flatten(out)| == n + (m - k)
      && (forall x: nat :: x < n ==> Flatten(out)[x] == f.data[x])
      && (forall x: nat :: n <= x ==> NowAt(base, Flatten(out), d1.ooo, n, k, m, x) == First(base, d.ooo, x))
      && k == (if Hole(base, d.ooo, n) && TimedOut(cfg, d, now) then Lo(base, d.ooo[0]) else n)
      && (Hole(base, d.ooo, n) && k == n ==> m == n) && First(base, d.ooo, m) == None
  {
    hide Wrap32, SeqLeq, SeqLt, SeqOf, Flatten, First, Place, Pos, Climbs, Drain, Sized, GapExpired, Lo;
    NewInside(g, d.nextSeq);
    PlaceInLine(cfg, d, g, mem, now);
    var base, f := d.nextSeq, NewPart(d, g);
    var d1 := Place(cfg, d, g, mem, now).0;
    k, m := DrainFrom(cfg, base, d1, |f.data|, now);
    FlattenOne(f);
    FlattenJoin([f], DrainAll(SkipGap(cfg, d1, now)).1);
  }

  lemma DrainNothing(next: uint32)
    ensures Sized([]) && Drain([], next) == ([], next, [])
  {
  }

  // Its bytes win over every buffered copy, so none that was to be delivered changes exactly
  // when it agrees with them.
  lemma InLineKeptIff(cfg: Config, d: Direction, g: Seg, mem: nat, now: uint64) returns (k: nat, m: nat)
    requires Ascending(d.nextSeq, d.ooo) && Sized(d.ooo) && InLine(d, g) && |NewPart(d, g).data| <= REACH
    ensures
      var (base, f, (d1, out)) := (d.nextSeq, NewPart(d, g), Data(cfg, d, g, mem, now));
      (forall x: nat :: First(base, d.ooo, x).Some? ==>
         NowAt(base, Flatten(out), d1.ooo, |f.data|, k, m, x) == First(base, d.ooo, x))
      <==> Agrees(base, d.ooo, f)
  {
    hide Flatten, First, Data, InLine, Ascending, Sized;
    k, m := InLineDelivers(cfg, d, g, mem, now);
    var base, f := d.nextSeq, NewPart(d, g);
    AtOrigin(base, f);
    forall x: nat ensures !CoveredEarlier(base, d.ooo, f, x) {
    }
  }

  lemma AtOrigin(base: uint32, f: Seg)
    requires f.start == base
    ensures Lo(base, f) == 0 && Hi(base, f) == |f.data|
  {
  }

  // Twice a first copy loses: its segment makes way for one that covers it, and a segment
  // that starts earlier overlaps it.
  lemma FirstCopyLost()
    ensures Store([Seg(10, [1, 2])], Seg(10, [3, 4, 5])) == [Seg(10, [3, 4, 5])]
    ensures
      var ooo := Store([Seg(12, [1, 2])], Seg(10, [3, 4, 5]));
      ooo == [Seg(10, [3, 4, 5]), Seg(12, [1, 2])] && Sized(ooo) && Flatten(Drain(ooo, 10).2) == [3, 4, 5, 2]
  {
    hide Flatten, Store;
    var a, b := Seg(10, [3, 4, 5]), Seg(12, [1, 2]);
    StoreBefore(a, b);
    DrainBoth(a, b);
    FlattenCons(a, [Seg(13, [2])]);
    FlattenOne(Seg(13, [2]));
  }

  lemma StoreBefore(a: Seg, b: Seg)
    requires a == Seg(10, [3, 4, 5]) && b == Seg(12, [1, 2])
    ensures Store([Seg(10, [1, 2])], a) == [a] && Store([b], a) == [a, b]
  {
    var first: seq<Seg> := [Seg(10, [1, 2])];
    assert first[..0] == [] && first[1..] == [];
    assert LowerBound([b], 10) == 0 && CoveredTo([b], 0, 13) == 0;
    assert [b][..0] == [] && [b][0..] == [b];
  }

  lemma DrainBoth(a: Seg, b: Seg)
    requires a == Seg(10, [3, 4, 5]) && b == Seg(12, [1, 2])
    ensures Sized([a, b]) && Drain([a, b], 10).2 == [a] + [Seg(13, [2])]
  {
    hide Store;
    assert [a, b][1..] == [b] && [b][1..] == [];
    assert Drain([b], 13).2 == [Seg(13, [2])] + [];
    assert a.data[0..] == a.data;
  }
}
