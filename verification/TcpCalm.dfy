/** When a run is calm and in order, told from its arrivals alone. */
module TcpCalm {
  import opened Machine
  import opened TcpStream
  import opened TcpRuns
  import opened TcpExact
  import opened TcpWindow
  import opened TcpTheorems
  import T = TcpTable

  function Len(a: Arrival): nat {
    if a.p <= a.q then a.q - a.p else 0
  }

  function Carries(run: seq<Arrival>): nat {
    if run == [] then 0 else Carries(run[..|run| - 1]) + Len(run[|run| - 1])
  }

  // All that the run brings finds room, beside what is buffered at first and what all
  // other flows have buffered.
  ghost predicate Roomy(cfg: Config, d: Direction, run: seq<Arrival>) {
    && d.oooBytes + Carries(run) <= cfg.maxStream
    && forall i :: 0 <= i < |run| ==> run[i].mem + Len(run[i]) <= cfg.maxMem
  }

  // No segment comes a gap timeout after one before it.
  predicate Prompt(cfg: Config, d: Direction, run: seq<Arrival>) {
    && 0 < cfg.gapTimeout
    && forall j :: 0 <= j < |run| ==> PromptAt(cfg, d, run[..j], run[j].now)
  }

  predicate PromptAt(cfg: Config, d: Direction, before: seq<Arrival>, now: uint64) {
    && (d.gapPending ==> Elapsed(now, d.gapSince) < cfg.gapTimeout)
    && forall i :: 0 <= i < |before| ==> Elapsed(now, before[i].now) < cfg.gapTimeout
  }

  // The segment [p, q) is within half the sequence space of the first byte not known: all
  // that is further before its end is known, and something no further behind it is not.
  ghost predicate Reaches(s: seq<byte>, base: uint32, d: Direction, w: nat, before: seq<Arrival>, a: Arrival) {
    && (forall x: nat :: w <= x && x + REACH < a.q ==> Known(base, d, w, before, x))
    && (a.p + TWO_31 <= |s| ==> exists x: nat :: w <= x <= a.p + TWO_31 && x < |s| && !Known(base, d, w, before, x))
  }

  // What is known beyond a gap has its raw number on the right side of the segment's.
  ghost predicate RawOrder(s: seq<byte>, base: uint32, d: Direction, w: nat, before: seq<Arrival>, p: nat) {
    forall y: nat, z: nat ::
      w <= z < y < |s| && z < p && !Known(base, d, w, before, z) && Known(base, d, w, before, y) ==>
        (SeqOf(base, y) < SeqOf(base, p) <==> y < p)
  }

  // A segment keeps within reach and in order, and a FIN comes when all is known.
  ghost predicate Mannerly(s: seq<byte>, base: uint32, d: Direction, w: nat, before: seq<Arrival>, a: Arrival) {
    && (a.p < a.q ==> Reaches(s, base, d, w, before, a) && RawOrder(s, base, d, w, before, a.p))
    && (a.fin ==> forall x: nat :: w <= x < |s| ==> Known(base, d, w, before + [a], x))
  }

  ghost predicate AllMannerly(s: seq<byte>, base: uint32, d: Direction, w: nat, run: seq<Arrival>) {
    forall j :: 0 <= j < |run| ==> Mannerly(s, base, d, w, run[..j], run[j])
  }

  // ---- what the buffer holds and since when

  predicate Tidy(d: Direction) {
    Sorted(d.ooo) && Sized(d.ooo) && d.oooBytes == Bytes(d.ooo)
  }

  lemma PlaceTidy(cfg: Config, d: Direction, g: Seg, mem: nat, now: uint64)
    requires Tidy(d) && 0 < |g.data| < TWO_31
    ensures var d1 := Place(cfg, d, g, mem, now).0; Tidy(d1) && d1.oooBytes <= d.oooBytes + |g.data|
  {
    hide Sorted, Sized, Bytes, Store, SeqLeq, SeqLt, Dominated;
    T.StoreBytes(d.ooo, g);
    T.StoreSorted(d.ooo, g);
    StoreSized(d.ooo, g);
  }

  lemma SegmentTidy(cfg: Config, d: Direction, g: Seg, flags: Flags, mem: nat, now: uint64)
    requires Tidy(d) && |g.data| < TWO_31
    ensures var d1 := Segment(cfg, d, g, flags, mem, now).0; Tidy(d1) && d1.oooBytes <= d.oooBytes + |g.data|
  {
    hide Sorted, Sized, Bytes, Place, Drain, SeqLeq, SeqLt, Wrap32;
    if g.data != [] {
      var d0 := Start(d, g.start, flags.syn);
      PlaceTidy(cfg, d0, g, mem, now);
      var d1 := SkipGap(cfg, Place(cfg, d0, g, mem, now).0, now);
      DrainSized(d1.ooo, d1.nextSeq);
      T.DrainKeeps(d1.ooo, d1.nextSeq);
    }
  }

  lemma StepTidy(cfg: Config, s: seq<byte>, base: uint32, d: Direction, a: Arrival)
    requires CarriedOne(s, a) && Tidy(d)
    ensures var d1 := Step(cfg, s, base, d, a).0; Tidy(d1) && d1.oooBytes <= d.oooBytes + Len(a)
  {
    hide Sorted, Bytes, Segment;
    SegmentTidy(cfg, d, Carry(s, base, a.p, a.q), Flags(a.fin, false, false), a.mem, a.now);
  }

  // The gap clock was started by the first state or by an arrival.
  ghost predicate Since(d0: Direction, run: seq<Arrival>, d: Direction) {
    d.gapPending ==>
      || (d0.gapPending && d.gapSince == d0.gapSince)
      || exists i :: 0 <= i < |run| && run[i].now == d.gapSince
  }

  lemma StepSince(cfg: Config, s: seq<byte>, base: uint32, d: Direction, a: Arrival)
    requires CarriedOne(s, a) && Sized(d.ooo)
    ensures var d1 := Step(cfg, s, base, d, a).0;
            d1.gapPending ==> (d.gapPending && d1.gapSince == d.gapSince) || d1.gapSince == a.now
    ensures a.p < a.q ==>
      var d1 := Place(cfg, d, Carry(s, base, a.p, a.q), a.mem, a.now).0;
      d1.gapPending ==> (d.gapPending && d1.gapSince == d.gapSince) || d1.gapSince == a.now
  {
    hide Sized, Store, Bytes, Drain, SeqLeq, SeqLt, Dominated, Wrap32;
  }

  lemma SinceMore(d0: Direction, run: seq<Arrival>, d: Direction, d1: Direction)
    requires run != [] && Since(d0, run[..|run| - 1], d)
    requires d1.gapPending ==> (d.gapPending && d1.gapSince == d.gapSince) || d1.gapSince == run[|run| - 1].now
    ensures Since(d0, run, d1)
  {
    if d1.gapPending && d.gapPending && d1.gapSince == d.gapSince {
      var p := run[..|run| - 1];
      if i :| 0 <= i < |p| && p[i].now == d.gapSince {
        assert run[i].now == d1.gapSince;
      }
    }
  }

  lemma {:induction false} RunHolds(cfg: Config, s: seq<byte>, base: uint32, d: Direction, run: seq<Arrival>)
    requires Carried(s, run) && Tidy(d) && d.initialized
    ensures
      var d1 := Run(cfg, s, base, d, run).0;
      Tidy(d1) && d1.initialized && d1.oooBytes <= d.oooBytes + Carries(run) && Since(d, run, d1)
  {
    hide Step, Tidy, Since, CarriedOne;
    if run == [] {
      AtFirst(d);
    } else {
      var p, a := run[..|run| - 1], run[|run| - 1];
      assert CarriedOne(s, a);
      TidySized(d);
      RunHolds(cfg, s, base, d, p);
      TidySized(Run(cfg, s, base, d, p).0);
      var d1 := Run(cfg, s, base, d, p).0;
      StepTidy(cfg, s, base, d1, a);
      StepSince(cfg, s, base, d1, a);
      SinceMore(d, run, d1, Step(cfg, s, base, d1, a).0);
      StaysOpen(cfg, s, base, d1, a);
    }
  }

  lemma AtFirst(d: Direction)
    ensures Since(d, [], d)
  {
  }

  lemma StaysOpen(cfg: Config, s: seq<byte>, base: uint32, d: Direction, a: Arrival)
    requires CarriedOne(s, a) && Sized(d.ooo) && d.initialized
    ensures Step(cfg, s, base, d, a).0.initialized
  {
    hide Data;
    DataKeepsFin(cfg, d, Carry(s, base, a.p, a.q), a.mem, a.now);
  }

  // ---- one more arrival

  // d1 expects position v and has buffered what is known from there on, which the byte at v is not.
  ghost predicate Follows(s: seq<byte>, base: uint32, d: Direction, w: nat, run: seq<Arrival>, d1: Direction, v: nat) {
    && Exact(s, base, d1, v) && w <= v
    && (forall x :: Min(w, |s|) <= x < Min(v, |s|) ==> Known(base, d, w, run, x))
    && (v < |s| ==> !Known(base, d, w, run, v))
    && (forall x :: Min(v, |s|) <= x ==> (Buffered(base, d1, v, x) <==> Known(base, d, w, run, x)))
  }

  lemma StepReaches(s: seq<byte>, base: uint32, d: Direction, w: nat, p: seq<Arrival>, d1: Direction, v: nat,
                    a: Arrival)
    requires Follows(s, base, d, w, p, d1, v) && CarriedOne(s, a) && a.p < a.q && Reaches(s, base, d, w, p, a)
    ensures NearStep(v, a)
  {
    hide Known, ExpectsAt, Buffered;
    ExactEnds(s, base, d1, v);
    if v + REACH < a.q {
      assert false;
    }
    if a.p + TWO_31 < v {
      assert false;
    }
  }

  lemma ExactEnds(s: seq<byte>, base: uint32, d: Direction, v: nat)
    requires Exact(s, base, d, v)
    ensures v <= |s| + 1
  {
    hide Chain, Ahead;
  }

  lemma StepInOrder(s: seq<byte>, base: uint32, d: Direction, w: nat, p: seq<Arrival>, d1: Direction, v: nat,
                    a: Arrival)
    requires Follows(s, base, d, w, p, d1, v) && CarriedOne(s, a) && NearStep(v, a)
    requires a.p < a.q ==> RawOrder(s, base, d, w, p, a.p)
    ensures OrderlyStep(s, base, d1, v, a)
  {
    hide SeqOf, Pos, Known, Buffered;
    if v < a.p < a.q {
      var g := Carry(s, base, a.p, a.q);
      SeqFrom(base, v, a.p - v);
      PosOfSeq(SeqOf(base, v), a.p - v);
      forall i | 0 <= i < |d1.ooo|
        ensures d1.ooo[i].start < g.start <==> Lo(d1.nextSeq, d1.ooo[i]) < Lo(d1.nextSeq, g)
      {
        var f := d1.ooo[i];
        var y := v + Lo(d1.nextSeq, f);
        BufferedAt(s, base, d1, v, i);
        assert Known(base, d, w, p, y) && !Known(base, d, w, p, v);
      }
    }
  }

  lemma BufferedAt(s: seq<byte>, base: uint32, d: Direction, v: nat, i: nat)
    requires ExpectsAt(s, base, d, v) && !d.finSeen && i < |d.ooo|
    ensures var y := v + Lo(d.nextSeq, d.ooo[i]);
            v < y < |s| && Buffered(base, d, v, y) && SeqOf(base, y) == d.ooo[i].start
  {
    hide SeqOf, Pos;
    var f := d.ooo[i];
    assert IsSlice(Window(s, v), SeqOf(base, v), f);
    SegEnds(d.nextSeq, f);
    SeqFrom(base, v, Lo(d.nextSeq, f));
    WindowSize(s, v);
    assert Lo(SeqOf(base, v), d.ooo[i]) <= Lo(d.nextSeq, f) < Hi(SeqOf(base, v), d.ooo[i]);
  }

  lemma NoGapRunsOut(cfg: Config, d: Direction, run: seq<Arrival>, d1: Direction, now: uint64)
    requires Since(d, run, d1) && 0 < cfg.gapTimeout
    requires run != [] && run[|run| - 1].now == now && PromptAt(cfg, d, run[..|run| - 1], now)
    ensures !GapExpired(cfg, d1, now)
  {
    if d1.gapPending && !(d.gapPending && d1.gapSince == d.gapSince) {
      var i :| 0 <= i < |run| && run[i].now == d1.gapSince;
      if i < |run| - 1 {
        assert run[..|run| - 1][i].now == d1.gapSince;
      }
    }
  }

  lemma NotRefused(cfg: Config, d: Direction, g: Seg, mem: nat)
    requires d.oooBytes + |g.data| <= cfg.maxStream && mem + |g.data| <= cfg.maxMem
    ensures !Refused(cfg, d, g, mem)
  {
  }

  // When all is known the step delivers to the end of the stream.
  lemma AllDelivered(cfg: Config, s: seq<byte>, base: uint32, d: Direction, w: nat, p: seq<Arrival>, d1: Direction,
                     v: nat,
                     a: Arrival)
    requires Follows(s, base, d, w, p, d1, v) && CarriedOne(s, a) && Sized(d1.ooo) && !d1.finSeen
    requires NearStep(v, a) && OrderlyStep(s, base, d1, v, a)
    requires a.p < a.q ==>
      var g := Carry(s, base, a.p, a.q);
      !Refused(cfg, d1, g, a.mem) && !GapExpired(cfg, Place(cfg, d1, g, a.mem, a.now).0, a.now)
    requires forall x: nat :: w <= x < |s| ==> Known(base, d, w, p + [a], x)
    ensures v + |Flatten(Data(cfg, d1, Carry(s, base, a.p, a.q), a.mem, a.now).1)| == |s|
  {
    hide ExpectsAt, Refused, GapExpired, Place, Sized, Flatten, Data, Near, SeqOf, Orderly, Received, Buffered;
    ExactStays(s, base, d1, v);
    assert (p + [a])[..|p|] == p;
    ReceivedSnoc(p + [a]);
    if a.p < a.q {
      var k, g, m := DataNear(cfg, s, base, d1, v, a.p, a.q, a.mem, a.now);
      PartsLength(s, v, k, m);
      var d2 := Data(cfg, d1, Carry(s, base, a.p, a.q), a.mem, a.now).0;
      ExactStays(s, base, d2, m);
      assert Buffered(base, d2, m, m) <==> Buffered(base, d1, v, m) || a.p <= m < a.q;
      assert Known(base, d, w, p + [a], m) <==> Known(base, d, w, p, m) || a.p <= m < a.q;
      assert Buffered(base, d1, v, m) <==> Known(base, d, w, p, m);
    } else {
      NoData(cfg, s, base, d1, v, a.p, a.mem, a.now);
      assert Known(base, d, w, p + [a], v) <==> Known(base, d, w, p, v);
    }
  }

  lemma ExactStays(s: seq<byte>, base: uint32, d: Direction, v: nat)
    requires ExpectsAt(s, base, d, v) && !d.finSeen
    ensures v <= |s| && !Buffered(base, d, v, v)
  {
    hide Chain;
  }

  // A run whose segments find room, are prompt and mannerly is calm and in order.
  lemma {:induction false} MannerlyIsCalm(cfg: Config, s: seq<byte>, base: uint32, d: Direction, w: nat,
                                          run: seq<Arrival>)
    requires Carried(s, run) && Tidy(d) && Exact(s, base, d, w)
    requires Roomy(cfg, d, run) && Prompt(cfg, d, run) && AllMannerly(s, base, d, w, run)
    ensures Calm(cfg, s, base, d, w, run) && InOrder(cfg, s, base, d, w, run)
  {
    hide Run, Where, Tidy, CarriedOne, Exact, Mannerly, PromptAt, NearStep, OrderlyStep, QuietStep, Carries, Len;
    TidySized(d);
    if run != [] {
      var p, a := run[..|run| - 1], run[|run| - 1];
      assert forall j :: 0 <= j < |p| ==> p[..j] == run[..j] && p[j] == run[j];
      assert Roomy(cfg, d, p) by {
        CarriesLess(run);
      }
      assert CarriedOne(s, a) && Mannerly(s, base, d, w, p, a) && PromptAt(cfg, d, p, a.now);
      MannerlyIsCalm(cfg, s, base, d, w, p);
      LastCalm(cfg, s, base, d, w, run);
    }
  }

  lemma TidySized(d: Direction)
    requires Tidy(d)
    ensures Sized(d.ooo)
  {
  }

  lemma CarriesLess(run: seq<Arrival>)
    requires run != []
    ensures Carries(run[..|run| - 1]) <= Carries(run)
  {
  }

  lemma LastCalm(cfg: Config, s: seq<byte>, base: uint32, d: Direction, w: nat, run: seq<Arrival>)
    requires Carried(s, run) && Tidy(d) && Exact(s, base, d, w) && run != [] && 0 < cfg.gapTimeout
    requires Roomy(cfg, d, run) && PromptAt(cfg, d, run[..|run| - 1], run[|run| - 1].now)
    requires Mannerly(s, base, d, w, run[..|run| - 1], run[|run| - 1])
    requires Calm(cfg, s, base, d, w, run[..|run| - 1]) && InOrder(cfg, s, base, d, w, run[..|run| - 1])
    ensures
      var (p, a) := (run[..|run| - 1], run[|run| - 1]);
      var (d1, v) := (Run(cfg, s, base, d, p).0, Where(cfg, s, base, d, w, p));
      NearStep(v, a) && OrderlyStep(s, base, d1, v, a) && QuietStep(cfg, s, base, d1, v, a)
  {
    hide Run, Where, Known, Buffered, ExpectsAt, Calm, InOrder, Place, GapExpired, Refused, Reaches, RawOrder, Since,
      PromptAt,
      Received, Flatten, Data, Sorted, Sized;
    var p, a := run[..|run| - 1], run[|run| - 1];
    LongestPrefix(cfg, s, base, d, w, p);
    ExactInit(s, base, d, w);
    RunHolds(cfg, s, base, d, p);
    var d1, v := Run(cfg, s, base, d, p).0, Where(cfg, s, base, d, w, p);
    ExactEnds(s, base, d1, v);
    var g := Carry(s, base, a.p, a.q);
    if a.p < a.q {
      StepReaches(s, base, d, w, p, d1, v, a);
      NotRefused(cfg, d1, g, a.mem);
      StepSince(cfg, s, base, d1, a);
      SinceMore(d, run, d1, Place(cfg, d1, g, a.mem, a.now).0);
      NoGapRunsOut(cfg, d, run, Place(cfg, d1, g, a.mem, a.now).0, a.now);
    }
    StepInOrder(s, base, d, w, p, d1, v, a);
    assert p + [a] == run;
    if a.fin && !d1.finSeen {
      AllDelivered(cfg, s, base, d, w, p, d1, v, a);
    }
  }

  lemma ExactInit(s: seq<byte>, base: uint32, d: Direction, v: nat)
    requires Exact(s, base, d, v)
    ensures d.initialized
  {
    hide Chain, Ahead;
  }
}
