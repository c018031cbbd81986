/** When the stream theorems hold of every run: exactly when no wrap and no early FIN is ahead. */
module TcpFaithful {
  import opened Machine
  import opened TcpStream
  import opened TcpRuns
  import opened TcpExact
  import opened TcpWindow
  import opened TcpTheorems

  ghost function Opened(base: uint32, n: nat): Direction {
    FRESH.(initialized := true, nextSeq := SeqOf(base, n))
  }

  // Every calm run of d, which expects position w, delivers the longest contiguous
  // prefix from position n0 on of what is known.
  ghost predicate Faithful(cfg: Config, s: seq<byte>, base: uint32, d: Direction, w: nat, n0: nat)
    requires Sized(d.ooo) && n0 <= |s|
  {
    forall run :: Carried(s, run) && Calm(cfg, s, base, d, w, run) ==> Delivers(cfg, s, base, d, w, n0, run)
  }

  ghost predicate Delivers(cfg: Config, s: seq<byte>, base: uint32, d: Direction, w: nat, n0: nat, run: seq<Arrival>)
    requires Sized(d.ooo) && n0 <= |s| && Carried(s, run)
  {
    exists n: nat :: FirstMissing(s, base, d, w, run, n0, n) && Flatten(Run(cfg, s, base, d, run).1) == s[n0..n]
  }

  // What can be buffered of a stream that is open at position n, of len bytes, begins at
  // n + 1 or later: there the sequence numbers do not wrap.
  predicate NoStraddle(base: uint32, n: nat, len: nat) {
    SeqOf(base, n + 1) + len - n - 1 <= TWO_32
  }

  // ---- without a wrap ahead

  lemma RawAt(base: uint32, n: nat, len: nat, y: nat)
    requires NoStraddle(base, n, len) && n < y < len
    ensures SeqOf(base, y) == SeqOf(base, n + 1) + y - n - 1
  {
    hide Wrap32;
    SeqFrom(base, n + 1, y - n - 1);
    WrapSmall(SeqOf(base, n + 1) + y - n - 1);
  }

  lemma NoStraddleOrderly(s: seq<byte>, base: uint32, n: nat, d: Direction, v: nat, a: Arrival)
    requires NoStraddle(base, n, |s|) && n <= v && Exact(s, base, d, v) && CarriedOne(s, a) && NearStep(v, a)
    ensures OrderlyStep(s, base, d, v, a)
  {
    hide SeqOf, Pos, NoStraddle;
    if v < a.p < a.q {
      var g := Carry(s, base, a.p, a.q);
      SeqFrom(base, v, a.p - v);
      PosOfSeq(SeqOf(base, v), a.p - v);
      RawAt(base, n, |s|, a.p);
      forall i | 0 <= i < |d.ooo| ensures d.ooo[i].start < g.start <==> Lo(d.nextSeq, d.ooo[i]) < Lo(d.nextSeq, g) {
        var f := d.ooo[i];
        assert IsSlice(Window(s, v), SeqOf(base, v), f);
        SegEnds(d.nextSeq, f);
        SeqFrom(base, v, Lo(d.nextSeq, f));
        RawAt(base, n, |s|, v + Lo(d.nextSeq, f));
      }
    }
  }

  lemma {:induction false} NoStraddleInOrder(cfg: Config, s: seq<byte>, base: uint32, n: nat, d: Direction, w: nat,
                                             run: seq<Arrival>)
    requires NoStraddle(base, n, |s|) && n <= w && Sized(d.ooo) && Exact(s, base, d, w)
    requires Carried(s, run) && Calm(cfg, s, base, d, w, run)
    ensures InOrder(cfg, s, base, d, w, run)
  {
    hide NoStraddle, Exact, NearStep, OrderlyStep, CarriedOne, QuietStep, FirstMissing, Known, Sized;
    if run != [] {
      var p := run[..|run| - 1];
      NoStraddleInOrder(cfg, s, base, n, d, w, p);
      LongestPrefix(cfg, s, base, d, w, p);
      NoStraddleOrderly(s, base, n, Run(cfg, s, base, d, p).0, Where(cfg, s, base, d, w, p), run[|run| - 1]);
    }
  }

  lemma OpenedExact(s: seq<byte>, base: uint32, n: nat)
    requires n <= |s|
    ensures Sized(Opened(base, n).ooo) && Exact(s, base, Opened(base, n), n)
  {
  }

  lemma InOrderDelivers(cfg: Config, s: seq<byte>, base: uint32, d: Direction, w: nat, run: seq<Arrival>)
    requires Carried(s, run) && Sized(d.ooo) && Exact(s, base, d, w)
    requires Calm(cfg, s, base, d, w, run) && InOrder(cfg, s, base, d, w, run)
    ensures Delivers(cfg, s, base, d, w, Min(w, |s|), run)
  {
    hide Calm, InOrder, Exact, FirstMissing, Sized;
    LongestPrefix(cfg, s, base, d, w, run);
    assert FirstMissing(s, base, d, w, run, Min(w, |s|), Min(Where(cfg, s, base, d, w, run), |s|));
  }

  // ---- with a wrap ahead

  // The bytes [n, m) in order, none larger than can be told apart.
  function Steady(n: nat, m: nat): seq<Arrival>
    decreases m
  {
    if m <= n then [] else var c := if m - n <= REACH then n else m - REACH; Steady(n, c) + [Arrival(c, m, false, 0, 0)]
  }

  lemma NextInLine(cfg: Config, s: seq<byte>, base: uint32, n: nat, m: nat)
    requires n < m <= |s| && m <= n + REACH
    ensures
      var (d, a) := (Opened(base, n), Arrival(n, m, false, 0, 0));
      && CarriedOne(s, a) && NearStep(n, a) && QuietStep(cfg, s, base, d, n, a)
      && Step(cfg, s, base, d, a) == (Opened(base, m), [Carry(s, base, n, m)])
  {
    hide Wrap32, SeqOf;
    CarryEnd(s, base, n, m);
    NearOrder(base, n, m);
    NearOrder(base, n, n);
    var one := [Carry(s, base, n, m)];
    assert one + [] == one;
  }

  // One more step of a run.
  lemma RunMore(cfg: Config, s: seq<byte>, base: uint32, d: Direction, w: nat, run: seq<Arrival>, a: Arrival)
    requires Carried(s, run) && CarriedOne(s, a) && Sized(d.ooo)
    ensures Carried(s, run + [a])
    ensures
      var ((d1, out), v) := (Run(cfg, s, base, d, run), Where(cfg, s, base, d, w, run));
      var (d2, more) := Step(cfg, s, base, d1, a);
      && Run(cfg, s, base, d, run + [a]) == (d2, out + more)
      && Flatten(out + more) == Flatten(out) + Flatten(more)
      && Where(cfg, s, base, d, w, run + [a]) == v + Wrap32(d2.nextSeq - d1.nextSeq)
      && (Calm(cfg, s, base, d, w, run) && NearStep(v, a) && QuietStep(cfg, s, base, d1, v, a) ==>
            Calm(cfg, s, base, d, w, run + [a]))
  {
    hide Step, CarriedOne, NearStep, QuietStep, Sized, Wrap32;
    assert (run + [a])[..|run|] == run;
    assert Carried(s, run + [a]);
    var (d1, out) := Run(cfg, s, base, d, run);
    FlattenJoin(out, Step(cfg, s, base, d1, a).1);
  }

  lemma NoneSized()
    ensures Sized([])
  {
  }

  lemma {:induction false} SteadyRun(cfg: Config, s: seq<byte>, base: uint32, n: nat, m: nat)
    requires n <= m <= |s|
    ensures
      var (d, run) := (Opened(base, n), Steady(n, m));
      && Carried(s, run) && Calm(cfg, s, base, d, n, run) && Where(cfg, s, base, d, n, run) == m
      && Run(cfg, s, base, d, run).0 == Opened(base, m) && Flatten(Run(cfg, s, base, d, run).1) == s[n..m]
    decreases m
  {
    hide Step, NearStep, QuietStep, SeqOf, Wrap32, Run, Where, Calm, Sized, CarriedOne;
    if m <= n {
      assert Sized(Opened(base, n).ooo) by {
        NoneSized();
      }
      EmptyRun(cfg, s, base, Opened(base, n), n);
      FlattenNone();
    } else {
      var c := if m - n <= REACH then n else m - REACH;
      SteadyRun(cfg, s, base, n, c);
      NextInLine(cfg, s, base, c, m);
      RunMore(cfg, s, base, Opened(base, n), n, Steady(n, c), Arrival(c, m, false, 0, 0));
      WrapDiff(base, m, c);
      WrapSmall(m - c);
      FlattenOne(Carry(s, base, c, m));
      SliceJoin(s, n, c, m);
    }
  }

  // The last byte before the wrap, the first one after it, and then the one before them.
  function Crossing(n: nat): seq<Arrival> {
    [Arrival(n + 1, n + 2, false, 0, 0), Arrival(n + 2, n + 3, false, 0, 0), Arrival(n, n + 1, false, 0, 0)]
  }

  // A direction that expects number 2^32 - 2 and has one byte buffered.
  ghost function Waiting(g: Seg): Direction {
    FRESH.(initialized := true, nextSeq := TWO_32 - 2, ooo := [g], oooBytes := 1, gapPending := true)
  }

  lemma OneByte(g: Seg)
    requires |g.data| == 1
    ensures Bytes([g]) == 1
  {
    assert [g][1..] == [];
  }

  lemma FirstWaits(cfg: Config, s: seq<byte>, base: uint32, n: nat)
    requires SeqOf(base, n) == TWO_32 - 2 && n + 2 < |s|
    requires 2 <= cfg.maxStream && 2 <= cfg.maxMem && 0 < cfg.gapTimeout
    ensures
      var a := Crossing(n)[0];
      && NearStep(n, a) && QuietStep(cfg, s, base, Opened(base, n), n, a)
      && Step(cfg, s, base, Opened(base, n), a) == (Waiting(Seg(TWO_32 - 1, [s[a.p]])), [])
  {
    var a := Crossing(n)[0];
    var g := Carry(s, base, a.p, a.q);
    SeqAdd(base, n, 1);
    assert g == Seg(TWO_32 - 1, [s[a.p]]);
    OneByte(g);
    assert Store([], g) == [g];
    assert Place(cfg, Opened(base, n), g, 0, 0) == (Waiting(g), []);
    assert DrainAll(Waiting(g)) == (Waiting(g), []);
    var none: seq<Seg> := [];
    assert none + none == none;
  }

  // The segment past the wrap sorts first and sweeps the waiting one away.
  lemma SecondSweeps(cfg: Config, s: seq<byte>, base: uint32, n: nat)
    requires SeqOf(base, n) == TWO_32 - 2 && n + 2 < |s|
    requires 2 <= cfg.maxStream && 2 <= cfg.maxMem && 0 < cfg.gapTimeout
    ensures
      var (a, b) := (Crossing(n)[0], Crossing(n)[1]);
      var d1 := Waiting(Seg(TWO_32 - 1, [s[a.p]]));
      && NearStep(n, b) && QuietStep(cfg, s, base, d1, n, b)
      && Step(cfg, s, base, d1, b) == (Waiting(Seg(0, [s[b.p]])), [])
  {
    var a, b := Crossing(n)[0], Crossing(n)[1];
    var d1 := Waiting(Seg(TWO_32 - 1, [s[a.p]]));
    var g := Carry(s, base, b.p, b.q);
    SeqAdd(base, n, 2);
    assert g == Seg(0, [s[b.p]]);
    OneByte(g);
    assert !Dominated(d1.ooo, g);
    assert CoveredTo(d1.ooo, 0, End(g)) == 1;
    assert Store(d1.ooo, g) == [g];
    assert Place(cfg, d1, g, 0, 0) == (Waiting(g), []);
    assert DrainAll(Waiting(g)) == (Waiting(g), []);
    var none: seq<Seg> := [];
    assert none + none == none;
  }

  lemma ThirdStops(cfg: Config, s: seq<byte>, base: uint32, n: nat)
    requires SeqOf(base, n) == TWO_32 - 2 && n + 2 < |s|
    requires 0 < cfg.gapTimeout
    ensures
      var (b, c) := (Crossing(n)[1], Crossing(n)[2]);
      var d2 := Waiting(Seg(0, [s[b.p]]));
      && NearStep(n, c) && QuietStep(cfg, s, base, d2, n, c)
      && Step(cfg, s, base, d2, c).1 == [Carry(s, base, n, n + 1)]
  {
    var b, c := Crossing(n)[1], Crossing(n)[2];
    var d2 := Waiting(Seg(0, [s[b.p]]));
    var g := Carry(s, base, c.p, c.q);
    assert End(g) == TWO_32 - 1;
    var one := [g];
    assert one + [] == one;
    assert DrainAll(d2.(nextSeq := TWO_32 - 1)).1 == [];
  }

  lemma CrossingLoses(cfg: Config, s: seq<byte>, base: uint32, n: nat) returns (run: seq<Arrival>)
    requires n <= |s| && !NoStraddle(base, n, |s|)
    requires 2 <= cfg.maxStream && 2 <= cfg.maxMem && 0 < cfg.gapTimeout
    ensures Carried(s, run) && Calm(cfg, s, base, Opened(base, n), n, run)
    ensures !Delivers(cfg, s, base, Opened(base, n), n, n, run)
  {
    hide Step, QuietStep, NearStep, Wrap32, Calm, Known, Run, Where;
    var m := n + TWO_32 - 1 - SeqOf(base, n + 1);
    StraddleAt(base, n, |s|);
    var d := Opened(base, n);
    SteadyRun(cfg, s, base, n, m);
    var run0, c := Steady(n, m), Crossing(m);
    FirstWaits(cfg, s, base, m);
    SecondSweeps(cfg, s, base, m);
    ThirdStops(cfg, s, base, m);
    WrapSmall(0);
    RunMore(cfg, s, base, d, n, run0, c[0]);
    var run1 := run0 + [c[0]];
    RunMore(cfg, s, base, d, n, run1, c[1]);
    var run2 := run1 + [c[1]];
    RunMore(cfg, s, base, d, n, run2, c[2]);
    run := run2 + [c[2]];
    FlattenNone();
    FlattenOne(Carry(s, base, m, m + 1));
    SliceJoin(s, n, m, m + 1);
    assert Flatten(Run(cfg, s, base, d, run).1) == s[n..m + 1];
    assert run[|run0|] == c[0];
    KnownAt(base, d, n, run, |run0|, m + 1);
    forall k: nat | FirstMissing(s, base, d, n, run, n, k) ensures s[n..m + 1] != s[n..k] {
      assert k != m + 1;
      assert |s[n..k]| == k - n;
    }
  }

  // Where the wrap is.
  lemma StraddleAt(base: uint32, n: nat, len: nat)
    requires n <= len && !NoStraddle(base, n, len)
    ensures var m := n + TWO_32 - 1 - SeqOf(base, n + 1); n <= m && m + 2 < len && SeqOf(base, m) == TWO_32 - 2
  {
  }

  // From position n on, every calm run delivers the longest contiguous prefix exactly when
  // what can be buffered does not straddle the wrap.
  lemma FaithfulIffNoStraddle(cfg: Config, s: seq<byte>, base: uint32, n: nat)
    requires n <= |s|
    requires 2 <= cfg.maxStream && 2 <= cfg.maxMem && 0 < cfg.gapTimeout
    ensures Faithful(cfg, s, base, Opened(base, n), n, n) <==> NoStraddle(base, n, |s|)
  {
    hide Calm, Delivers, NoStraddle, Exact;
    var d := Opened(base, n);
    OpenedExact(s, base, n);
    if NoStraddle(base, n, |s|) {
      forall run | Carried(s, run) && Calm(cfg, s, base, d, n, run) ensures Delivers(cfg, s, base, d, n, n, run) {
        NoStraddleInOrder(cfg, s, base, n, d, n, run);
        InOrderDelivers(cfg, s, base, d, n, run);
      }
    } else {
      var run := CrossingLoses(cfg, s, base, n);
    }
  }

  // ---- after a FIN

  // The byte at the FIN, which has passed it by.
  lemma OvertakenLost(cfg: Config, s: seq<byte>, base: uint32, d: Direction, n: nat) returns (run: seq<Arrival>)
    requires ExpectsAt(s, base, d, n) && Sized(d.ooo) && !d.finSeen && n < |s| && 0 < cfg.gapTimeout
    ensures Carried(s, run) && Calm(cfg, s, base, Fin(d, true), n + 1, run)
    ensures !Delivers(cfg, s, base, Fin(d, true), n + 1, n, run)
  {
    hide ExpectsAt, SeqOf, Buffered, Wrap32, Calm, Run, Where, Step, QuietStep, Received;
    var f := Fin(d, true);
    var a := Arrival(n, n + 1, false, 0, d.gapSince);
    FinNear(s, base, d, n);
    OvertakenCalm(cfg, s, base, f, n, a);
    var k, g, m := StepNear(cfg, s, base, f, n + 1, a);
    RunMore(cfg, s, base, f, n + 1, [], a);
    run := [] + [a];
    EmptyRun(cfg, s, base, f, n + 1);
    FlattenNone();
    PartsLength(s, n + 1, k, m);
    var w := n + 1;
    forall x | w <= x < m ensures Known(base, f, w, run, x) {
      assert Buffered(base, f, w, x);
    }
    forall v: nat | FirstMissing(s, base, f, n + 1, run, n, v) ensures Flatten(Run(cfg, s, base, f, run).1) != s[n..v] {
      assert run[0] == a;
      KnownAt(base, f, n + 1, run, 0, n);
      assert |s[n..v]| == v - n;
    }
  }

  lemma KnownAt(base: uint32, d: Direction, w: nat, run: seq<Arrival>, i: nat, x: nat)
    requires i < |run| && run[i].p <= x < run[i].q
    ensures Known(base, d, w, run, x)
  {
    hide Buffered;
  }

  lemma EmptyRun(cfg: Config, s: seq<byte>, base: uint32, d: Direction, w: nat)
    requires Sized(d.ooo)
    ensures Carried(s, []) && Calm(cfg, s, base, d, w, [])
    ensures Run(cfg, s, base, d, []) == (d, []) && Where(cfg, s, base, d, w, []) == w
  {
  }

  lemma OvertakenCalm(cfg: Config, s: seq<byte>, base: uint32, f: Direction, n: nat, a: Arrival)
    requires ExpectsAt(s, base, f, n + 1) && Sized(f.ooo) && f.finSeen && n < |s| && 0 < cfg.gapTimeout
    requires a == Arrival(n, n + 1, false, 0, f.gapSince)
    ensures CarriedOne(s, a) && NearStep(n + 1, a)
    ensures OrderlyStep(s, base, f, n + 1, a) && QuietStep(cfg, s, base, f, n + 1, a)
  {
    hide SeqOf, Chain, Ahead, Window;
    PlaceFrom(cfg, s, base, f, n + 1, n, n + 1, 0, f.gapSince);
    NearOrder(base, n + 1, n);
    NearOrder(base, n + 1, n + 1);
    CarryEnd(s, base, n, n + 1);
  }

  // A FIN taken where position n is expected leaves delivery exact, in every calm
  // continuation, exactly when the stream ends there.
  lemma FinFaithfulIff(cfg: Config, s: seq<byte>, base: uint32, d: Direction, n: nat)
    requires ExpectsAt(s, base, d, n) && Sized(d.ooo) && !d.finSeen && 0 < cfg.gapTimeout
    ensures Faithful(cfg, s, base, Fin(d, true), n + 1, n) <==> n == |s|
  {
    hide Calm, Delivers, InOrder, SeqOf, Chain, Ahead, Window;
    var f := Fin(d, true);
    FinNear(s, base, d, n);
    if n == |s| {
      forall run | Carried(s, run) && Calm(cfg, s, base, f, n + 1, run)
        ensures Delivers(cfg, s, base, f, n + 1, n, run)
      {
        EndedInOrder(cfg, s, base, f, run);
        InOrderDelivers(cfg, s, base, f, n + 1, run);
      }
    } else {
      var run := OvertakenLost(cfg, s, base, d, n);
    }
  }

  // After the end nothing is ahead of the stream.
  lemma {:induction false} EndedInOrder(cfg: Config, s: seq<byte>, base: uint32, f: Direction, run: seq<Arrival>)
    requires Sized(f.ooo) && Carried(s, run)
    ensures InOrder(cfg, s, base, f, |s| + 1, run)
  {
    hide Run, Where, Sized, Orderly, Wrap32;
    if run != [] {
      var p := run[..|run| - 1];
      EndedInOrder(cfg, s, base, f, p);
      WhereGrows(cfg, s, base, f, |s| + 1, p);
    }
  }

  lemma {:induction false} WhereGrows(cfg: Config, s: seq<byte>, base: uint32, d: Direction, w: nat, run: seq<Arrival>)
    requires Sized(d.ooo) && Carried(s, run)
    ensures w <= Where(cfg, s, base, d, w, run)
  {
    if run != [] {
      WhereGrows(cfg, s, base, d, w, run[..|run| - 1]);
    }
  }

  // Data on the opening SYN is taken one sequence number too low: its first byte is lost.
  lemma SynDataLosesByte(cfg: Config, isn: uint32, data: seq<byte>, mem: nat, now: uint64)
    requires |data| < TWO_31
    ensures var out := Segment(cfg, FRESH, Seg(isn, data), Flags(false, true, false), mem, now).1;
            Flatten(out) == if data == [] then [] else data[1..]
  {
    hide Wrap32, SeqOf, SeqLeq, SeqLt, Flatten, Store, Drain;
    FlattenNone();
    if data != [] {
      OriginSeq(isn);
      SeqAdd(isn, 0, 1);
      SeqAdd(isn, 0, |data|);
      NearOrder(isn, 1, 0);
      NearOrder(isn, 1, |data|);
      WrapDiff(isn, 1, 0);
      WrapSmall(1);
      FlattenOne(Seg(SeqOf(isn, 1), data[1..]));
      var none: seq<Seg> := [];
      assert none + none == none && [Seg(SeqOf(isn, 1), data[1..])] + none == [Seg(SeqOf(isn, 1), data[1..])];
    }
  }

  // The first segment of a direction, of whatever flags, sets where it starts: all its bytes
  // are delivered, less the one a SYN is taken to stand for, and SYN and FIN count as one each.
  lemma FirstSegment(cfg: Config, g: Seg, flags: Flags, mem: nat, now: uint64)
    requires |g.data| < TWO_31
    ensures
      var (d, out) := Segment(cfg, FRESH, g, flags, mem, now);
      && Flatten(out) == (if flags.syn && g.data != [] then g.data[1..] else g.data)
      && d.initialized && d.ooo == [] && d.finSeen == flags.fin
      && d.nextSeq ==
           (g.start + Max(|g.data|, if flags.syn then 1 else 0) + (if flags.fin then 1 else 0)) % 0x1_0000_0000
  {
    hide Wrap32, SeqLeq, SeqLt, Flatten, Store, Drain;
    var isn, data, k := g.start, g.data, if flags.syn then 1 else 0;
    FlattenNone();
    if data != [] {
      FirstOrder(isn, |data|, k);
      var rest := Seg(Wrap32(isn as int + k), data[k..]);
      FlattenOne(rest);
      FlattenOne(g);
      var none: seq<Seg> := [];
      assert [rest] + none == [rest] && [g] + none == [g];
      assert none + none == none && data[0..] == data;
    }
    NumberAfter(isn, |data|, k, if flags.fin then 1 else 0);
  }

  // The numbers of a first segment against the number expected after its SYN.
  lemma FirstOrder(isn: uint32, n: nat, k: nat)
    requires 0 < n < TWO_31 && k <= 1
    ensures SeqLeq(Wrap32(isn + n), Wrap32(isn + k)) <==> n <= k
    ensures SeqLt(isn, Wrap32(isn + k)) <==> k == 1
    ensures k == 0 ==> Wrap32(isn + k) == isn
    ensures Wrap32(Wrap32(isn + k) - isn) == k
  {
  }

  lemma NumberAfter(isn: uint32, n: nat, k: nat, f: nat)
    requires n < TWO_31 && k <= 1 && f <= 1
    ensures k <= n ==> Wrap32(Wrap32(isn + k) + (n - k)) == Wrap32(isn + n)
    ensures Wrap32(Wrap32(isn + Max(n, k)) + f) == (isn + Max(n, k) + f) % 0x1_0000_0000
    ensures Wrap32(isn + Max(n, k)) == (isn + Max(n, k)) % 0x1_0000_0000
  {
    hide Wrap32;
    if k <= n {
      WrapTwice(isn + k, n - k);
    }
    WrapTwice(isn + Max(n, k), f);
    WrapIs(isn + Max(n, k));
    WrapIs(isn + Max(n, k) + f);
  }

  lemma WrapTwice(a: nat, b: nat)
    ensures Wrap32(Wrap32(a) + b) == Wrap32(a + b)
  {
  }

  lemma WrapIs(a: nat)
    ensures Wrap32(a) == a % 0x1_0000_0000
  {
  }
}
