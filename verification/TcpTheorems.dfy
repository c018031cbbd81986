/** The stream theorems, over whole runs of one direction. */
module TcpTheorems {
  import opened Machine
  import opened TcpStream
  import opened TcpRuns
  import opened TcpExact
  import opened TcpWindow

  // A segment with s[p..q], possibly with FIN; mem is what all flows have
  // buffered at that moment.
  datatype Arrival = Arrival(p: nat, q: nat, fin: bool, mem: nat, now: uint64)

  predicate CarriedOne(s: seq<byte>, a: Arrival) {
    a.p <= a.q <= |s| && a.q - a.p < TWO_31
  }

  predicate Carried(s: seq<byte>, run: seq<Arrival>) {
    forall i :: 0 <= i < |run| ==> CarriedOne(s, run[i])
  }

  ghost function Step(cfg: Config, s: seq<byte>, base: uint32, d: Direction, a: Arrival): (Direction, seq<Seg>)
    requires CarriedOne(s, a) && Sized(d.ooo)
  {
    Segment(cfg, d, Carry(s, base, a.p, a.q), Flags(a.fin, false, false), a.mem, a.now)
  }

  // The state after a run and everything delivered on the way.
  ghost function Run(cfg: Config, s: seq<byte>, base: uint32, d: Direction, run: seq<Arrival>): (r: (Direction,
                     seq<Seg>))
    requires Carried(s, run) && Sized(d.ooo)
    ensures Sized(r.0.ooo)
  {
    if run == [] then (d, [])
    else
      var a := run[|run| - 1];
      var (d1, out) := Run(cfg, s, base, d, run[..|run| - 1]);
      SegmentSized(cfg, d1, Carry(s, base, a.p, a.q), Flags(a.fin, false, false), a.mem, a.now);
      var (d2, more) := Step(cfg, s, base, d1, a);
      (d2, out + more)
  }

  // ---- nothing comes twice ----

  // In a stream within half the sequence space, whatever the caps, the clock, the gaps
  // and the wrap do: delivered bytes are slices of the stream at strictly increasing
  // positions.
  lemma {:induction false} NothingTwice(cfg: Config, s: seq<byte>, base: uint32, d: Direction, n: nat,
                                        run: seq<Arrival>)
    returns (m: nat)
    requires StreamOk(s) && Carried(s, run) && Sized(d.ooo) && Expects(s, base, d, n)
    ensures var (d1, out) := Run(cfg, s, base, d, run);
            Expects(s, base, d1, m) && Increasing(s, base, n, out, m)
  {
    hide Segment, Increasing, Expects, Sized, Carry;
    if run == [] {
      m := n;
      ExpectsBounds(s, base, d, n);
      IncreasingNone(s, base, n, n);
    } else {
      var a := run[|run| - 1];
      var k := NothingTwice(cfg, s, base, d, n, run[..|run| - 1]);
      var (d1, out) := Run(cfg, s, base, d, run[..|run| - 1]);
      m := SegmentIncreasing(cfg, s, base, d1, k, a.p, a.q, Flags(a.fin, false, false), a.mem, a.now);
      IncreasingJoin(s, base, n, out, k, Step(cfg, s, base, d1, a).1, m);
    }
  }

  lemma ExpectsBounds(s: seq<byte>, base: uint32, d: Direction, n: nat)
    requires Expects(s, base, d, n)
    ensures n <= |s| + 1
  {
  }

  // A FIN that overtakes missing data moves past the next byte: whatever arrives
  // afterwards, that byte is never delivered.
  lemma EarlyFinLosesByte(cfg: Config, s: seq<byte>, base: uint32, d: Direction, n: nat, run: seq<Arrival>)
    returns (m: nat)
    requires StreamOk(s) && Carried(s, run) && Sized(d.ooo) && Expects(s, base, d, n) && !d.finSeen
    ensures Increasing(s, base, n + 1, Run(cfg, s, base, Fin(d, true), run).1, m)
  {
    SeqAdd(base, n, 1);
    m := NothingTwice(cfg, s, base, Fin(d, true), n + 1, run);
  }

  // ---- streams of any length ----

  // The position a run has come to that began at position n: how far the expected
  // sequence number has moved.
  ghost function Where(cfg: Config, s: seq<byte>, base: uint32, d: Direction, n: nat, run: seq<Arrival>): nat
    requires Carried(s, run) && Sized(d.ooo)
  {
    if run == [] then n
    else
      var p := run[..|run| - 1];
      Where(cfg, s, base, d, n, p) + Wrap32(Run(cfg, s, base, d, run).0.nextSeq - Run(cfg, s, base, d, p).0.nextSeq)
  }

  predicate NearStep(n: nat, a: Arrival) {
    a.p < a.q ==> Near(n, a.p, a.q)
  }

  // What is ahead of the stream has its raw number on the right side of those buffered.
  predicate OrderlyStep(s: seq<byte>, base: uint32, d: Direction, n: nat, a: Arrival)
    requires CarriedOne(s, a)
  {
    n < a.p < a.q ==> Orderly(d.nextSeq, d.ooo, Carry(s, base, a.p, a.q))
  }

  // Every segment is within half the sequence space of the position expected.
  ghost predicate Nearby(cfg: Config, s: seq<byte>, base: uint32, d: Direction, n: nat, run: seq<Arrival>)
    requires Carried(s, run) && Sized(d.ooo)
  {
    run != [] ==>
      var p := run[..|run| - 1];
      Nearby(cfg, s, base, d, n, p) && NearStep(Where(cfg, s, base, d, n, p), run[|run| - 1])
  }

  // At every step the raw numbers of the buffered segments come in stream order.
  ghost predicate InOrder(cfg: Config, s: seq<byte>, base: uint32, d: Direction, n: nat, run: seq<Arrival>)
    requires Carried(s, run) && Sized(d.ooo)
  {
    run != [] ==>
      var p := run[..|run| - 1];
      && InOrder(cfg, s, base, d, n, p)
      && OrderlyStep(s, base, Run(cfg, s, base, d, p).0, Where(cfg, s, base, d, n, p), run[|run| - 1])
  }

  function FinStep(d: Direction, a: Arrival): nat {
    if a.fin && !d.finSeen then 1 else 0
  }

  // Nothing is refused for lack of room, no gap times out, and a FIN comes only
  // when it leaves nothing missing.
  ghost predicate QuietStep(cfg: Config, s: seq<byte>, base: uint32, d: Direction, n: nat, a: Arrival)
    requires CarriedOne(s, a) && Sized(d.ooo)
  {
    var g := Carry(s, base, a.p, a.q);
    && (a.p < a.q ==> !Refused(cfg, d, g, a.mem) && !GapExpired(cfg, Place(cfg, d, g, a.mem, a.now).0, a.now))
    && (a.fin && !d.finSeen ==> n + |Flatten(Data(cfg, d, g, a.mem, a.now).1)| == |s|)
  }

  ghost predicate Quiet(cfg: Config, s: seq<byte>, base: uint32, d: Direction, n: nat, run: seq<Arrival>)
    requires Carried(s, run) && Sized(d.ooo)
  {
    run != [] ==>
      var p := run[..|run| - 1];
      && Quiet(cfg, s, base, d, n, p)
      && QuietStep(cfg, s, base, Run(cfg, s, base, d, p).0, Where(cfg, s, base, d, n, p), run[|run| - 1])
  }

  ghost predicate Calm(cfg: Config, s: seq<byte>, base: uint32, d: Direction, n: nat, run: seq<Arrival>)
    requires Carried(s, run) && Sized(d.ooo)
  {
    Nearby(cfg, s, base, d, n, run) && Quiet(cfg, s, base, d, n, run)
  }

  lemma StepNear(cfg: Config, s: seq<byte>, base: uint32, d: Direction, n: nat, a: Arrival)
    returns (k: nat, g: nat, m: nat)
    requires CarriedOne(s, a) && Sized(d.ooo) && ExpectsAt(s, base, d, n)
    requires NearStep(n, a) && OrderlyStep(s, base, d, n, a)
    ensures
      var (d1, out) := Step(cfg, s, base, d, a);
      var v := m + FinStep(d, a);
      && ExpectsAt(s, base, d1, v) && Wrap32(d1.nextSeq - d.nextSeq) == v - n
      && d1.finSeen == (d.finSeen || a.fin)
      && n <= k <= g <= m <= Max(n, |s|) && Flatten(out) == Part(s, n, k) + Part(s, g, m)
      && (QuietStep(cfg, s, base, d, n, a) ==>
            g == k && Accounted(base, d, n, d1, v, m, a.p, a.q) && (FinStep(d, a) == 1 ==> m == |s|))
  {
    hide Chain, Ahead, Window, Refused, GapExpired, Place, Sized, Buffered, Flatten, Data, Near, SeqOf, Orderly, Wrap32;
    var f := Carry(s, base, a.p, a.q);
    var (d1, out) := Data(cfg, d, f, a.mem, a.now);
    if a.p < a.q {
      k, g, m := DataNear(cfg, s, base, d, n, a.p, a.q, a.mem, a.now);
      PartsLength(s, n, k, m);
    } else {
      k, g, m := n, n, n;
      NoData(cfg, s, base, d, n, a.p, a.mem, a.now);
    }
    MovedSeq(s, base, d, n, d1, m);
    if FinStep(d, a) == 1 {
      FinNear(s, base, d1, m);
      MovedSeq(s, base, d, n, Fin(d1, true), m + 1);
    }
  }

  lemma PartsLength(s: seq<byte>, n: nat, k: nat, m: nat)
    requires n <= k <= m <= Max(n, |s|)
    ensures |Part(s, n, k) + Part(s, k, m)| == m - n
  {
  }

  lemma NoData(cfg: Config, s: seq<byte>, base: uint32, d: Direction, n: nat, p: nat, mem: nat, now: uint64)
    requires ExpectsAt(s, base, d, n) && p <= |s| && Sized(d.ooo)
    ensures var (d1, out) := Data(cfg, d, Carry(s, base, p, p), mem, now);
            Moved(s, base, d, n, d1, out, n, n, n) && Accounted(base, d, n, d1, n, n, p, p)
    ensures Flatten(Data(cfg, d, Carry(s, base, p, p), mem, now).1) == []
  {
    hide Chain, Ahead, SeqOf, Buffered, Window;
    FlattenNone();
    assert Part(s, n, n) + Part(s, n, n) == [];
  }

  lemma MovedSeq(s: seq<byte>, base: uint32, d: Direction, n: nat, d1: Direction, m: nat)
    requires ExpectsAt(s, base, d, n) && ExpectsAt(s, base, d1, m) && n <= m <= n + REACH + 1
    ensures Wrap32(d1.nextSeq - d.nextSeq) == m - n
  {
    hide Chain, Ahead, SeqOf;
    WrapDiff(base, m, n);
    WrapSmall(m - n);
  }

  // ---- positions rise ----

  datatype Range = Range(lo: nat, hi: nat)

  function Text(s: seq<byte>, ranges: seq<Range>): seq<byte> {
    if ranges == [] then []
    else var r := ranges[|ranges| - 1]; Text(s, ranges[..|ranges| - 1]) + Part(s, r.lo, r.hi)
  }

  // The ranges lie between n and m, one after the other.
  predicate Rising(n: nat, ranges: seq<Range>, m: nat) {
    if ranges == [] then n <= m
    else
      var r := ranges[|ranges| - 1];
      Rising(n, ranges[..|ranges| - 1], r.lo) && r.lo <= r.hi <= m
  }

  lemma RisingMore(s: seq<byte>, n: nat, ranges: seq<Range>, lo: nat, hi: nat)
    requires Rising(n, ranges, lo) && lo <= hi
    ensures Rising(n, ranges + [Range(lo, hi)], hi)
    ensures Text(s, ranges + [Range(lo, hi)]) == Text(s, ranges) + Part(s, lo, hi)
  {
    assert (ranges + [Range(lo, hi)])[..|ranges|] == ranges;
  }

  lemma RisingFurther(n: nat, ranges: seq<Range>, m: nat, v: nat)
    requires Rising(n, ranges, m) && m <= v
    ensures Rising(n, ranges, v)
  {
  }

  // In a stream of any length, with full caps, expired gaps and early FINs: what is
  // delivered are ranges of the stream one after the other.
  lemma {:induction false} NothingTwiceNear(cfg: Config, s: seq<byte>, base: uint32, d: Direction, n: nat,
                                            run: seq<Arrival>)
    returns (ranges: seq<Range>)
    requires Carried(s, run) && Sized(d.ooo) && ExpectsAt(s, base, d, n)
    requires Nearby(cfg, s, base, d, n, run) && InOrder(cfg, s, base, d, n, run)
    ensures
      var ((d1, out), v) := (Run(cfg, s, base, d, run), Where(cfg, s, base, d, n, run));
      && ExpectsAt(s, base, d1, v) && Flatten(out) == Text(s, ranges) && Rising(n, ranges, v)
  {
    hide Step, ExpectsAt, Sized, NearStep, OrderlyStep, CarriedOne, Flatten, Rising, Text, Part, Wrap32, QuietStep;
    if run == [] {
      ranges := [];
      FlattenNone();
      RisingNone(s, n);
    } else {
      var p, a := run[..|run| - 1], run[|run| - 1];
      var r0 := NothingTwiceNear(cfg, s, base, d, n, p);
      var (d1, out) := Run(cfg, s, base, d, p);
      var w := Where(cfg, s, base, d, n, p);
      var k, g, m := StepNear(cfg, s, base, d1, w, a);
      FlattenJoin(out, Step(cfg, s, base, d1, a).1);
      RisingMore(s, n, r0, w, k);
      var r1 := r0 + [Range(w, k)];
      RisingFurther(n, r1, k, g);
      RisingMore(s, n, r1, g, m);
      ranges := r1 + [Range(g, m)];
      RisingFurther(n, ranges, m, m + FinStep(d1, a));
    }
  }

  lemma RisingNone(s: seq<byte>, n: nat)
    ensures Rising(n, [], n) && Text(s, []) == []
  {
  }

  // ---- the longest contiguous prefix ----

  ghost predicate Received(run: seq<Arrival>, x: int) {
    exists i :: 0 <= i < |run| && run[i].p <= x < run[i].q
  }

  // Byte x was buffered when d expected position w, or has been received since.
  ghost predicate Known(base: uint32, d: Direction, w: nat, run: seq<Arrival>, x: int) {
    Buffered(base, d, w, x) || Received(run, x)
  }

  // n is the first position from n0 on that is not known.
  ghost predicate FirstMissing(s: seq<byte>, base: uint32, d: Direction, w: nat, run: seq<Arrival>, n0: nat, n: nat) {
    && n0 <= n <= |s|
    && (forall x :: n0 <= x < n ==> Known(base, d, w, run, x))
    && (n < |s| ==> !Known(base, d, w, run, n))
  }

  lemma ReceivedSnoc(run: seq<Arrival>)
    requires run != []
    ensures var a := run[|run| - 1];
            forall x :: Received(run, x) <==> Received(run[..|run| - 1], x) || a.p <= x < a.q
  {
    var p, a := run[..|run| - 1], run[|run| - 1];
    forall x ensures Received(run, x) <==> Received(p, x) || a.p <= x < a.q {
      if Received(p, x) {
        var i :| 0 <= i < |p| && p[i].p <= x < p[i].q;
        assert run[i] == p[i];
      }
      if Received(run, x) {
        var i :| 0 <= i < |run| && run[i].p <= x < run[i].q;
        assert i < |p| ==> p[i] == run[i];
      }
    }
  }

  // d expects position w, and no FIN has come before the end of the stream.
  ghost predicate Exact(s: seq<byte>, base: uint32, d: Direction, w: nat) {
    ExpectsAt(s, base, d, w) && (d.finSeen ==> w == |s| + 1)
  }

  // Delivery is the longest contiguous prefix of what is known, in a stream of any
  // length: for any order, duplication and overlap of segments, at every moment of a calm run.
  lemma {:induction false} LongestPrefix(cfg: Config, s: seq<byte>, base: uint32, d: Direction, w: nat,
                                         run: seq<Arrival>)
    requires Carried(s, run) && Sized(d.ooo) && Exact(s, base, d, w)
    requires Calm(cfg, s, base, d, w, run) && InOrder(cfg, s, base, d, w, run)
    ensures
      var ((d1, out), v) := (Run(cfg, s, base, d, run), Where(cfg, s, base, d, w, run));
      var (n0, n) := (Min(w, |s|), Min(v, |s|));
      && w <= v && Exact(s, base, d1, v)
      && FirstMissing(s, base, d, w, run, n0, n) && Flatten(out) == s[n0..n]
      && (forall x :: n <= x ==> (Buffered(base, d1, v, x) <==> Known(base, d, w, run, x)))
  {
    hide Step, Sized, NearStep, OrderlyStep, Flatten, Wrap32, QuietStep, ExpectsAt, Buffered, Known, Accounted,
      Part;
    if run == [] {
      FlattenNone();
      KnownAtFirst(base, d, w);
      NotYet(s, base, d, w);
    } else {
      var p, a := run[..|run| - 1], run[|run| - 1];
      LongestPrefix(cfg, s, base, d, w, p);
      var (d1, out) := Run(cfg, s, base, d, p);
      var v := Where(cfg, s, base, d, w, p);
      var k, g, m := StepNear(cfg, s, base, d1, v, a);
      FlattenJoin(out, Step(cfg, s, base, d1, a).1);
      NotYet(s, base, d1, v);
      NotYet(s, base, Step(cfg, s, base, d1, a).0, m + FinStep(d1, a));
      PartsJoin(s, Min(w, |s|), v, k, m);
      var v1 := m + FinStep(d1, a);
      var d2 := Step(cfg, s, base, d1, a).0;
      KnownSnoc(s, base, d, w, run, d1, v, d2, v1, m);
    }
  }

  lemma KnownAtFirst(base: uint32, d: Direction, w: nat)
    ensures forall x :: Known(base, d, w, [], x) <==> Buffered(base, d, w, x)
  {
  }

  // What is known after one more segment.
  lemma KnownSnoc(s: seq<byte>, base: uint32, d: Direction, w: nat, run: seq<Arrival>, d1: Direction, v: nat,
                  d2: Direction, v1: nat, m: nat)
    requires run != [] && CarriedOne(s, run[|run| - 1]) && w <= v <= m
    requires var a := run[|run| - 1]; Accounted(base, d1, v, d2, v1, m, a.p, a.q)
    requires var p := run[..|run| - 1];
             && (forall x :: Min(w, |s|) <= x < Min(v, |s|) ==> Known(base, d, w, p, x))
             && (forall x :: Min(v, |s|) <= x ==> (Buffered(base, d1, v, x) <==> Known(base, d, w, p, x)))
    requires |s| < m ==> forall x :: |s| <= x ==> !Buffered(base, d1, v, x) && !Buffered(base, d2, v1, x)
    ensures forall x :: Min(w, |s|) <= x < Min(m, |s|) ==> Known(base, d, w, run, x)
    ensures forall x :: Min(m, |s|) <= x ==> (Buffered(base, d2, v1, x) <==> Known(base, d, w, run, x))
  {
    hide Buffered, Received;
    var p := run[..|run| - 1];
    ReceivedSnoc(run);
    forall x | Min(w, |s|) <= x < Min(m, |s|) ensures Known(base, d, w, run, x) {
      assert Known(base, d, w, p, x) <==> x < v || Buffered(base, d1, v, x);
    }
    forall x | Min(m, |s|) <= x ensures Buffered(base, d2, v1, x) <==> Known(base, d, w, run, x) {
      assert Buffered(base, d1, v, x) <==> Known(base, d, w, p, x);
    }
  }

  lemma PartsJoin(s: seq<byte>, n: nat, v: nat, k: nat, m: nat)
    requires n <= Min(v, |s|) && v <= k <= m <= Max(v, |s|)
    ensures s[n..Min(v, |s|)] + (Part(s, v, k) + Part(s, k, m)) == s[n..Min(m, |s|)]
  {
  }

  // The position expected is not buffered.
  lemma NotYet(s: seq<byte>, base: uint32, d: Direction, w: nat)
    requires Exact(s, base, d, w)
    ensures w < |s| ==> !Buffered(base, d, w, w)
    ensures w <= |s| + if d.finSeen then 1 else 0
    ensures forall x :: |s| <= x ==> !Buffered(base, d, w, x)
    ensures forall x :: !Received([], x)
  {
  }
}
