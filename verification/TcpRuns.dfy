/**
 * Runs of one direction over the segments of one stream. The stream is s, its
 * first byte has sequence number base, and a segment carries s[p..q].
 */
module TcpRuns {
  import opened Machine
  import opened TcpStream

  function SeqOf(base: uint32, p: nat): uint32 {
    Wrap32(base + p)
  }

  // Position in the stream of a sequence number.
  function Pos(base: uint32, n: uint32): nat {
    Wrap32(n - base)
  }

  function Lo(base: uint32, g: Seg): nat {
    Pos(base, g.start)
  }

  function Hi(base: uint32, g: Seg): nat {
    Lo(base, g) + |g.data|
  }

  ghost predicate IsSlice(s: seq<byte>, base: uint32, g: Seg) {
    0 < |g.data| && Hi(base, g) <= |s| && g.data == s[Lo(base, g)..Hi(base, g)]
  }

  lemma PosOfSeq(base: uint32, p: nat)
    requires p < TWO_32
    ensures Pos(base, SeqOf(base, p)) == p
  {
  }

  lemma SeqOfPos(base: uint32, n: uint32)
    ensures SeqOf(base, Pos(base, n)) == n
  {
  }

  // Within half the sequence space the wrapped comparison is the order of positions.
  lemma SeqOrder(base: uint32, p: nat, q: nat)
    requires p <= TWO_31 - 1 && q <= TWO_31 - 1
    ensures SeqLeq(SeqOf(base, p), SeqOf(base, q)) <==> p <= q
    ensures SeqLt(SeqOf(base, p), SeqOf(base, q)) <==> p < q
    ensures SeqOf(base, p) == SeqOf(base, q) <==> p == q
  {
    WrapDiff(base, p, q);
  }

  lemma WrapDiff(base: uint32, p: nat, q: nat)
    ensures Wrap32(SeqOf(base, p) - SeqOf(base, q)) == Wrap32(p - q)
  {
  }

  // Half the sequence space. Where a stream has to fit it, the stream can be a window of a
  // longer one, with base the number of its first byte.
  const REACH: nat := TWO_31 - 2

  predicate StreamOk(s: seq<byte>) {
    |s| <= REACH
  }

  lemma SegEnds(base: uint32, g: Seg)
    ensures g.start == SeqOf(base, Lo(base, g)) && End(g) == SeqOf(base, Hi(base, g))
  {
    hide Wrap32, Pos;
    SeqOfPos(base, g.start);
    SeqAdd(base, Lo(base, g), |g.data|);
  }

  // ---- whatever happens, no byte is delivered twice ----

  // The pieces are slices of the stream at increasing positions, from n up to m.
  ghost predicate Increasing(s: seq<byte>, base: uint32, n: nat, out: seq<Seg>, m: nat)
    decreases |out|
  {
    if out == [] then n <= m
    else n <= Lo(base, out[0]) && IsSlice(s, base, out[0]) && Increasing(s, base, Hi(base, out[0]), out[1..], m)
  }

  lemma {:induction false} IncreasingJoin(s: seq<byte>, base: uint32, n: nat, a: seq<Seg>, m: nat, b: seq<Seg>, l: nat)
    requires Increasing(s, base, n, a, m) && Increasing(s, base, m, b, l)
    ensures Increasing(s, base, n, a + b, l)
    decreases |a|
  {
    if a == [] {
      assert a + b == b;
      IncreasingFrom(s, base, n, m, b, l);
    } else {
      IncreasingJoin(s, base, Hi(base, a[0]), a[1..], m, b, l);
      assert (a + b)[1..] == a[1..] + b;
    }
  }

  lemma {:induction false} IncreasingFrom(s: seq<byte>, base: uint32, n: nat, m: nat, b: seq<Seg>, l: nat)
    requires n <= m && Increasing(s, base, m, b, l)
    ensures Increasing(s, base, n, b, l)
  {
  }

  ghost predicate Slices(s: seq<byte>, base: uint32, ooo: seq<Seg>) {
    forall i :: 0 <= i < |ooo| ==> IsSlice(s, base, ooo[i])
  }

  lemma SlicesSized(s: seq<byte>, base: uint32, ooo: seq<Seg>)
    requires StreamOk(s) && Slices(s, base, ooo)
    ensures Sized(ooo)
  {
  }

  // A piece of a slice is a slice.
  lemma SubSlice(s: seq<byte>, base: uint32, g: Seg, n: nat)
    requires StreamOk(s) && IsSlice(s, base, g) && Lo(base, g) <= n < Hi(base, g)
    ensures Wrap32(SeqOf(base, n) - g.start) == n - Lo(base, g)
    ensures var piece := Seg(SeqOf(base, n), g.data[n - Lo(base, g)..]);
            IsSlice(s, base, piece) && Lo(base, piece) == n && Hi(base, piece) == Hi(base, g)
  {
    hide Wrap32;
    SegEnds(base, g);
    assert Wrap32(SeqOf(base, n) - g.start) == n - Lo(base, g) by {
      WrapDiff(base, n, Lo(base, g));
      WrapSmall(n - Lo(base, g));
    }
    PosOfSeq(base, n);
    SliceOfSlice(s, Lo(base, g), Hi(base, g), n);
  }

  lemma WrapSmall(x: nat)
    requires x < TWO_32
    ensures Wrap32(x) == x
  {
  }

  lemma SliceOfSlice(s: seq<byte>, lo: nat, hi: nat, n: nat)
    requires lo <= n <= hi <= |s|
    ensures s[lo..hi][n - lo..] == s[n..hi]
  {
  }

  lemma {:induction false} DrainIncreasing(s: seq<byte>, base: uint32, ooo: seq<Seg>, n: nat)
    requires StreamOk(s) && Slices(s, base, ooo) && Sized(ooo) && n <= |s| + 1
    ensures var (rest, e, out) := Drain(ooo, SeqOf(base, n));
            && Slices(s, base, rest)
            && exists m: nat :: n <= m <= Max(n, |s|) && e == SeqOf(base, m) && Increasing(s, base, n, out, m)
    decreases |ooo|
  {
    if ooo == [] || !SeqLeq(ooo[0].start, SeqOf(base, n)) {
    } else {
      var g := ooo[0];
      assert IsSlice(s, base, g);
      SegEnds(base, g);
      SeqOrder(base, Lo(base, g), n);
      SeqOrder(base, n, Hi(base, g));
      if n < Hi(base, g) {
        SubSlice(s, base, g, n);
        DrainIncreasing(s, base, ooo[1..], Hi(base, g));
      } else {
        DrainIncreasing(s, base, ooo[1..], n);
      }
    }
  }

  // The state of a direction of stream s that expects position n next.
  ghost predicate Expects(s: seq<byte>, base: uint32, d: Direction, n: nat) {
    && d.initialized && Slices(s, base, d.ooo)
    && d.nextSeq == SeqOf(base, n) && n <= |s| + if d.finSeen then 1 else 0
  }

  function Carry(s: seq<byte>, base: uint32, p: nat, q: nat): Seg
    requires p <= q <= |s|
  {
    Seg(SeqOf(base, p), s[p..q])
  }

  lemma CarrySlice(s: seq<byte>, base: uint32, p: nat, q: nat)
    requires StreamOk(s) && p < q <= |s|
    ensures IsSlice(s, base, Carry(s, base, p, q))
    ensures Lo(base, Carry(s, base, p, q)) == p && Hi(base, Carry(s, base, p, q)) == q
    ensures End(Carry(s, base, p, q)) == SeqOf(base, q)
  {
    PosOfSeq(base, p);
    SegEnds(base, Carry(s, base, p, q));
  }

  lemma IncreasingOne(s: seq<byte>, base: uint32, n: nat, g: Seg, m: nat)
    requires IsSlice(s, base, g) && n <= Lo(base, g) && Hi(base, g) <= m
    ensures Increasing(s, base, n, [g], m)
  {
    assert [g][1..] == [];
  }

  lemma SeqAdd(base: uint32, n: nat, k: nat)
    ensures Wrap32(SeqOf(base, n) + k) == SeqOf(base, n + k)
  {
  }

  lemma StoreSlices(s: seq<byte>, base: uint32, ooo: seq<Seg>, g: Seg)
    requires Slices(s, base, ooo) && IsSlice(s, base, g)
    ensures Slices(s, base, Store(ooo, g))
  {
    hide IsSlice, Dominated;
  }

  lemma PlaceIncreasing(cfg: Config, s: seq<byte>, base: uint32, d: Direction, n: nat, p: nat, q: nat, mem: nat,
                        now: uint64)
    returns (m: nat)
    requires StreamOk(s) && Expects(s, base, d, n) && p < q <= |s|
    ensures var (d1, out) := Place(cfg, d, Carry(s, base, p, q), mem, now);
            Expects(s, base, d1, m) && Increasing(s, base, n, out, m)
  {
    hide Wrap32, SeqLeq, SeqLt, SeqOf, IsSlice, Store, Dominated, Full, Lo, Hi, Increasing, Slices;
    var g := Carry(s, base, p, q);
    CarrySlice(s, base, p, q);
    SeqOrder(base, q, n);
    SeqOrder(base, p, n);
    if q <= n {
      m := n;
      IncreasingNone(s, base, n, m);
    } else if p < n {
      m := q;
      SubSlice(s, base, g, n);
      IncreasingOne(s, base, n, Seg(SeqOf(base, n), g.data[n - p..]), q);
      SeqAdd(base, n, q - n);
    } else if p == n {
      m := q;
      IncreasingOne(s, base, n, g, q);
    } else {
      m := n;
      StoreSlices(s, base, d.ooo, g);
      IncreasingNone(s, base, n, m);
    }
  }

  lemma IncreasingNone(s: seq<byte>, base: uint32, n: nat, m: nat)
    requires n <= m
    ensures Increasing(s, base, n, [], m)
  {
  }

  lemma SkipIncreasing(cfg: Config, s: seq<byte>, base: uint32, d: Direction, n: nat, now: uint64) returns (m: nat)
    requires StreamOk(s) && Expects(s, base, d, n)
    ensures n <= m && Expects(s, base, SkipGap(cfg, d, now), m)
  {
    m := n;
    if GapExpired(cfg, d, now) {
      var g := d.ooo[0];
      assert IsSlice(s, base, g);
      m := Lo(base, g);
      SegEnds(base, g);
      SeqOrder(base, n, m);
    }
  }

  lemma DrainAllIncreasing(s: seq<byte>, base: uint32, d: Direction, n: nat) returns (m: nat)
    requires StreamOk(s) && Expects(s, base, d, n) && Sized(d.ooo)
    ensures var (d1, out) := DrainAll(d); Expects(s, base, d1, m) && Increasing(s, base, n, out, m)
  {
    m := n;
    if d.ooo != [] {
      DrainIncreasing(s, base, d.ooo, n);
      var (rest, e, out) := Drain(d.ooo, d.nextSeq);
      m :| n <= m <= Max(n, |s|) && e == SeqOf(base, m) && Increasing(s, base, n, out, m);
    }
  }

  // One segment of the stream, whatever the caps, the clock and the buffer:
  // what is delivered are slices further on in the stream.
  lemma SegmentIncreasing(cfg: Config, s: seq<byte>, base: uint32, d: Direction, n: nat, p: nat, q: nat,
                          flags: Flags, mem: nat, now: uint64) returns (m: nat)
    requires StreamOk(s) && Expects(s, base, d, n) && p <= q <= |s| && Sized(d.ooo)
    ensures var (d1, out) := Segment(cfg, d, Carry(s, base, p, q), flags, mem, now);
            Expects(s, base, d1, m) && Increasing(s, base, n, out, m)
  {
    hide Wrap32, Place, SkipGap, DrainAll, Increasing, Slices, Sized, SeqOf;
    m := n;
    DataKeepsFin(cfg, d, Carry(s, base, p, q), mem, now);
    if p < q {
      var g := Carry(s, base, p, q);
      var a := PlaceIncreasing(cfg, s, base, d, n, p, q, mem, now);
      var (d1, out1) := Place(cfg, d, g, mem, now);
      var b := SkipIncreasing(cfg, s, base, d1, a, now);
      var d2 := SkipGap(cfg, d1, now);
      SlicesSized(s, base, d2.ooo);
      m := DrainAllIncreasing(s, base, d2, b);
      IncreasingFrom(s, base, a, b, DrainAll(d2).1, m);
      IncreasingJoin(s, base, n, out1, a, DrainAll(d2).1, m);
    } else {
      IncreasingNone(s, base, n, m);
    }
    if flags.fin && !d.finSeen {
      SeqAdd(base, m, 1);
      IncreasingMore(s, base, n, Segment(cfg, d, Carry(s, base, p, q), flags, mem, now).1, m);
      m := m + 1;
    }
  }

  lemma DataKeepsFin(cfg: Config, d: Direction, g: Seg, mem: nat, now: uint64)
    requires Sized(d.ooo) && |g.data| < TWO_31
    ensures Data(cfg, d, g, mem, now).0.finSeen == d.finSeen
    ensures Data(cfg, d, g, mem, now).0.initialized == d.initialized
  {
  }

  lemma {:induction false} IncreasingMore(s: seq<byte>, base: uint32, n: nat, out: seq<Seg>, m: nat)
    requires Increasing(s, base, n, out, m)
    ensures Increasing(s, base, n, out, m + 1)
    decreases |out|
  {
    if out != [] {
      IncreasingMore(s, base, Hi(base, out[0]), out[1..], m);
    }
  }
}
