/**
 * A direction of a stream of any length. What it can buffer lies within half the
 * sequence space of the position it expects, so each step is one of the window of
 * the stream that begins there.
 */
module TcpWindow {
  import opened Machine
  import opened TcpStream
  import opened TcpRuns
  import opened TcpExact

  function Window(s: seq<byte>, n: nat): (w: seq<byte>)
    ensures StreamOk(w)
  {
    if n <= |s| then s[n..Min(|s|, n + REACH)] else []
  }

  // d expects position n of the stream next; a FIN counts as one position. Nothing
  // buffered is due already.
  ghost predicate ExpectsAt(s: seq<byte>, base: uint32, d: Direction, n: nat) {
    && d.initialized && d.nextSeq == SeqOf(base, n)
    && n <= |s| + (if d.finSeen then 1 else 0)
    && Chain(Window(s, n), SeqOf(base, n), d.ooo)
    && (!d.finSeen ==> Ahead(SeqOf(base, n), d.ooo, 0))
  }

  // d, which expects position n, has byte x of the stream buffered.
  ghost predicate Buffered(base: uint32, d: Direction, n: nat, x: int) {
    Holds(SeqOf(base, n), d.ooo, x - n)
  }

  // The segment [p, q) is no further from position n than sequence numbers can tell.
  predicate Near(n: nat, p: nat, q: nat) {
    n <= p + TWO_31 && q <= n + REACH
  }

  // ---- moving the window ----

  lemma LaterLo(base: uint32, n: nat, k: nat, g: Seg)
    requires k <= Lo(SeqOf(base, n), g)
    ensures Lo(SeqOf(base, n + k), g) == Lo(SeqOf(base, n), g) - k
  {
    var y := Lo(SeqOf(base, n), g);
    WrapOfWrap(g.start, base + n);
    WrapOfWrap(g.start, base + n + k);
    WrapShift(g.start - base - n, k);
  }

  lemma WrapOfWrap(a: int, b: int)
    ensures Wrap32(a - Wrap32(b)) == Wrap32(a - b)
  {
  }

  lemma WrapShift(a: int, k: nat)
    requires k <= Wrap32(a)
    ensures Wrap32(a - k) == Wrap32(a) - k
  {
  }

  lemma LaterSlice(s: seq<byte>, base: uint32, n: nat, k: nat, g: Seg)
    requires IsSlice(Window(s, n), SeqOf(base, n), g) && k <= Lo(SeqOf(base, n), g)
    ensures IsSlice(Window(s, n + k), SeqOf(base, n + k), g)
    ensures Lo(SeqOf(base, n + k), g) == Lo(SeqOf(base, n), g) - k
  {
    hide SeqOf, Pos, Window;
    var lo, hi := Lo(SeqOf(base, n), g), Hi(SeqOf(base, n), g);
    LaterLo(base, n, k, g);
    WindowSize(s, n);
    WindowHolds(s, n, hi);
    WindowSlice(s, n, lo, hi);
    WindowSlice(s, n + k, lo - k, hi - k);
  }

  lemma WindowHolds(s: seq<byte>, n: nat, hi: nat)
    requires 0 < hi <= |Window(s, n)|
    ensures n + hi <= |s|
  {
  }

  lemma SliceIn(s: seq<byte>, a: nat, b: nat, lo: nat, hi: nat)
    requires a <= b <= |s| && lo <= hi <= b - a
    ensures s[a..b][lo..hi] == s[a + lo..a + hi]
  {
    var w := s[a..b];
    assert forall i :: lo <= i < hi ==> w[lo..hi][i - lo] == w[i] == s[a + i];
  }

  lemma WindowSlice(s: seq<byte>, n: nat, lo: nat, hi: nat)
    requires lo <= hi <= REACH && n + hi <= |s|
    ensures hi <= |Window(s, n)| && Window(s, n)[lo..hi] == s[n + lo..n + hi]
  {
    SliceIn(s, n, Min(|s|, n + REACH), lo, hi);
  }

  lemma LaterWindow(s: seq<byte>, base: uint32, n: nat, k: nat, ooo: seq<Seg>)
    requires Chain(Window(s, n), SeqOf(base, n), ooo)
    requires forall i :: 0 <= i < |ooo| ==> k <= Lo(SeqOf(base, n), ooo[i])
    ensures Chain(Window(s, n + k), SeqOf(base, n + k), ooo)
    ensures forall i :: 0 <= i < |ooo| ==> Lo(SeqOf(base, n + k), ooo[i]) == Lo(SeqOf(base, n), ooo[i]) - k
    ensures forall x :: Holds(SeqOf(base, n + k), ooo, x - k) <==> Holds(SeqOf(base, n), ooo, x)
  {
    hide SeqOf, Lo, IsSlice, Window;
    forall i | 0 <= i < |ooo|
      ensures IsSlice(Window(s, n + k), SeqOf(base, n + k), ooo[i])
      ensures Lo(SeqOf(base, n + k), ooo[i]) == Lo(SeqOf(base, n), ooo[i]) - k
    {
      LaterSlice(s, base, n, k, ooo[i]);
    }
    forall x ensures Holds(SeqOf(base, n + k), ooo, x - k) <==> Holds(SeqOf(base, n), ooo, x) {
      if Holds(SeqOf(base, n), ooo, x) {
        var i :| 0 <= i < |ooo| && Lo(SeqOf(base, n), ooo[i]) <= x < Hi(SeqOf(base, n), ooo[i]);
        assert Lo(SeqOf(base, n + k), ooo[i]) <= x - k < Hi(SeqOf(base, n + k), ooo[i]);
      }
    }
  }

  lemma SeqFrom(base: uint32, n: nat, k: nat)
    ensures SeqOf(SeqOf(base, n), k) == SeqOf(base, n + k)
  {
  }

  // ---- one segment in the window ----

  lemma CarryLater(s: seq<byte>, base: uint32, n: nat, p: nat, q: nat)
    requires n <= p <= q <= |s| && q <= n + REACH
    ensures Carry(s, base, p, q) == Carry(Window(s, n), SeqOf(base, n), p - n, q - n)
  {
    SeqAdd(base, n, p - n);
    WindowSlice(s, n, p - n, q - n);
  }

  // Near n the wrapped comparison is the order of positions.
  lemma NearOrder(base: uint32, n: nat, p: nat)
    requires n <= p + TWO_31 && p <= n + REACH
    ensures SeqLt(SeqOf(base, p), SeqOf(base, n)) <==> p < n
    ensures SeqLeq(SeqOf(base, p), SeqOf(base, n)) <==> p <= n
    ensures SeqOf(base, p) == SeqOf(base, n) <==> p == n
  {
    WrapDiff(base, p, n);
    WrapNear(p - n);
  }

  lemma WrapNear(x: int)
    requires -TWO_31 <= x <= REACH
    ensures Wrap32(x) == if x < 0 then x + TWO_32 else x
  {
  }

  lemma CarryEnd(s: seq<byte>, base: uint32, p: nat, q: nat)
    requires p <= q <= |s|
    ensures End(Carry(s, base, p, q)) == SeqOf(base, q)
  {
    SeqAdd(base, p, q - p);
  }

  // A segment that begins before the expected position counts from there on.
  lemma PlaceFrom(cfg: Config, s: seq<byte>, base: uint32, d: Direction, n: nat, p: nat, q: nat, mem: nat, now: uint64)
    requires d.nextSeq == SeqOf(base, n) && p < q <= |s| && q - p < TWO_31 && Near(n, p, q)
    ensures q <= n ==> Place(cfg, d, Carry(s, base, p, q), mem, now) == (d, [])
    ensures p < n < q ==> Place(cfg, d, Carry(s, base, p, q), mem, now) == Place(cfg, d, Carry(s, base, n, q), mem, now)
    ensures p < n < q ==> !Refused(cfg, d, Carry(s, base, n, q), mem)
  {
    hide Wrap32, SeqLeq, SeqLt, SeqOf, Store, Dominated, Full;
    CarryEnd(s, base, p, q);
    NearOrder(base, n, q);
    NearOrder(base, n, p);
    if p < n < q {
      CarryEnd(s, base, n, q);
      NearOrder(base, n, n);
      WrapDiff(base, n, p);
      WrapSmall(n - p);
      SliceOfSlice(s, p, q, n);
      SeqAdd(base, n, q - n);
    }
  }

  lemma PlaceNear(cfg: Config, s: seq<byte>, base: uint32, d: Direction, n: nat, p: nat, q: nat, mem: nat, now: uint64)
    returns (k: nat)
    requires ExpectsAt(s, base, d, n) && p < q <= |s| && q - p < TWO_31 && Near(n, p, q)
    requires n < p ==> Orderly(d.nextSeq, d.ooo, Carry(s, base, p, q))
    ensures var (d1, out) := Place(cfg, d, Carry(s, base, p, q), mem, now);
            && Placed(Window(s, n), d.nextSeq, d, d1, out, k)
            && (!Refused(cfg, d, Carry(s, base, p, q), mem) ==> Kept(d.nextSeq, d, d1, p - n, q - n, k))
            && Sized(d1.ooo)
  {
    hide Wrap32, SeqLeq, SeqLt, SeqOf, Store, Dominated, Full, Place, Chain, Holds, Orderly, Sized, Refused;
    PlaceFrom(cfg, s, base, d, n, p, q, mem, now);
    if q <= n {
      k := 0;
      FlattenNone();
      OriginSeq(d.nextSeq);
      ChainSized(Window(s, n), d.nextSeq, d.ooo);
      HoldsFrom(d.nextSeq, d.ooo);
    } else {
      var f := Max(p, n);
      CarryLater(s, base, n, f, q);
      k := PlaceTracks(cfg, Window(s, n), d.nextSeq, d, f - n, q - n, mem, now);
    }
  }

  lemma HoldsFrom(base: uint32, ooo: seq<Seg>)
    ensures forall x :: Holds(base, ooo, x) ==> 0 <= x
  {
  }

  lemma ChainSized(s: seq<byte>, base: uint32, ooo: seq<Seg>)
    requires StreamOk(s) && Chain(s, base, ooo)
    ensures Sized(ooo)
  {
    SlicesSized(s, base, ooo);
  }

  // What a step does: it delivers the bytes [n, k), those of the segment, and then, past
  // a gap it may give up, the bytes [g, m).
  ghost predicate Moved(s: seq<byte>, base: uint32, d: Direction, n: nat, d1: Direction, out: seq<Seg>, k: nat,
                        g: nat, m: nat) {
    && n <= k <= g <= m <= Max(n, |s|) && m <= n + REACH
    && Flatten(out) == Part(s, n, k) + Part(s, g, m)
    && d1.initialized && d1.finSeen == d.finSeen && ExpectsAt(s, base, d1, m)
  }

  // The bytes [p, q) and those buffered, and no others, are delivered, up to m, or
  // buffered; v is the position expected afterwards.
  ghost predicate Accounted(base: uint32, d: Direction, n: nat, d1: Direction, v: nat, m: nat, p: nat, q: nat) {
    && (forall x :: n <= x < m ==> Buffered(base, d, n, x) || p <= x < q)
    && (forall x :: m <= x ==> (Buffered(base, d1, v, x) <==> Buffered(base, d, n, x) || p <= x < q))
  }

  function Part(s: seq<byte>, lo: nat, hi: nat): seq<byte> {
    if lo <= hi <= |s| then s[lo..hi] else []
  }

  lemma DataNear(cfg: Config, s: seq<byte>, base: uint32, d: Direction, n: nat, p: nat, q: nat, mem: nat, now: uint64)
    returns (k: nat, g: nat, m: nat)
    requires ExpectsAt(s, base, d, n) && p < q <= |s| && q - p < TWO_31 && Near(n, p, q) && Sized(d.ooo)
    requires n < p ==> Orderly(d.nextSeq, d.ooo, Carry(s, base, p, q))
    ensures
      var f := Carry(s, base, p, q);
      var (d1, out) := Data(cfg, d, f, mem, now);
      && Moved(s, base, d, n, d1, out, k, g, m)
      && (!GapExpired(cfg, Place(cfg, d, f, mem, now).0, now) ==> g == k)
      && (!GapExpired(cfg, Place(cfg, d, f, mem, now).0, now) && !Refused(cfg, d, f, mem) ==>
            Accounted(base, d, n, d1, m, m, p, q))
  {
    hide Wrap32, SeqOf, Place, DrainAll, SkipGap, GapExpired, Chain, Holds, Orderly, Sized, Refused, Flatten, Near,
      Window, Ahead, Kept, Accounted, Part, Pos, SeqLeq, SeqLt, End;
    var w, b, f := Window(s, n), d.nextSeq, Carry(s, base, p, q);
    var k0 := PlaceNear(cfg, s, base, d, n, p, q, mem, now);
    var (d1, out1) := Place(cfg, d, f, mem, now);
    var g0, m0 := DrainTracks(cfg, w, b, d1, k0, now);
    SkipSized(cfg, d1, now);
    var (d2, out2) := DrainAll(SkipGap(cfg, d1, now));
    FlattenJoin(out1, out2);
    k, g, m := n + k0, n + g0, n + m0;
    WindowParts(s, n, k0, g0, m0);
    AheadStays(s, base, n, m0, d2.ooo);
    LaterWindow(s, base, n, m0, d2.ooo);
    SeqFrom(base, n, m0);
    WindowSize(s, n);
    if !GapExpired(cfg, d1, now) && !Refused(cfg, d, f, mem) {
      AccountedAt(base, d, n, d1, d2, k0, m0, p, q);
    }
  }

  lemma AccountedAt(base: uint32, d: Direction, n: nat, d1: Direction, d2: Direction, k: nat, m: nat, p: nat, q: nat)
    requires d.nextSeq == SeqOf(base, n) && Kept(d.nextSeq, d, d1, p - n, q - n, k)
    requires forall x :: k <= x < m ==> Holds(d.nextSeq, d1.ooo, x)
    requires forall x :: m <= x ==> (Holds(d.nextSeq, d2.ooo, x) <==> Holds(d.nextSeq, d1.ooo, x))
    requires forall x :: Holds(SeqOf(base, n + m), d2.ooo, x - m) <==> Holds(d.nextSeq, d2.ooo, x)
    requires k <= m
    ensures Accounted(base, d, n, d2, n + m, n + m, p, q)
  {
    hide SeqOf, Holds;
    var v := n + m;
    forall x | n <= x < v ensures Buffered(base, d, n, x) || p <= x < q {
      var y := x - n;
      assert y < k || Holds(d.nextSeq, d1.ooo, y);
    }
    forall x | v <= x ensures Buffered(base, d2, v, x) <==> Buffered(base, d, n, x) || p <= x < q {
      var y, z := x - n, x - v;
      assert z == y - m;
      assert Holds(SeqOf(base, v), d2.ooo, z) <==> Holds(d.nextSeq, d2.ooo, y);
      assert Holds(d.nextSeq, d2.ooo, y) <==> Holds(d.nextSeq, d1.ooo, y);
      assert Holds(d.nextSeq, d1.ooo, y) <==> Holds(d.nextSeq, d.ooo, y) || p - n <= y < q - n;
    }
  }

  lemma SkipSized(cfg: Config, d: Direction, now: uint64)
    requires Sized(d.ooo)
    ensures Sized(SkipGap(cfg, d, now).ooo)
  {
  }

  lemma AheadStays(s: seq<byte>, base: uint32, n: nat, k: nat, ooo: seq<Seg>)
    requires Chain(Window(s, n), SeqOf(base, n), ooo) && Ahead(SeqOf(base, n), ooo, k)
    ensures forall i :: 0 <= i < |ooo| ==> k <= Lo(SeqOf(base, n), ooo[i])
    ensures Ahead(SeqOf(base, n + k), ooo, 0)
  {
    hide SeqOf, Lo, Chain;
    LaterWindow(s, base, n, k, ooo);
  }

  lemma WindowSize(s: seq<byte>, n: nat)
    ensures n + |Window(s, n)| <= Max(n, |s|) && |Window(s, n)| <= REACH
  {
  }

  lemma WindowParts(s: seq<byte>, n: nat, k: nat, g: nat, m: nat)
    requires k <= g <= m <= |Window(s, n)|
    ensures Window(s, n)[..k] == Part(s, n, n + k) && Window(s, n)[g..m] == Part(s, n + g, n + m)
  {
    if n <= |s| {
      WindowSlice(s, n, 0, k);
      WindowSlice(s, n, g, m);
    }
  }

  // A FIN taken at position n: n + 1 is expected.
  lemma FinNear(s: seq<byte>, base: uint32, d: Direction, n: nat)
    requires ExpectsAt(s, base, d, n) && !d.finSeen
    ensures ExpectsAt(s, base, Fin(d, true), n + 1)
    ensures forall x :: Buffered(base, Fin(d, true), n + 1, x) <==> Buffered(base, d, n, x)
    ensures n == |s| ==> d.ooo == []
  {
    hide SeqOf, Lo, Holds, Chain, Window;
    LaterWindow(s, base, n, 1, d.ooo);
    SeqAdd(base, n, 1);
    forall x ensures Buffered(base, Fin(d, true), n + 1, x) <==> Buffered(base, d, n, x) {
      assert Holds(SeqOf(base, n + 1), d.ooo, (x - n) - 1) <==> Holds(SeqOf(base, n), d.ooo, x - n);
    }
    if n == |s| {
      NothingPast(s, base, d, n);
    }
  }

  lemma NothingPast(s: seq<byte>, base: uint32, d: Direction, n: nat)
    requires Chain(Window(s, n), SeqOf(base, n), d.ooo) && |s| <= n
    ensures d.ooo == []
  {
    if d.ooo != [] {
      SliceRoom(Window(s, n), SeqOf(base, n), d.ooo[0]);
      assert false;
    }
  }

  lemma SliceRoom(s: seq<byte>, base: uint32, g: Seg)
    requires IsSlice(s, base, g)
    ensures s != []
  {
  }
}
