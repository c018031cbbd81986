/**
 * When missing bytes are given up: what any segment delivers that is not next in line, by
 * the clock of the gap. A segment next in line is in TcpFirstCopy.
 */
module TcpGap {
  import opened Machine
  import opened TcpStream
  import opened TcpRuns
  import opened TcpExact
  import opened TcpFirstCopy

  // There is room for the bytes of g, in this direction and among all flows.
  predicate HasRoom(cfg: Config, d: Direction, g: Seg, mem: nat) {
    d.oooBytes + |g.data| <= cfg.maxStream && mem + |g.data| <= cfg.maxMem
  }

  // g is ahead of the stream and brings something that is not buffered yet.
  predicate Buffers(cfg: Config, d: Direction, g: Seg, mem: nat) {
    !SeqLeq(g.start, d.nextSeq) && !SeqLeq(End(g), d.nextSeq) && HasRoom(cfg, d, g, mem) && !Dominated(d.ooo, g)
  }

  lemma PlaceAside(cfg: Config, d: Direction, g: Seg, mem: nat, now: uint64)
    requires g.data != [] && |g.data| < TWO_31 && !InLine(d, g)
    ensures
      var (d1, out) := Place(cfg, d, g, mem, now);
      var buffers := Buffers(cfg, d, g, mem);
      && out == [] && d1.nextSeq == d.nextSeq
      && d1.ooo == (if buffers then Store(d.ooo, g) else d.ooo)
      && d1.gapPending == (d.gapPending || buffers)
      && d1.gapSince == (if buffers && !d.gapPending then now else d.gapSince)
  {
    hide Wrap32, Store, Dominated, Bytes;
    Trichotomy(g.start, d.nextSeq);
  }

  lemma Trichotomy(a: uint32, b: uint32)
    ensures SeqLeq(a, b) <==> SeqLt(a, b) || a == b
  {
    if Wrap32(a - b) == 0 {
      assert a - b == 0;
    }
  }

  // The clock of the gap starts with the first segment that is buffered while it stands, and
  // later ones do not set it again. A segment that is not next in line delivers nothing until
  // the clock has run for gapTimeout; then the hole before the first buffered position is
  // given up, and the first copies from there up to the first position without one go out.
  lemma AsideDelivers(cfg: Config, d: Direction, g: Seg, mem: nat, now: uint64, ooo: seq<Seg>) returns (m: nat)
    requires g.data != [] && |g.data| < TWO_31 && !InLine(d, g) && Sized(d.ooo)
    requires ooo == if Buffers(cfg, d, g, mem) then Store(d.ooo, g) else d.ooo
    requires Ascending(d.nextSeq, ooo) && Ahead(d.nextSeq, ooo, 0)
    ensures
      var (base, (d1, out)) := (d.nextSeq, Data(cfg, d, g, mem, now));
      var since := if d.gapPending then d.gapSince else now;
      var runs := d.gapPending || Buffers(cfg, d, g, mem);
      if ooo != [] && runs && (now - since) % TWO_64 >= cfg.gapTimeout then
        var h := Lo(base, ooo[0]);
        && h < m && |Flatten(out)| == m - h
        && (forall x :: h <= x < m ==> First(base, ooo, x) == Some(Flatten(out)[x - h])) && First(base, ooo, m) == None
        && (forall x: nat :: m < x ==> First(base, d1.ooo, x) == First(base, ooo, x))
        && d1.nextSeq == SeqOf(base, m) && !d1.gapPending
      else
        && m == 0 && Flatten(out) == [] && d1.nextSeq == base
        && (forall x: nat :: First(base, d1.ooo, x) == First(base, ooo, x))
        && d1.gapPending == runs && (runs ==> d1.gapSince == since)
  {
    hide Wrap32, SeqLeq, SeqLt, SeqOf, Flatten, First, Place, Pos, Climbs, Drain, GapExpired, Lo, Dominated, Sized;
    PlaceAside(cfg, d, g, mem, now);
    OriginSeq(d.nextSeq);
    var d1, none := Place(cfg, d, g, mem, now).0, [];
    if Buffers(cfg, d, g, mem) {
      StoreSized(d.ooo, g);
    }
    var k;
    k, m := DrainFrom(cfg, d.nextSeq, d1, 0, now);
    FlattenNone();
    FlattenJoin(none, DrainAll(SkipGap(cfg, d1, now)).1);
    NoneFirst(d.nextSeq);
    if ooo != [] {
      FirstAtHead(d.nextSeq, ooo);
    }
  }

  lemma FirstAtHead(base: uint32, ooo: seq<Seg>)
    requires Ascending(base, ooo) && ooo != []
    ensures First(base, ooo, Lo(base, ooo[0])).Some?
  {
    assert InReach(base, ooo[0]);
  }

  lemma NoneFirst(base: uint32)
    ensures forall x: nat :: First(base, [], x) == None
  {
  }
}
