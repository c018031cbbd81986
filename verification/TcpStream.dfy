/**
 * TCP reassembly, one direction of one flow at a time: what a segment does to
 * the expected sequence number, the out-of-order buffer and the bytes delivered.
 */
module TcpStream {
  import opened Machine

  datatype Config = Config(
    maxFlows: nat, maxStream: nat, maxMem: nat, gapTimeout: uint32, idleTimeout: uint32)

  // Sequence comparison that tolerates wraparound: the sign of the 32-bit difference.
  predicate SeqLeq(a: uint32, b: uint32) {
    Wrap32(a - b) == 0 || Wrap32(a - b) >= TWO_31
  }

  predicate SeqLt(a: uint32, b: uint32) {
    Wrap32(a - b) >= TWO_31
  }

  datatype Seg = Seg(start: uint32, data: seq<byte>)

  function End(s: Seg): uint32 {
    Wrap32(s.start + |s.data|)
  }

  // ooo is a map from start to bytes: a list in order of start.
  datatype Direction = Direction(
    initialized: bool,
    nextSeq: uint32,
    ooo: seq<Seg>,
    oooBytes: nat,
    gapPending: bool,
    gapSince: uint64,
    finSeen: bool)

  const FRESH: Direction := Direction(false, 0, [], 0, false, 0, false)

  predicate Sorted(ooo: seq<Seg>) {
    forall i, j :: 0 <= i < j < |ooo| ==> ooo[i].start < ooo[j].start
  }

  function Bytes(ooo: seq<Seg>): nat {
    if ooo == [] then 0 else |ooo[0].data| + Bytes(ooo[1..])
  }

  function Flatten(pieces: seq<Seg>): seq<byte> {
    if pieces == [] then [] else pieces[0].data + Flatten(pieces[1..])
  }

  lemma FlattenNone()
    ensures Flatten([]) == []
  {
  }

  lemma FlattenCons(g: Seg, out: seq<Seg>)
    ensures Flatten([g] + out) == g.data + Flatten(out)
  {
    assert ([g] + out)[1..] == out;
  }

  lemma FlattenOne(g: Seg)
    ensures Flatten([g]) == g.data
  {
    assert [g][1..] == [];
  }

  lemma {:induction false} FlattenJoin(a: seq<Seg>, b: seq<Seg>)
    ensures Flatten(a + b) == Flatten(a) + Flatten(b)
  {
    if a == [] {
      assert a + b == b;
    } else {
      assert (a + b)[1..] == a[1..] + b;
      FlattenJoin(a[1..], b);
    }
  }

  lemma {:induction false} BytesJoin(a: seq<Seg>, b: seq<Seg>)
    ensures Bytes(a + b) == Bytes(a) + Bytes(b)
  {
    if a == [] {
      assert a + b == b;
    } else {
      assert (a + b)[1..] == a[1..] + b;
      BytesJoin(a[1..], b);
    }
  }

  lemma BytesOne(g: Seg)
    ensures Bytes([g]) == |g.data|
  {
    assert [g][1..] == [];
  }

  // First buffered segment that starts at or after s.
  function LowerBound(ooo: seq<Seg>, s: uint32): (i: nat)
    ensures i <= |ooo|
    ensures forall j :: 0 <= j < i ==> ooo[j].start < s
    ensures i < |ooo| ==> s <= ooo[i].start
  {
    if ooo == [] || s <= ooo[0].start then 0 else 1 + LowerBound(ooo[1..], s)
  }

  // A buffered segment already holds every byte of the new one.
  predicate Dominated(ooo: seq<Seg>, s: Seg) {
    var it := LowerBound(ooo, s.start);
    || (it < |ooo| && ooo[it].start == s.start && SeqLeq(End(s), End(ooo[it])))
    || (0 < it && SeqLeq(End(s), End(ooo[it - 1])))
  }

  // End of the run of segments from it on that end within the new one.
  function CoveredTo(ooo: seq<Seg>, it: nat, e: uint32): (h: nat)
    requires it <= |ooo|
    ensures it <= h <= |ooo|
    ensures forall j :: it <= j < h ==> SeqLeq(End(ooo[j]), e)
    ensures h < |ooo| ==> !SeqLeq(End(ooo[h]), e)
    decreases |ooo| - it
  {
    if it < |ooo| && SeqLeq(End(ooo[it]), e) then CoveredTo(ooo, it + 1, e) else it
  }

  // Buffer a segment: later segments it covers make way for it.
  function Store(ooo: seq<Seg>, s: Seg): seq<Seg> {
    if Dominated(ooo, s) then ooo
    else
      var it := LowerBound(ooo, s.start);
      ooo[..it] + [s] + ooo[CoveredTo(ooo, it, End(s))..]
  }

  // Segments are never empty and far shorter than half the sequence space.
  predicate Sized(ooo: seq<Seg>) {
    forall j :: 0 <= j < |ooo| ==> 0 < |ooo[j].data| < TWO_31
  }

  lemma SkipInside(s: Seg, next: uint32)
    requires 0 < |s.data| < TWO_31
    requires SeqLeq(s.start, next)
    ensures SeqLt(next, End(s)) <==> Wrap32(next - s.start) < |s.data|
  {
    var x := Wrap32(next - s.start);
    WrapMinus(next, s.start, |s.data|);
    WrapBack(next - s.start);
    WrapSigned(x - |s.data|);
  }

  lemma WrapMinus(a: int, b: int, c: int)
    ensures Wrap32(a - Wrap32(b + c)) == Wrap32(Wrap32(a - b) - c)
  {
  }

  // The difference the other way round.
  lemma WrapBack(a: int)
    ensures Wrap32(-a) == if Wrap32(a) == 0 then 0 else TWO_32 - Wrap32(a)
  {
  }

  lemma WrapSigned(x: int)
    requires -TWO_32 < x < TWO_32
    ensures Wrap32(x) == if x < 0 then x + TWO_32 else x
  {
  }

  // Take segments off the front while they start at or before next: what is left,
  // the next sequence number, and the new bytes with the numbers they start at.
  function Drain(ooo: seq<Seg>, next: uint32): (r: (seq<Seg>, uint32, seq<Seg>))
    requires Sized(ooo)
  {
    if ooo == [] || !SeqLeq(ooo[0].start, next) then (ooo, next, [])
    else if SeqLt(next, End(ooo[0])) then
      SkipInside(ooo[0], next);
      var (rest, e, out) := Drain(ooo[1..], End(ooo[0]));
      (rest, e, [Seg(next, ooo[0].data[Wrap32(next - ooo[0].start)..])] + out)
    else Drain(ooo[1..], next)
  }

  // After gap_timeout the missing bytes before the first buffered segment are given up.
  predicate GapExpired(cfg: Config, d: Direction, now: uint64) {
    && d.ooo != [] && d.gapPending
    && Elapsed(now, d.gapSince) >= cfg.gapTimeout
    && SeqLt(d.nextSeq, d.ooo[0].start)
  }

  function SkipGap(cfg: Config, d: Direction, now: uint64): Direction {
    if GapExpired(cfg, d, now) then d.(nextSeq := d.ooo[0].start, gapPending := false) else d
  }

  function DrainAll(d: Direction): (r: (Direction, seq<Seg>))
    requires Sized(d.ooo)
  {
    if d.ooo == [] then (d, [])
    else
      var (rest, next, out) := Drain(d.ooo, d.nextSeq);
      (d.(ooo := rest, oooBytes := Bytes(rest), nextSeq := next, gapPending := d.gapPending && rest != []), out)
  }

  // Whether the caps leave no room to buffer n more bytes.
  predicate Full(cfg: Config, d: Direction, mem: nat, n: nat) {
    d.oooBytes + n > cfg.maxStream || mem + n > cfg.maxMem
  }

  lemma TrimInside(s: Seg, next: uint32)
    requires |s.data| < TWO_31 && SeqLt(s.start, next) && !SeqLeq(End(s), next)
    ensures Wrap32(next - s.start) < |s.data|
  {
  }

  // The segment itself: old, (partly) next in line, or ahead of the stream.
  // mem is the number of bytes buffered for all flows.
  function Place(cfg: Config, d: Direction, s: Seg, mem: nat, now: uint64): (Direction, seq<Seg>)
    requires |s.data| < TWO_31
  {
    if SeqLeq(End(s), d.nextSeq) then (d, [])
    else if SeqLt(s.start, d.nextSeq) then
      TrimInside(s, d.nextSeq);
      var rest := s.data[Wrap32(d.nextSeq - s.start)..];
      (d.(nextSeq := Wrap32(d.nextSeq + |rest|)), [Seg(d.nextSeq, rest)])
    else if s.start == d.nextSeq then
      (d.(nextSeq := End(s)), [s])
    else if Full(cfg, d, mem, |s.data|) || Dominated(d.ooo, s) then (d, [])
    else
      var ooo := Store(d.ooo, s);
      (d.(ooo := ooo, oooBytes := Bytes(ooo), gapPending := true,
          gapSince := if d.gapPending then d.gapSince else now), [])
  }

  // The segment was ahead of the stream and the caps refused it.
  predicate Refused(cfg: Config, d: Direction, s: Seg, mem: nat) {
    && !SeqLeq(End(s), d.nextSeq) && !SeqLt(s.start, d.nextSeq) && s.start != d.nextSeq
    && Full(cfg, d, mem, |s.data|)
  }

  datatype Flags = Flags(fin: bool, syn: bool, rst: bool)

  function Start(d: Direction, seqNo: uint32, syn: bool): Direction {
    if d.initialized then d
    else d.(initialized := true, nextSeq := Wrap32(seqNo + if syn then 1 else 0))
  }

  function Fin(d: Direction, fin: bool): Direction {
    if fin && !d.finSeen then d.(finSeen := true, nextSeq := Wrap32(d.nextSeq + 1)) else d
  }

  // The data part of a segment.
  function Data(cfg: Config, d: Direction, s: Seg, mem: nat, now: uint64): (Direction, seq<Seg>)
    requires Sized(d.ooo) && |s.data| < TWO_31
  {
    if s.data == [] then (d, [])
    else
      var (d1, out) := Place(cfg, d, s, mem, now);
      StoreSized(d.ooo, s);
      var (d2, more) := DrainAll(SkipGap(cfg, d1, now));
      (d2, out + more)
  }

  // One segment other than a reset, for one direction.
  function Segment(cfg: Config, d: Direction, s: Seg, flags: Flags, mem: nat, now: uint64): (Direction, seq<Seg>)
    requires Sized(d.ooo) && |s.data| < TWO_31
  {
    var (d1, out) := Data(cfg, Start(d, s.start, flags.syn), s, mem, now);
    (Fin(d1, flags.fin), out)
  }

  lemma StoreSized(ooo: seq<Seg>, s: Seg)
    requires Sized(ooo) && 0 < |s.data| < TWO_31
    ensures Sized(Store(ooo, s))
  {
  }

  lemma {:induction false} DrainSized(ooo: seq<Seg>, next: uint32)
    requires Sized(ooo)
    ensures Sized(Drain(ooo, next).0)
    decreases |ooo|
  {
    if ooo == [] || !SeqLeq(ooo[0].start, next) {
    } else if SeqLt(next, End(ooo[0])) {
      DrainSized(ooo[1..], End(ooo[0]));
    } else {
      DrainSized(ooo[1..], next);
    }
  }

  lemma SegmentSized(cfg: Config, d: Direction, s: Seg, flags: Flags, mem: nat, now: uint64)
    requires Sized(d.ooo) && |s.data| < TWO_31
    ensures Sized(Segment(cfg, d, s, flags, mem, now).0.ooo)
  {
    hide Sized, Store, Drain;
    var d0 := Start(d, s.start, flags.syn);
    if s.data != [] {
      StoreSized(d.ooo, s);
      var d1 := SkipGap(cfg, Place(cfg, d0, s, mem, now).0, now);
      DrainSized(d1.ooo, d1.nextSeq);
    }
  }
}
