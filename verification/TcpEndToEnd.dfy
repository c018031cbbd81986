/**
 * Whole runs of the flow table: what the stream theorems say of one direction of one
 * flow holds amid any other traffic, evictions and expiry sweeps.
 */
module TcpEndToEnd {
  import opened Machine
  import opened Packet
  import opened TcpStream
  import opened TcpRuns
  import opened TcpWindow
  import opened TcpTheorems
  import opened TcpFaithful
  import T = TcpTable

  // at is where the sender's stream has the bytes of the packet; the engine does not see it.
  datatype Event =
    | Packet(pp: ParsedPacket, now: uint64, at: nat)
    | Sweep(now: uint64)

  predicate Small(es: seq<Event>) {
    forall i :: 0 <= i < |es| ==> SmallOne(es[i])
  }

  predicate SmallOne(e: Event) {
    e.Packet? ==> |e.pp.l4.payload| < TWO_31
  }

  ghost predicate Good(cfg: Config, st: T.State) {
    T.WithinCaps(cfg, st)
  }

  lemma GoodLinked(cfg: Config, st: T.State)
    requires Good(cfg, st)
    ensures T.Linked(cfg, st)
  {
  }

  ghost function TableStep(cfg: Config, st: T.State, e: Event): (r: (T.State, T.Result))
    requires Good(cfg, st) && SmallOne(e)
    ensures Good(cfg, r.0)
  {
    GoodLinked(cfg, st);
    match e
    case Packet(pp, now, _) => T.AddKeeps(cfg, st, pp, now); T.Add(cfg, st, pp, now)
    case Sweep(now) => T.ExpireKeeps(cfg, st, now); (T.Expire(cfg, st, now), T.NOTHING)
  }

  // The table after a run: both caps hold and table, list and memory count agree.
  ghost function After(cfg: Config, st: T.State, es: seq<Event>): (r: T.State)
    requires Good(cfg, st) && Small(es)
    ensures Good(cfg, r)
  {
    if es == [] then st else TableStep(cfg, After(cfg, st, es[..|es| - 1]), es[|es| - 1]).0
  }

  lemma NoFlows(cfg: Config)
    ensures Good(cfg, T.State(map[], []))
  {
  }

  // Both caps and the agreement of table, recency list and buffered bytes hold in every
  // reachable state.
  lemma ReachableWithinCaps(cfg: Config, es: seq<Event>)
    requires Small(es)
    ensures Good(cfg, T.State(map[], [])) && T.WithinCaps(cfg, After(cfg, T.State(map[], []), es))
  {
    NoFlows(cfg);
  }

  // ---- one direction of one flow

  datatype Side = Side(k: T.FlowKey, forward: bool)

  predicate Mine(e: Event, side: Side): (mine: bool)
    ensures mine ==> OfFlow(e, side.k)
  {
    e.Packet? && e.pp.l4.isTcp && T.KeyOf(e.pp) == side.k && T.Forward(e.pp) == side.forward
  }

  predicate OfFlow(e: Event, k: T.FlowKey) {
    e.Packet? && e.pp.l4.isTcp && T.KeyOf(e.pp) == k
  }

  // A packet of this side carries bytes of the stream, or none, and is no reset.
  predicate Honest(e: Event, side: Side, s: seq<byte>, base: uint32) {
    Mine(e, side) ==> !T.FlagsOf(e.pp).rst && (e.pp.l4.payload != [] ==> CarriesStream(e, s, base))
  }

  predicate CarriesStream(e: Event, s: seq<byte>, base: uint32)
    requires e.Packet?
  {
    var n := |e.pp.l4.payload|;
    e.at + n <= |s| && e.pp.l4.payload == s[e.at..e.at + n] && e.pp.l4.tcpSeq == SeqOf(base, e.at)
  }

  ghost predicate AllHonest(es: seq<Event>, side: Side, s: seq<byte>, base: uint32) {
    forall i :: 0 <= i < |es| ==> Honest(es[i], side, s, base)
  }

  // The flow is there at every step of the run; the last one may close it.
  ghost predicate Present(cfg: Config, st: T.State, es: seq<Event>, k: T.FlowKey)
    requires Good(cfg, st) && Small(es)
  {
    es != [] ==>
      Present(cfg, st, es[..|es| - 1], k) && k in After(cfg, st, es[..|es| - 1]).flows
  }

  // The packet as an arrival of stream bytes.
  function ArrivalOf(e: Event, mem: nat): Arrival
    requires e.Packet?
  {
    var n := |e.pp.l4.payload|;
    var p := if n == 0 then 0 else e.at;
    Arrival(p, p + n, T.FlagsOf(e.pp).fin, mem, e.now)
  }

  // What the run looks like to this side.
  ghost function Arrivals(cfg: Config, st: T.State, es: seq<Event>, side: Side): seq<Arrival>
    requires Good(cfg, st) && Small(es)
  {
    if es == [] then []
    else
      var p, e := es[..|es| - 1], es[|es| - 1];
      var before := Arrivals(cfg, st, p, side);
      if Mine(e, side) then before + [ArrivalOf(e, T.Mem(After(cfg, st, p)))] else before
  }

  // What the calls for this side delivered, joined.
  ghost function Delivered(cfg: Config, st: T.State, es: seq<Event>, side: Side): seq<byte>
    requires Good(cfg, st) && Small(es)
  {
    if es == [] then []
    else
      var p, e := es[..|es| - 1], es[|es| - 1];
      var before := Delivered(cfg, st, p, side);
      if Mine(e, side) then before + TableStep(cfg, After(cfg, st, p), e).1.data else before
  }

  // An open direction takes no notice of a SYN, nor of where an empty segment begins.
  lemma OnlyFinCounts(cfg: Config, d: Direction, g: Seg, h: Seg, flags: Flags, mem: nat, now: uint64)
    requires d.initialized && Sized(d.ooo) && |g.data| < TWO_31 && g.data == h.data && (g.data == [] || g == h)
    ensures Segment(cfg, d, g, flags, mem, now) == Segment(cfg, d, h, Flags(flags.fin, false, false), mem, now)
  {
  }

  lemma ArrivalCarried(e: Event, s: seq<byte>, base: uint32, mem: nat)
    requires e.Packet? && SmallOne(e) && (e.pp.l4.payload != [] ==> CarriesStream(e, s, base))
    ensures var (a, g) := (ArrivalOf(e, mem), T.SegOf(e.pp));
            && CarriedOne(s, a) && a.fin == T.FlagsOf(e.pp).fin && a.mem == mem && a.now == e.now
            && Carry(s, base, a.p, a.q).data == g.data && (g.data == [] || Carry(s, base, a.p, a.q) == g)
  {
    hide SeqOf;
  }

  // A step that is not for this side leaves its direction as it is.
  lemma OtherStep(cfg: Config, st: T.State, e: Event, side: Side)
    requires Good(cfg, st) && SmallOne(e) && side.k in st.flows && !Mine(e, side)
    requires side.k in TableStep(cfg, st, e).0.flows
    requires OfFlow(e, side.k) ==> !T.FlagsOf(e.pp).rst
    ensures T.Dir(TableStep(cfg, st, e).0.flows[side.k], side.forward) == T.Dir(st.flows[side.k], side.forward)
  {
    hide T.Add, T.Linked, T.WithinCaps;
    GoodLinked(cfg, st);
    if e.Packet? {
      if T.KeyOf(e.pp) != side.k {
        T.AddOther(cfg, st, e.pp, e.now, side.k);
      } else if e.pp.l4.isTcp {
        T.AddOwn(cfg, st, e.pp, e.now);
      } else {
        NotTcp(cfg, st, e.pp, e.now);
      }
    }
  }

  lemma NotTcp(cfg: Config, st: T.State, pp: ParsedPacket, now: uint64)
    requires T.Linked(cfg, st) && |pp.l4.payload| < TWO_31 && !pp.l4.isTcp
    ensures T.Add(cfg, st, pp, now).0 == st
  {
  }

  // A reset of the flow removes it.
  lemma ResetRemoves(cfg: Config, st: T.State, e: Event, k: T.FlowKey)
    requires Good(cfg, st) && SmallOne(e) && OfFlow(e, k) && T.FlagsOf(e.pp).rst
    ensures k !in TableStep(cfg, st, e).0.flows
  {
    GoodLinked(cfg, st);
  }

  // A step for this side is the stream step.
  lemma OwnStep(cfg: Config, st: T.State, e: Event, side: Side, s: seq<byte>, base: uint32)
    requires Good(cfg, st) && SmallOne(e) && side.k in st.flows && Mine(e, side)
    requires Honest(e, side, s, base)
    requires T.Dir(st.flows[side.k], side.forward).initialized
    ensures
      var (t, r) := TableStep(cfg, st, e);
      var (d, a) := (T.Dir(st.flows[side.k], side.forward), ArrivalOf(e, T.Mem(st)));
      && CarriedOne(s, a) && Sized(d.ooo)
      && var (d1, out) := Step(cfg, s, base, d, a);
      && (side.k in t.flows ==> T.Dir(t.flows[side.k], side.forward) == d1) && r.data == Flatten(out)
  {
    hide T.Add, T.Linked, T.WithinCaps, T.Mem, Segment, CarriesStream;
    GoodLinked(cfg, st);
    T.AddOwn(cfg, st, e.pp, e.now);
    ArrivalCarried(e, s, base, T.Mem(st));
    var d, a := T.Dir(st.flows[side.k], side.forward), ArrivalOf(e, T.Mem(st));
    OnlyFinCounts(cfg, d, T.SegOf(e.pp), Carry(s, base, a.p, a.q), T.FlagsOf(e.pp), T.Mem(st), e.now);
  }

  lemma FlowSized(cfg: Config, st: T.State, side: Side)
    requires Good(cfg, st) && side.k in st.flows
    ensures Sized(T.Dir(st.flows[side.k], side.forward).ooo)
  {
  }

  lemma StaysOpen(cfg: Config, s: seq<byte>, base: uint32, d: Direction, a: Arrival)
    requires CarriedOne(s, a) && Sized(d.ooo) && d.initialized
    ensures Step(cfg, s, base, d, a).0.initialized
  {
    hide Data;
    DataKeepsFin(cfg, d, Carry(s, base, a.p, a.q), a.mem, a.now);
  }

  // The table run, seen from one side, is a run of the stream theorems.
  lemma {:induction false} Projects(cfg: Config, st: T.State, es: seq<Event>, side: Side, s: seq<byte>, base: uint32)
    requires Good(cfg, st) && Small(es) && AllHonest(es, side, s, base) && Present(cfg, st, es, side.k)
    requires side.k in st.flows && T.Dir(st.flows[side.k], side.forward).initialized
    ensures
      var (d0, run) := (T.Dir(st.flows[side.k], side.forward), Arrivals(cfg, st, es, side));
      && Carried(s, run) && Sized(d0.ooo)
      && var (d, out) := Run(cfg, s, base, d0, run);
      && d.initialized
      && (side.k in After(cfg, st, es).flows ==> d == T.Dir(After(cfg, st, es).flows[side.k], side.forward))
      && Delivered(cfg, st, es, side) == Flatten(out)
  {
    hide Step, TableStep, Good, T.Mem, Honest, Mine;
    FlowSized(cfg, st, side);
    if es != [] {
      var p, e := es[..|es| - 1], es[|es| - 1];
      assert forall i :: 0 <= i < |p| ==> p[i] == es[i];
      Projects(cfg, st, p, side, s, base);
      var t := After(cfg, st, p);
      if Mine(e, side) {
        MineStep(cfg, st, es, side, s, base);
      } else if side.k in After(cfg, st, es).flows {
        if OfFlow(e, side.k) && T.FlagsOf(e.pp).rst {
          ResetRemoves(cfg, t, e, side.k);
        }
        OtherStep(cfg, t, e, side);
      }
    }
  }

  lemma MineStep(cfg: Config, st: T.State, es: seq<Event>, side: Side, s: seq<byte>, base: uint32)
    requires Good(cfg, st) && Small(es) && es != [] && Mine(es[|es| - 1], side)
    requires Honest(es[|es| - 1], side, s, base)
    requires side.k in st.flows && side.k in After(cfg, st, es[..|es| - 1]).flows
    requires
      var p := es[..|es| - 1];
      var (d0, run) := (T.Dir(st.flows[side.k], side.forward), Arrivals(cfg, st, p, side));
      && Carried(s, run) && Sized(d0.ooo)
      && var (d, out) := Run(cfg, s, base, d0, run);
      && d == T.Dir(After(cfg, st, p).flows[side.k], side.forward) && d.initialized
      && Delivered(cfg, st, p, side) == Flatten(out)
    ensures
      var (d0, run) := (T.Dir(st.flows[side.k], side.forward), Arrivals(cfg, st, es, side));
      && Carried(s, run)
      && var (d, out) := Run(cfg, s, base, d0, run);
      && d.initialized
      && (side.k in After(cfg, st, es).flows ==> d == T.Dir(After(cfg, st, es).flows[side.k], side.forward))
      && Delivered(cfg, st, es, side) == Flatten(out)
  {
    hide Step, TableStep, Good, T.Mem, Honest, Mine, ArrivalOf, Flatten;
    var p, e := es[..|es| - 1], es[|es| - 1];
    var t := After(cfg, st, p);
    var d0, run := T.Dir(st.flows[side.k], side.forward), Arrivals(cfg, st, p, side);
    var a := ArrivalOf(e, T.Mem(t));
    OwnStep(cfg, t, e, side, s, base);
    var (d, out) := Run(cfg, s, base, d0, run);
    StaysOpen(cfg, s, base, d, a);
    assert (run + [a])[..|run|] == run;
    FlattenJoin(out, Step(cfg, s, base, d, a).1);
  }

  // ---- what the table delivers

  // Whatever else goes on: what one side gets are slices of its stream at increasing
  // positions, so no byte comes twice.
  lemma TableNothingTwice(cfg: Config, st: T.State, es: seq<Event>, side: Side, s: seq<byte>, base: uint32, n: nat)
    returns (out: seq<Seg>, m: nat)
    requires Good(cfg, st) && Small(es) && AllHonest(es, side, s, base) && Present(cfg, st, es, side.k)
    requires side.k in st.flows && StreamOk(s) && Expects(s, base, T.Dir(st.flows[side.k], side.forward), n)
    ensures Delivered(cfg, st, es, side) == Flatten(out) && Increasing(s, base, n, out, m)
  {
    hide Good, Delivered, Arrivals;
    var d0, run := T.Dir(st.flows[side.k], side.forward), Arrivals(cfg, st, es, side);
    Projects(cfg, st, es, side, s, base);
    m := NothingTwice(cfg, s, base, d0, n, run);
    out := Run(cfg, s, base, d0, run).1;
  }

  // The same for a stream of any length, as long as its segments keep near and in stream order.
  lemma TableRises(cfg: Config, st: T.State, es: seq<Event>, side: Side, s: seq<byte>, base: uint32, w: nat)
    returns (ranges: seq<Range>, m: nat)
    requires Good(cfg, st) && Small(es) && AllHonest(es, side, s, base) && Present(cfg, st, es, side.k)
    requires side.k in st.flows && ExpectsAt(s, base, T.Dir(st.flows[side.k], side.forward), w)
    requires
      var (d, run) := (T.Dir(st.flows[side.k], side.forward), Arrivals(cfg, st, es, side));
      Carried(s, run) && Sized(d.ooo) && Nearby(cfg, s, base, d, w, run) && InOrder(cfg, s, base, d, w, run)
    ensures Delivered(cfg, st, es, side) == Text(s, ranges) && Rising(w, ranges, m)
  {
    hide Good, Delivered, Arrivals, Nearby, InOrder, Run;
    var d, run := T.Dir(st.flows[side.k], side.forward), Arrivals(cfg, st, es, side);
    Projects(cfg, st, es, side, s, base);
    ranges := NothingTwiceNear(cfg, s, base, d, w, run);
    m := Where(cfg, s, base, d, w, run);
  }

  // The opening SYN of a side makes it expect the first byte after it.
  lemma SynOpens(cfg: Config, st: T.State, pp: ParsedPacket, now: uint64)
    requires Good(cfg, st) && pp.l4.isTcp && pp.l4.payload == []
    requires T.FlagsOf(pp) == Flags(false, true, false)
    requires T.KeyOf(pp) in st.flows ==> T.Dir(st.flows[T.KeyOf(pp)], T.Forward(pp)) == FRESH
    ensures
      var t := TableStep(cfg, st, Packet(pp, now, 0)).0;
      && T.KeyOf(pp) in t.flows
      && T.Dir(t.flows[T.KeyOf(pp)], T.Forward(pp)) == Opened(Wrap32(pp.l4.tcpSeq + 1), 0)
  {
    hide T.Mem, T.Evict, T.Deliver, T.Linked, T.WithinCaps;
    GoodLinked(cfg, st);
    var k := T.KeyOf(pp);
    var s1 := if k in st.flows then st else T.Evict(cfg, st, k);
    T.EvictLinked(cfg, st, k);
    T.TouchedLinked(cfg, s1, k, now);
    SynDelivered(cfg, T.Touched(s1, k, now), pp, s1 != st, now);
  }

  lemma SynDelivered(cfg: Config, st: T.State, pp: ParsedPacket, evicted: bool, now: uint64)
    requires T.Linked(cfg, st) && T.KeyOf(pp) in st.flows && T.Dir(st.flows[T.KeyOf(pp)], T.Forward(pp)) == FRESH
    requires pp.l4.payload == [] && T.FlagsOf(pp) == Flags(false, true, false)
    ensures
      var (k, t) := (T.KeyOf(pp), T.Deliver(cfg, st, T.KeyOf(pp), pp, evicted, now).0);
      k in t.flows && T.Dir(t.flows[k], T.Forward(pp)) == Opened(Wrap32(pp.l4.tcpSeq + 1), 0)
  {
    hide T.Mem;
    SeqAdd(pp.l4.tcpSeq, 1, 0);
  }

  // The run of this side keeps near and in stream order, and nothing is lost to the caps,
  // the clock or an early FIN.
  ghost predicate Undisturbed(cfg: Config, st: T.State, es: seq<Event>, side: Side, s: seq<byte>, base: uint32, w: nat)
    requires Good(cfg, st) && Small(es) && side.k in st.flows
  {
    var (d, run) := (T.Dir(st.flows[side.k], side.forward), Arrivals(cfg, st, es, side));
    Carried(s, run) && Sized(d.ooo) && Calm(cfg, s, base, d, w, run) && InOrder(cfg, s, base, d, w, run)
  }

  // From any exact state on, in a stream of any length: at every moment the side has got the
  // longest contiguous prefix of what was buffered and received, amid any other traffic.
  lemma TableDeliversPrefix(cfg: Config, st: T.State, es: seq<Event>, side: Side, s: seq<byte>, base: uint32, w: nat)
    returns (n: nat)
    requires Good(cfg, st) && Small(es) && AllHonest(es, side, s, base) && Present(cfg, st, es, side.k)
    requires side.k in st.flows && Exact(s, base, T.Dir(st.flows[side.k], side.forward), w)
    requires Undisturbed(cfg, st, es, side, s, base, w)
    ensures
      var n0 := Min(w, |s|);
      && FirstMissing(s, base, T.Dir(st.flows[side.k], side.forward), w, Arrivals(cfg, st, es, side), n0, n)
      && Delivered(cfg, st, es, side) == s[n0..n]
  {
    hide Good, Delivered, Arrivals, Calm, InOrder, Run, Known;
    var d := T.Dir(st.flows[side.k], side.forward);
    Projects(cfg, st, es, side, s, base);
    InOrderDelivers(cfg, s, base, d, w, Arrivals(cfg, st, es, side));
    n :| FirstMissing(s, base, d, w, Arrivals(cfg, st, es, side), Min(w, |s|), n)
         && Flatten(Run(cfg, s, base, d, Arrivals(cfg, st, es, side)).1) == s[Min(w, |s|)..n];
  }
}
