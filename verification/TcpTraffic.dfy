/** What keeps a flow in the table, told from the traffic alone. */
module TcpTraffic {
  import opened Machine
  import opened LruList
  import opened Packet
  import opened TcpStream
  import opened TcpRuns
  import opened TcpExact
  import opened TcpWindow
  import opened TcpTheorems
  import opened TcpCalm
  import opened TcpEndToEnd
  import T = TcpTable

  // Every TCP packet belongs to one of these flows.
  predicate Among(es: seq<Event>, keys: set<T.FlowKey>) {
    forall i :: 0 <= i < |es| ==> AmongOne(es[i], keys)
  }

  predicate AmongOne(e: Event, keys: set<T.FlowKey>) {
    e.Packet? && e.pp.l4.isTcp ==> T.KeyOf(e.pp) in keys
  }

  // No packet resets flow k, and the packets of one direction carry no FIN.
  predicate LeftOpen(es: seq<Event>, side: Side) {
    forall i :: 0 <= i < |es| ==> LeavesOpen(es[i], side)
  }

  predicate LeavesOpen(e: Event, side: Side) {
    (OfFlow(e, side.k) ==> !T.FlagsOf(e.pp).rst) && (Mine(e, side) ==> !T.FlagsOf(e.pp).fin)
  }

  // When the newest packet of flow k came; at first it is what the table says.
  function LastSeen(es: seq<Event>, k: T.FlowKey, first: uint64): uint64 {
    if es == [] then first
    else
      var e := es[|es| - 1];
      if OfFlow(e, k) then e.now else LastSeen(es[..|es| - 1], k, first)
  }

  // No sweep comes an idle timeout after the newest packet of k.
  predicate Timely(cfg: Config, es: seq<Event>, k: T.FlowKey, first: uint64) {
    forall i :: 0 <= i < |es| && es[i].Sweep? ==> Elapsed(es[i].now, LastSeen(es[..i], k, first)) < cfg.idleTimeout
  }

  // side is the direction that sends no FIN.
  ghost predicate OpenAt(cfg: Config, st: T.State, side: Side, keys: set<T.FlowKey>, seen: uint64) {
    && Good(cfg, st) && st.flows.Keys <= keys && |keys| <= cfg.maxFlows
    && side.k in st.flows && st.flows[side.k].lastSeen == seen
    && !T.Dir(st.flows[side.k], side.forward).finSeen
  }

  lemma NoEviction(cfg: Config, st: T.State, k: T.FlowKey, keys: set<T.FlowKey>)
    requires st.flows.Keys <= keys && |keys| <= cfg.maxFlows && k in keys && k !in st.flows
    ensures T.Evict(cfg, st, k) == st
  {
    assert |st.flows| == |st.flows.Keys|;
    SubsetSize(st.flows.Keys, keys - {k});
  }

  // A segment in the other direction, or without FIN, does not close a flow left open.
  lemma DeliverKeepsOpen(cfg: Config, st: T.State, k: T.FlowKey, pp: ParsedPacket, now: uint64, open: bool)
    requires T.Linked(cfg, st) && k in st.flows && |pp.l4.payload| < TWO_31
    requires !T.Dir(st.flows[k], open).finSeen && (T.Forward(pp) == open ==> !T.FlagsOf(pp).fin)
    ensures
      var t := T.Deliver(cfg, st, k, pp, false, now).0;
      && t.flows.Keys == st.flows.Keys && k in t.flows
      && t.flows[k].lastSeen == st.flows[k].lastSeen && !T.Dir(t.flows[k], open).finSeen
  {
    hide Names, Weight, Sorted, Sized, Bytes, Data, Flatten, Refused;
    assert T.FlowOk(cfg, st.flows[k]);
    var d := Start(T.Dir(st.flows[k], T.Forward(pp)), pp.l4.tcpSeq, T.FlagsOf(pp).syn);
    DataKeepsFin(cfg, d, T.SegOf(pp), T.Mem(st), now);
  }

  lemma OwnKeepsOpen(cfg: Config, st: T.State, e: Event, side: Side, keys: set<T.FlowKey>, seen: uint64)
    requires OpenAt(cfg, st, side, keys, seen) && SmallOne(e) && OfFlow(e, side.k) && LeavesOpen(e, side)
    ensures OpenAt(cfg, TableStep(cfg, st, e).0, side, keys, e.now)
  {
    hide Names, Weight, T.Deliver, T.WithinCaps, T.Linked, T.FlagsOf;
    GoodLinked(cfg, st);
    var k := side.k;
    T.TouchedLinked(cfg, st, k, e.now);
    var s2 := T.Touched(st, k, e.now);
    assert s2.flows.Keys == st.flows.Keys;
    DeliverKeepsOpen(cfg, s2, k, e.pp, e.now, side.forward);
  }

  lemma DeliverElsewhere(cfg: Config, st: T.State, j: T.FlowKey, pp: ParsedPacket, now: uint64)
    requires T.Linked(cfg, st) && j in st.flows && |pp.l4.payload| < TWO_31
    ensures
      var t := T.Deliver(cfg, st, j, pp, false, now).0;
      && t.flows.Keys <= st.flows.Keys
      && forall k :: k in st.flows && k != j ==> k in t.flows && t.flows[k] == st.flows[k]
  {
    hide Names, Weight, Segment, Flatten, Refused, T.DirectionOk;
  }

  lemma OtherKeepsOpen(cfg: Config, st: T.State, e: Event, side: Side, keys: set<T.FlowKey>, seen: uint64)
    requires OpenAt(cfg, st, side, keys, seen) && SmallOne(e) && e.Packet? && AmongOne(e, keys)
    requires !OfFlow(e, side.k)
    ensures OpenAt(cfg, TableStep(cfg, st, e).0, side, keys, seen)
  {
    hide Names, Weight, T.Deliver, T.WithinCaps, T.Linked, T.FlagsOf, T.Evict;
    GoodLinked(cfg, st);
    if e.pp.l4.isTcp {
      var j := T.KeyOf(e.pp);
      if j !in st.flows {
        NoEviction(cfg, st, j, keys);
      }
      T.TouchedLinked(cfg, st, j, e.now);
      DeliverElsewhere(cfg, T.Touched(st, j, e.now), j, e.pp, e.now);
    }
  }

  lemma SweepKeepsOpen(cfg: Config, st: T.State, now: uint64, side: Side, keys: set<T.FlowKey>, seen: uint64)
    requires OpenAt(cfg, st, side, keys, seen) && Elapsed(now, seen) < cfg.idleTimeout
    ensures OpenAt(cfg, TableStep(cfg, st, Sweep(now)).0, side, keys, seen)
  {
    hide Names, Weight, T.WithinCaps, T.Linked, Keep;
    GoodLinked(cfg, st);
  }

  // While the flows under way fit the table, no sweep is late, nothing resets the flow and
  // one of its sides sends no FIN, the flow is there.
  lemma {:induction false} StaysPresent(cfg: Config, st: T.State, es: seq<Event>, side: Side, keys: set<T.FlowKey>)
    requires Small(es) && side.k in st.flows && OpenAt(cfg, st, side, keys, st.flows[side.k].lastSeen)
    requires Among(es, keys) && LeftOpen(es, side) && Timely(cfg, es, side.k, st.flows[side.k].lastSeen)
    ensures Present(cfg, st, es, side.k)
    ensures OpenAt(cfg, After(cfg, st, es), side, keys, LastSeen(es, side.k, st.flows[side.k].lastSeen))
  {
    hide TableStep, OpenAt, Good, Mine, T.FlagsOf, OfFlow;
    OpenIsGood(cfg, st, side, keys, st.flows[side.k].lastSeen);
    if es != [] {
      var p, e := es[..|es| - 1], es[|es| - 1];
      assert forall i :: 0 <= i < |p| ==> p[..i] == es[..i] && p[i] == es[i];
      StaysPresent(cfg, st, p, side, keys);
      var t, seen := After(cfg, st, p), LastSeen(p, side.k, st.flows[side.k].lastSeen);
      OpenIsGood(cfg, t, side, keys, seen);
      assert SmallOne(e) && AmongOne(e, keys) && LeavesOpen(e, side);
      if OfFlow(e, side.k) {
        OwnKeepsOpen(cfg, t, e, side, keys, seen);
      } else if e.Packet? {
        OtherKeepsOpen(cfg, t, e, side, keys, seen);
      } else {
        SweepKeepsOpen(cfg, t, e.now, side, keys, seen);
      }
    }
  }

  lemma OpenIsGood(cfg: Config, st: T.State, side: Side, keys: set<T.FlowKey>, seen: uint64)
    requires OpenAt(cfg, st, side, keys, seen)
    ensures Good(cfg, st) && side.k in st.flows
  {
  }

  // ---- room for all that comes

  function Payload(e: Event): nat {
    if e.Packet? && e.pp.l4.isTcp then |e.pp.l4.payload| else 0
  }

  // All payload bytes of the traffic.
  function TrafficBytes(es: seq<Event>): nat {
    if es == [] then 0 else TrafficBytes(es[..|es| - 1]) + Payload(es[|es| - 1])
  }

  function OwnBytes(es: seq<Event>, side: Side): nat {
    if es == [] then 0
    else OwnBytes(es[..|es| - 1], side) + if Mine(es[|es| - 1], side) then Payload(es[|es| - 1]) else 0
  }

  lemma OkIsTidy(cfg: Config, st: T.State, k: T.FlowKey, forward: bool)
    requires T.Linked(cfg, st) && k in st.flows
    ensures Tidy(T.Dir(st.flows[k], forward))
  {
    assert T.FlowOk(cfg, st.flows[k]);
  }

  lemma DeliverMem(cfg: Config, st: T.State, k: T.FlowKey, pp: ParsedPacket, evicted: bool, now: uint64)
    requires T.Linked(cfg, st) && k in st.flows && |pp.l4.payload| < TWO_31
    ensures T.Mem(T.Deliver(cfg, st, k, pp, evicted, now).0) <= T.Mem(st) + |pp.l4.payload|
  {
    hide Names, Weight, Segment, Sorted, Sized, Bytes, Without, Flatten, Refused;
    var d := T.Dir(st.flows[k], T.Forward(pp));
    OkIsTidy(cfg, st, k, T.Forward(pp));
    SegmentTidy(cfg, d, T.SegOf(pp), T.FlagsOf(pp), T.Mem(st), now);
    var f1 := T.WithDir(st.flows[k], T.Forward(pp), Segment(cfg, d, T.SegOf(pp), T.FlagsOf(pp), T.Mem(st), now).0);
    PutNames(st.order, st.flows, k, f1, T.Buffered);
    DropNames(st.order, st.flows[k := f1], k, T.Buffered);
  }

  lemma StepMem(cfg: Config, st: T.State, e: Event)
    requires Good(cfg, st) && SmallOne(e)
    ensures T.Mem(TableStep(cfg, st, e).0) <= T.Mem(st) + Payload(e)
  {
    hide Names, Weight, T.FlowOk, Without, T.Evict, T.Touched, T.Deliver;
    GoodLinked(cfg, st);
    match e
    case Packet(pp, now, _) =>
      if pp.l4.isTcp {
        var k := T.KeyOf(pp);
        T.EvictLinked(cfg, st, k);
        var s1 := if k in st.flows then st else T.Evict(cfg, st, k);
        T.TouchedLinked(cfg, s1, k, now);
        var s2 := T.Touched(s1, k, now);
        if T.FlagsOf(pp).rst {
          DropNames(s2.order, s2.flows, k, T.Buffered);
        } else {
          DeliverMem(cfg, s2, k, pp, s1 != st, now);
        }
      }
    case Sweep(now) =>
      KeepNames(st.order, st.flows, (set k | k in st.flows && !T.Idle(cfg, st.flows[k].lastSeen, now)), T.Buffered);
  }

  // What the arrivals of one side find buffered, and what they bring.
  lemma {:induction false} TrafficMem(cfg: Config, st: T.State, es: seq<Event>, side: Side)
    requires Good(cfg, st) && Small(es)
    ensures T.Mem(After(cfg, st, es)) <= T.Mem(st) + TrafficBytes(es)
    ensures
      var run := Arrivals(cfg, st, es, side);
      && Carries(run) == OwnBytes(es, side)
      && forall i :: 0 <= i < |run| ==> run[i].mem + Len(run[i]) <= T.Mem(st) + TrafficBytes(es)
  {
    hide TableStep, Good, T.Mem, Carries, Len, Payload, Mine, ArrivalOf;
    if es == [] {
      NoArrivals();
    } else {
      var p, e := es[..|es| - 1], es[|es| - 1];
      TrafficMem(cfg, st, p, side);
      StepMem(cfg, After(cfg, st, p), e);
      if Mine(e, side) {
        var before, a := Arrivals(cfg, st, p, side), ArrivalOf(e, T.Mem(After(cfg, st, p)));
        OwnLength(e, side, T.Mem(After(cfg, st, p)));
        CarriesMore(before, a);
      }
    }
  }

  lemma NoArrivals()
    ensures Carries([]) == 0
  {
  }

  lemma OwnLength(e: Event, side: Side, mem: nat)
    requires Mine(e, side)
    ensures ArrivalOf(e, mem).mem == mem && Len(ArrivalOf(e, mem)) == Payload(e)
  {
  }

  lemma CarriesMore(run: seq<Arrival>, a: Arrival)
    ensures Carries(run + [a]) == Carries(run) + Len(a)
  {
    assert (run + [a])[..|run|] == run;
  }

  // ---- what one side gets, from the traffic alone

  // All flows fit the table and all bytes the caps; sweeps come in time; nothing resets the
  // flow, and one of its sides, `open`, sends no FIN.
  ghost predicate Kind(cfg: Config, st: T.State, es: seq<Event>, side: Side, open: bool, keys: set<T.FlowKey>)
    requires Good(cfg, st) && Small(es) && side.k in st.flows
  {
    var f := st.flows[side.k];
    && st.flows.Keys <= keys && |keys| <= cfg.maxFlows && Among(es, keys)
    && !T.Dir(f, open).finSeen && LeftOpen(es, Side(side.k, open)) && Timely(cfg, es, side.k, f.lastSeen)
    && T.Mem(st) + TrafficBytes(es) <= cfg.maxMem
    && T.Dir(f, side.forward).oooBytes + OwnBytes(es, side) <= cfg.maxStream
  }

  // Amid such traffic, if the segments of one side are prompt and mannerly: at every moment the
  // side has got the longest contiguous prefix of what was buffered and received.
  lemma TrafficDeliversPrefix(cfg: Config, st: T.State, es: seq<Event>, side: Side, open: bool, keys: set<T.FlowKey>,
                              s: seq<byte>, base: uint32, w: nat) returns (n: nat)
    requires Good(cfg, st) && Small(es) && AllHonest(es, side, s, base)
    requires side.k in st.flows && Exact(s, base, T.Dir(st.flows[side.k], side.forward), w)
    requires Kind(cfg, st, es, side, open, keys)
    requires Prompt(cfg, T.Dir(st.flows[side.k], side.forward), Arrivals(cfg, st, es, side))
    requires AllMannerly(s, base, T.Dir(st.flows[side.k], side.forward), w, Arrivals(cfg, st, es, side))
    ensures
      var n0 := Min(w, |s|);
      && FirstMissing(s, base, T.Dir(st.flows[side.k], side.forward), w, Arrivals(cfg, st, es, side), n0, n)
      && Delivered(cfg, st, es, side) == s[n0..n]
  {
    hide Good, Delivered, Arrivals, Calm, InOrder, Run, Known, Prompt, AllMannerly, ExpectsAt, T.Mem, TrafficBytes,
      OwnBytes,
      Timely, Among, LeftOpen, Tidy, Carries;
    var d, run := T.Dir(st.flows[side.k], side.forward), Arrivals(cfg, st, es, side);
    StaysPresent(cfg, st, es, Side(side.k, open), keys);
    OpenExact(s, base, d, w);
    Projects(cfg, st, es, side, s, base);
    GoodLinked(cfg, st);
    OkIsTidy(cfg, st, side.k, side.forward);
    TrafficMem(cfg, st, es, side);
    MannerlyIsCalm(cfg, s, base, d, w, run);
    n := TableDeliversPrefix(cfg, st, es, side, s, base, w);
  }

  lemma OpenExact(s: seq<byte>, base: uint32, d: Direction, w: nat)
    requires Exact(s, base, d, w)
    ensures d.initialized
  {
    hide Chain, Ahead;
  }
}
