/**
 * The filter chain of the intrusion detection manager, as functions on the state
 * of one security event (SEv) and of the manager: reporting mode, block state,
 * forward-every-nth, aggregation window, threshold window, qualification.
 */
module IdsmChain {
  import opened Machine

  const COUNT_MAX: int := 0xFFFF

  datatype Mode = Off | Brief | Detailed | BriefBypassing | DetailedBypassing

  datatype Timestamp = Timestamp(seconds: uint32, nanoseconds: uint32, oem: bool)

  // blocked: the block states that drop the event. A filter whose setting is 0 is off.
  datatype Config = Config(
    externalId: uint16, sensorId: byte, severity: byte,
    blocked: seq<byte>, everyNth: uint16,
    aggInterval: uint32, threshold: uint16, thrInterval: uint32,
    toDem: bool, toIdsr: bool)

  datatype SEv = SEv(id: nat, context: seq<byte>, version: uint16, count: uint16, timestamp: Option<Timestamp>)

  datatype QSEv = QSEv(
    instanceId: uint16, externalId: uint16, sensorId: byte, severity: byte,
    count: uint16, timestamp: Timestamp, version: uint16, context: seq<byte>)

  // pending: events queued and not yet processed.
  datatype SevState = SevState(
    config: Config, mode: Mode, violated: bool, pending: uint32,
    nth: uint16,
    agg: Option<QSEv>, aggStart: uint32,
    thrOpen: bool, thrStart: uint32, thrSum: uint32)

  datatype Manager = Manager(sevs: seq<SevState>, blockState: byte, instanceId: uint16)

  // What becomes of an event, or of a released aggregate.
  datatype Reason = ModeOff | BlockState | Sampling | Threshold
  datatype Fate =
    | Dropped(id: nat, reason: Reason, count: nat)
    | Absorbed(id: nat, lost: nat)
    | Qualified(id: nat, qsev: QSEv)

  // ---- the filters ----

  function Initial(c: Config, mode: Mode): SevState {
    SevState(c, mode, false, 0, c.everyNth, None, 0, false, 0, 0)
  }

  function PassNth(st: SevState, count: uint16): (SevState, bool) {
    if st.config.everyNth == 0 then (st, true)
    else if st.nth + count >= st.config.everyNth then (st.(nth := 0), true)
    else (st.(nth := st.nth + count), false)
  }

  // Every event is absorbed when the filter is on. The sum saturates.
  function Merge(a: uint16, b: uint16): uint16 {
    Min(a + b, COUNT_MAX)
  }

  function Stage(st: SevState, q: QSEv, now: uint32): SevState {
    if st.agg.None? then st.(agg := Some(q), aggStart := now)
    else st.(agg := Some(st.agg.value.(count := Merge(st.agg.value.count, q.count))))
  }

  // Occurrences waiting in the aggregation window.
  function Staged(st: SevState): nat {
    if st.agg.Some? then st.agg.value.count else 0
  }

  function PassThreshold(st: SevState, count: uint16, now: uint32): (SevState, bool) {
    if st.config.threshold == 0 then (st, true)
    else
      var window := if st.thrOpen then st else st.(thrOpen := true, thrStart := now, thrSum := 0);
      var sum := Wrap32(window.thrSum + count);
      (window.(thrSum := sum), sum >= st.config.threshold)
  }

  predicate Bypassing(m: Mode) {
    m.BriefBypassing? || m.DetailedBypassing?
  }

  predicate BriefMode(m: Mode) {
    m.Brief? || m.BriefBypassing?
  }

  function Qualify(m: Manager, st: SevState, ev: SEv, internal: Timestamp): QSEv {
    QSEv(m.instanceId, st.config.externalId, st.config.sensorId, st.config.severity,
         ev.count, if ev.timestamp.Some? then ev.timestamp.value else internal, ev.version,
         if BriefMode(st.mode) then [] else ev.context)
  }

  // The filters in their order; q carries the count of the event. The clock is
  // read once for the threshold window and once for the aggregation window.
  function Filter(blockState: byte, st: SevState, id: nat, q: QSEv, now: uint32, aggNow: uint32): (SevState, Fate) {
    if blockState in st.config.blocked then (st, Dropped(id, BlockState, q.count))
    else
      var (s1, forwarded) := PassNth(st, q.count);
      if !forwarded then (s1, Dropped(id, Sampling, q.count))
      else if st.config.aggInterval != 0 then
        (Stage(s1, q, aggNow), Absorbed(id, Staged(s1) + q.count - Staged(Stage(s1, q, aggNow))))
      else
        var (s2, passed) := PassThreshold(s1, q.count, now);
        (s2, if passed then Qualified(id, q) else Dropped(id, Threshold, q.count))
  }

  // One event: reporting mode, then the filters unless the mode bypasses them.
  function Process(m: Manager, st: SevState, ev: SEv, now: uint32, aggNow: uint32, internal: Timestamp): (SevState,
                   Fate) {
    if st.mode.Off? then (st, Dropped(ev.id, ModeOff, ev.count))
    else
      var q := Qualify(m, st, ev, internal);
      if Bypassing(st.mode) then (st.(violated := true), Qualified(ev.id, q))
      else Filter(m.blockState, st.(violated := true), ev.id, q, now, aggNow)
  }

  // A staged aggregate leaves its window and meets the threshold filter.
  function Release(st: SevState, id: nat, now: uint32): (SevState, Fate)
    requires st.agg.Some?
  {
    var q := st.agg.value;
    var (s1, passed) := PassThreshold(st.(agg := None), q.count, now);
    (s1, if passed then Qualified(id, q) else Dropped(id, Threshold, q.count))
  }

  function AggDeadline(st: SevState): uint32 {
    Wrap32(st.aggStart + st.config.aggInterval)
  }

  function ThrDeadline(st: SevState): uint32 {
    Wrap32(st.thrStart + st.config.thrInterval)
  }

  predicate AggDue(st: SevState, now: uint32) {
    st.agg.Some? && st.config.aggInterval != 0 && AggDeadline(st) <= now
  }

  predicate ThrDue(st: SevState, now: uint32) {
    st.thrOpen && ThrDeadline(st) <= now
  }

  // One SEv in a sweep. A SEv whose aggregate is released is not looked at again.
  function Sweep(st: SevState, id: nat, now: uint32): (SevState, seq<Fate>) {
    if AggDue(st, now) then
      var (s1, fate) := Release(st, id, now);
      (s1, [fate])
    else if ThrDue(st, now) then (st.(thrOpen := false, thrSum := 0), [])
    else (st, [])
  }

  // Deadlines the sweep takes into account: 0 when there is none.
  function Earlier(next: uint32, deadline: uint32): uint32 {
    if next == 0 || deadline < next then deadline else next
  }

  function NextDeadline(st: SevState, now: uint32, next: uint32): uint32 {
    if AggDue(st, now) then next
    else
      var a := if st.agg.Some? && st.config.aggInterval != 0 then Earlier(next, AggDeadline(st)) else next;
      if st.thrOpen && !ThrDue(st, now) then Earlier(a, ThrDeadline(st)) else a
  }

  // ---- the manager ----

  datatype Op =
    | Event(ev: SEv, now: uint32, aggNow: uint32, internal: Timestamp)
    | Expire(now: uint32)
    | Flush(id: nat, now: uint32)
    | SetMode(id: nat, mode: Mode)
    | SetBlock(state: byte)

  function SweepAll(sevs: seq<SevState>, now: uint32, k: nat): (r: (seq<SevState>, seq<Fate>))
    requires k <= |sevs|
    ensures |r.0| == |sevs|
  {
    if k == 0 then (sevs, [])
    else
      var (done, fates) := SweepAll(sevs, now, k - 1);
      var (st, more) := Sweep(sevs[k - 1], k - 1, now);
      (done[k - 1 := st], fates + more)
  }

  function Step(m: Manager, op: Op): (r: (Manager, seq<Fate>))
    ensures |r.0.sevs| == |m.sevs|
  {
    match op
    case Event(ev, now, aggNow, internal) =>
      if ev.id >= |m.sevs| then (m, [])
      else
        var (st, fate) := Process(m, m.sevs[ev.id], ev, now, aggNow, internal);
        (m.(sevs := m.sevs[ev.id := st]), [fate])
    case Expire(now) =>
      var (sevs, fates) := SweepAll(m.sevs, now, |m.sevs|);
      (m.(sevs := sevs), fates)
    case Flush(id, now) =>
      if id >= |m.sevs| || m.sevs[id].agg.None? then (m, [])
      else
        var (st, fate) := Release(m.sevs[id], id, now);
        (m.(sevs := m.sevs[id := st]), [fate])
    case SetMode(id, mode) =>
      if id >= |m.sevs| then (m, []) else (m.(sevs := m.sevs[id := m.sevs[id].(mode := mode)]), [])
    case SetBlock(state) => (m.(blockState := state), [])
  }

  function Run(m: Manager, ops: seq<Op>): (r: (Manager, seq<Fate>))
    ensures |r.0.sevs| == |m.sevs|
  {
    if ops == [] then (m, [])
    else
      var (m1, fates) := Run(m, ops[..|ops| - 1]);
      var (m2, more) := Step(m1, ops[|ops| - 1]);
      (m2, fates + more)
  }

  // ---- conservation ----

  // Occurrences of id that went into a run, and those accounted for at its end.
  function CountIn(ops: seq<Op>, id: nat): nat {
    if ops == [] then 0
    else
      var op := ops[|ops| - 1];
      CountIn(ops[..|ops| - 1], id) + if op.Event? && op.ev.id == id then op.ev.count else 0
  }

  function Share(f: Fate, id: nat): nat {
    if f.id != id then 0
    else match f
      case Dropped(_, _, count) => count
      case Absorbed(_, lost) => lost
      case Qualified(_, q) => q.count
  }

  function CountOut(fates: seq<Fate>, id: nat): nat {
    if fates == [] then 0 else CountOut(fates[..|fates| - 1], id) + Share(fates[|fates| - 1], id)
  }

  lemma {:induction false} CountOutJoin(a: seq<Fate>, b: seq<Fate>, id: nat)
    ensures CountOut(a + b, id) == CountOut(a, id) + CountOut(b, id)
  {
    if b == [] {
      assert a + b == a;
    } else {
      assert (a + b)[..|a + b| - 1] == a + b[..|b| - 1];
      CountOutJoin(a, b[..|b| - 1], id);
    }
  }

  lemma CountOutOne(f: Fate, id: nat)
    ensures CountOut([f], id) == Share(f, id)
  {
    assert [f][..0] == [];
  }

  lemma ProcessConserves(m: Manager, st: SevState, ev: SEv, now: uint32, aggNow: uint32, internal: Timestamp)
    ensures var (s1, fate) := Process(m, st, ev, now, aggNow, internal);
            fate.id == ev.id && Staged(st) + ev.count == Staged(s1) + Share(fate, ev.id)
  {
  }

  lemma ReleaseConserves(st: SevState, id: nat, now: uint32)
    requires st.agg.Some?
    ensures var (s1, fate) := Release(st, id, now);
            fate.id == id && Staged(st) == Staged(s1) + Share(fate, id)
  {
  }

  lemma SweepConserves(st: SevState, i: nat, now: uint32, id: nat)
    ensures var (s1, fates) := Sweep(st, i, now);
            CountOut(fates, id) == if i == id then Staged(st) - Staged(s1) else 0
  {
    if AggDue(st, now) {
      ReleaseConserves(st, i, now);
      CountOutOne(Release(st, i, now).1, id);
    }
  }

  // A sweep treats every SEv by itself.
  lemma {:induction false} SweepAllAt(sevs: seq<SevState>, now: uint32, k: nat)
    requires k <= |sevs|
    ensures forall j :: 0 <= j < |sevs| ==>
              SweepAll(sevs, now, k).0[j] == if j < k then Sweep(sevs[j], j, now).0 else sevs[j]
    decreases k
  {
    hide Sweep;
    if 0 < k {
      SweepAllAt(sevs, now, k - 1);
    }
  }

  lemma {:induction false} SweepAllConserves(sevs: seq<SevState>, now: uint32, k: nat, id: nat)
    requires k <= |sevs| && id < |sevs|
    ensures var (done, fates) := SweepAll(sevs, now, k); Staged(sevs[id]) == Staged(done[id]) + CountOut(fates, id)
    decreases k
  {
    hide Sweep, Staged;
    if 0 < k {
      SweepAllConserves(sevs, now, k - 1, id);
      SweepAllAt(sevs, now, k - 1);
      SweepConserves(sevs[k - 1], k - 1, now, id);
      CountOutJoin(SweepAll(sevs, now, k - 1).1, Sweep(sevs[k - 1], k - 1, now).1, id);
    }
  }

  lemma StepConserves(m: Manager, op: Op, id: nat)
    requires id < |m.sevs|
    ensures var (m1, fates) := Step(m, op);
            Staged(m.sevs[id]) + CountIn([op], id) == Staged(m1.sevs[id]) + CountOut(fates, id)
  {
    hide Process, Release, SweepAll;
    assert [op][..0] == [];
    match op {
      case Event(ev, now, aggNow, internal) =>
        if ev.id < |m.sevs| {
          ProcessConserves(m, m.sevs[ev.id], ev, now, aggNow, internal);
          CountOutOne(Step(m, op).1[0], id);
        }
      case Expire(now) => SweepAllConserves(m.sevs, now, |m.sevs|, id);
      case Flush(j, now) =>
        if j < |m.sevs| && m.sevs[j].agg.Some? {
          ReleaseConserves(m.sevs[j], j, now);
          CountOutOne(Step(m, op).1[0], id);
        }
      case SetMode(_, _) =>
      case SetBlock(_) =>
    }
  }

  // At every reachable state and for every event ID: what was processed is what
  // was dropped, qualified or lost to saturation, plus what is staged.
  lemma {:induction false} Conservation(m: Manager, ops: seq<Op>, id: nat)
    requires id < |m.sevs|
    ensures var (m1, fates) := Run(m, ops);
            Staged(m.sevs[id]) + CountIn(ops, id) == Staged(m1.sevs[id]) + CountOut(fates, id)
  {
    if ops != [] {
      var p, op := ops[..|ops| - 1], ops[|ops| - 1];
      Conservation(m, p, id);
      var (m1, fates) := Run(m, p);
      StepConserves(m1, op, id);
      CountOutJoin(fates, Step(m1, op).1, id);
      assert [op][..0] == [];
    }
  }

  // Occurrences are lost exactly when an aggregate would exceed 65535.
  lemma LostIffSaturates(m: Manager, st: SevState, ev: SEv, now: uint32, aggNow: uint32, internal: Timestamp)
    requires Process(m, st, ev, now, aggNow, internal).1.Absorbed?
    ensures Process(m, st, ev, now, aggNow, internal).1.lost == Max(0, Staged(st) + ev.count - COUNT_MAX)
  {
  }

  // A step about one ID leaves the filter state of every other ID as it was.
  lemma StepIsolated(m: Manager, op: Op, id: nat)
    requires id < |m.sevs|
    requires op.Event? ==> op.ev.id != id
    requires op.Flush? || op.SetMode? ==> op.id != id
    requires !op.Expire?
    ensures Step(m, op).0.sevs[id] == m.sevs[id]
  {
  }
}
