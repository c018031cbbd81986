/** The manager object: per-event state, ingress queue and counters, updated in place. */
module IdsmManager {
  import opened Machine
  import opened IdsmChain
  import opened IdsmFilters

  datatype Stats = Stats(
    reported: uint32, off: uint32, block: uint32, sampling: uint32, threshold: uint32,
    qualified: uint32, toDem: uint32, toIdsr: uint32)

  function Inc(n: uint32): uint32 {
    Wrap32(n + 1)
  }

  // What the counters make of a fate met while an event is processed. A released
  // aggregate that the threshold drops is not counted.
  function Count(s: Stats, f: Fate, released: bool): Stats {
    match f
    case Dropped(_, ModeOff, _) => s.(off := Inc(s.off))
    case Dropped(_, BlockState, _) => s.(block := Inc(s.block))
    case Dropped(_, Sampling, _) => s.(sampling := Inc(s.sampling))
    case Dropped(_, Threshold, _) => if released then s else s.(threshold := Inc(s.threshold))
    case Absorbed(_, _) => s
    case Qualified(_, _) => s.(qualified := Inc(s.qualified))
  }

  // The counters, what the sinks were handed, and which sinks are registered.
  datatype Sinks = Sinks(stats: Stats, dem: seq<QSEv>, idsr: seq<QSEv>, demSet: bool, idsrSet: bool)

  // After one fate: a qualified event goes to the sinks configured for it that are registered,
  // and is counted for each of them.
  function Dealt(k: Sinks, c: Config, f: Fate, released: bool): Sinks {
    var (toDem, toIdsr) := (f.Qualified? && c.toDem && k.demSet, f.Qualified? && c.toIdsr && k.idsrSet);
    k.(dem := k.dem + (if toDem then [f.qsev] else []), idsr := k.idsr + (if toIdsr then [f.qsev] else []),
       stats := Count(k.stats, f, released).(
         toDem := if toDem then Inc(k.stats.toDem) else k.stats.toDem,
         toIdsr := if toIdsr then Inc(k.stats.toIdsr) else k.stats.toIdsr))
  }

  // After the fates of a sweep, in order.
  function AllDealt(k: Sinks, sevs: seq<SevState>, fates: seq<Fate>): Sinks
    requires forall f :: f in fates ==> f.id < |sevs|
  {
    if fates == [] then k
    else
      var f := fates[|fates| - 1];
      Dealt(AllDealt(k, sevs, fates[..|fates| - 1]), sevs[f.id].config, f, true)
  }

  lemma DealtMore(k: Sinks, sevs: seq<SevState>, fates: seq<Fate>, more: seq<Fate>)
    requires forall f :: f in fates ==> f.id < |sevs|
    requires |more| <= 1 && (more != [] ==> more[0].id < |sevs|)
    ensures AllDealt(k, sevs, fates + more) ==
              if more == [] then AllDealt(k, sevs, fates)
              else Dealt(AllDealt(k, sevs, fates), sevs[more[0].id].config, more[0], true)
  {
    hide Dealt;
    if more == [] {
      assert fates + more == fates;
    } else {
      assert (fates + more)[..|fates|] == fates;
    }
  }

  // Each fate moves its own counter by one and no other; an aggregate released below the
  // threshold, and an event that waits, move none.
  lemma CountIff(k: Sinks, c: Config, f: Fate, released: bool)
    ensures
      var (s, t) := (k.stats, Dealt(k, c, f, released).stats);
      var one := (b: bool) => if b then 1 else 0;
      && t.reported == s.reported
      && t.off == Wrap32(s.off + one(f.Dropped? && f.reason == ModeOff))
      && t.block == Wrap32(s.block + one(f.Dropped? && f.reason == BlockState))
      && t.sampling == Wrap32(s.sampling + one(f.Dropped? && f.reason == Sampling))
      && t.threshold == Wrap32(s.threshold + one(f.Dropped? && f.reason == Threshold && !released))
      && t.qualified == Wrap32(s.qualified + one(f.Qualified?))
      && t.toDem == Wrap32(s.toDem + one(f.Qualified? && c.toDem && k.demSet))
      && t.toIdsr == Wrap32(s.toIdsr + one(f.Qualified? && c.toIdsr && k.idsrSet))
  {
  }

  function QueuedFor(queue: seq<SEv>, id: nat): nat {
    if queue == [] then 0 else QueuedFor(queue[1..], id) + if queue[0].id == id then 1 else 0
  }

  lemma SweepFates(st: SevState, id: nat, now: uint32)
    ensures var fates := Sweep(st, id, now).1; |fates| <= 1 && (fates != [] ==> fates[0].id == id)
  {
  }

  lemma SweepNothing(k: Sinks, sevs: seq<SevState>, now: uint32)
    ensures SweepAll(sevs, now, 0) == (sevs, []) && AllDealt(k, sevs, []) == k
  {
  }

  // One record more of a sweep.
  lemma SweepMore(k: Sinks, sevs: seq<SevState>, now: uint32, i: nat)
    requires i < |sevs| && forall f :: f in SweepAll(sevs, now, i).1 ==> f.id < |sevs|
    ensures
      var (all, next, one) := (SweepAll(sevs, now, i), SweepAll(sevs, now, i + 1), Sweep(sevs[i], i, now));
      && all.0[i] == sevs[i] && next == (all.0[i := one.0], all.1 + one.1)
      && (forall f :: f in next.1 ==> f.id < |sevs|)
      && AllDealt(k, sevs, next.1) ==
           var before := AllDealt(k, sevs, all.1);
           if one.1 == [] then before else Dealt(before, sevs[i].config, one.1[0], true)
  {
    hide Sweep, Dealt, AllDealt;
    SweepAllAt(sevs, now, i);
    SweepFates(sevs[i], i, now);
    DealtMore(k, sevs, SweepAll(sevs, now, i).1, Sweep(sevs[i], i, now).1);
  }

  lemma {:induction false} QueuedJoin(a: seq<SEv>, b: seq<SEv>, id: nat)
    ensures QueuedFor(a + b, id) == QueuedFor(a, id) + QueuedFor(b, id)
  {
    if a == [] {
      assert a + b == b;
    } else {
      assert (a + b)[1..] == a[1..] + b;
      QueuedJoin(a[1..], b, id);
    }
  }

  lemma {:induction false} QueuedBound(q: seq<SEv>, id: nat)
    ensures QueuedFor(q, id) <= |q|
  {
    if q != [] {
      QueuedBound(q[1..], id);
    }
  }

  class IdsmManager {
    var sevs: seq<SevState>
    var blockState: byte
    var instanceId: uint16
    var queue: seq<SEv>
    var stats: Stats
    var demSet: bool
    var idsrSet: bool
    // What was handed to the sinks.
    var dem: seq<QSEv>
    var idsr: seq<QSEv>
    // The fate of everything processed so far.
    ghost var fates: seq<Fate>

    ghost function Abs(): Manager
      reads this
    {
      Manager(sevs, blockState, instanceId)
    }

    ghost function AllSinks(): Sinks
      reads this
    {
      Sinks(stats, dem, idsr, demSet, idsrSet)
    }

    // The pending counters agree with the queue.
    ghost predicate Valid()
      reads this
    {
      && |queue| < TWO_32
      && forall i :: 0 <= i < |sevs| ==> sevs[i].pending == QueuedFor(queue, i)
    }

    constructor (configs: seq<(Config, Mode)>, instance: uint16)
      ensures Valid() && fates == [] && queue == []
      ensures sevs == seq(|configs|, i requires 0 <= i < |configs| => Initial(configs[i].0, configs[i].1))
    {
      sevs := seq(|configs|, i requires 0 <= i < |configs| => Initial(configs[i].0, configs[i].1));
      blockState, instanceId, queue := 0, instance, [];
      stats := Stats(0, 0, 0, 0, 0, 0, 0, 0);
      demSet, idsrSet, dem, idsr, fates := false, false, [], [], [];
    }

    // Queue an event; a count of 0 stands for one occurrence.
    method ReportSecurityEvent(ev: SEv)
      requires Valid() && |queue| < TWO_32 - 1
      modifies this`queue, this`sevs, this`stats
      ensures Valid()
      ensures ev.id >= |old(sevs)| ==> queue == old(queue) && sevs == old(sevs) && stats == old(stats)
      ensures ev.id < |old(sevs)| ==>
        && queue == old(queue) + [ev.(count := if ev.count == 0 then 1 else ev.count)]
        && sevs == old(sevs)[ev.id := old(sevs)[ev.id].(pending := Wrap32(old(sevs)[ev.id].pending + 1))]
        && stats == old(stats).(reported := Inc(old(stats).reported))
    {
      if ev.id >= |sevs| {
        return;
      }
      var owned := ev.(count := if ev.count == 0 then 1 else ev.count);
      forall i ensures QueuedFor(queue + [owned], i) == QueuedFor(queue, i) + if i == ev.id then 1 else 0 {
        QueuedJoin(queue, [owned], i);
        assert [owned][1..] == [];
      }
      QueuedBound(queue, ev.id);
      sevs := sevs[ev.id := sevs[ev.id].(pending := Wrap32(sevs[ev.id].pending + 1))];
      queue := queue + [owned];
      stats := stats.(reported := Inc(stats.reported));
    }

    method IsBlocked(c: Config) returns (blocked: bool)
      ensures blocked == (blockState in c.blocked)
    {
      for i := 0 to |c.blocked|
        invariant blockState !in c.blocked[..i]
      {
        if c.blocked[i] == blockState {
          return true;
        }
      }
      return false;
    }

    // Hand a qualified event to the configured sinks that are registered.
    method Dispatch(c: Config, q: QSEv)
      modifies this`dem, this`idsr, this`stats
      ensures dem == old(dem) + if c.toDem && demSet then [q] else []
      ensures idsr == old(idsr) + if c.toIdsr && idsrSet then [q] else []
      ensures stats == old(stats).(
        toDem := if c.toDem && demSet then Inc(old(stats).toDem) else old(stats).toDem,
        toIdsr := if c.toIdsr && idsrSet then Inc(old(stats).toIdsr) else old(stats).toIdsr)
    {
      if c.toDem && demSet {
        stats := stats.(toDem := Inc(stats.toDem));
        dem := dem + [q];
      }
      if c.toIdsr && idsrSet {
        stats := stats.(toIdsr := Inc(stats.toIdsr));
        idsr := idsr + [q];
      }
    }

    // The sinks got q if its fate is to be qualified, and the counters moved accordingly.
    twostate predicate Settled(c: Config, f: Fate, released: bool)
      reads this
    {
      AllSinks() == Dealt(old(AllSinks()), c, f, released) && fates == old(fates) + [f]
    }

    // Carry out the fate of an event: count it and, if it is qualified, dispatch it.
    method Settle(c: Config, f: Fate, released: bool)
      modifies this`dem, this`idsr, this`stats, this`fates
      ensures Settled(c, f, released)
    {
      match f {
        case Dropped(_, ModeOff, _) => stats := stats.(off := Inc(stats.off));
        case Dropped(_, BlockState, _) => stats := stats.(block := Inc(stats.block));
        case Dropped(_, Sampling, _) => stats := stats.(sampling := Inc(stats.sampling));
        case Dropped(_, Threshold, _) =>
          if !released {
            stats := stats.(threshold := Inc(stats.threshold));
          }
        case Absorbed(_, _) =>
        case Qualified(_, q) =>
          stats := stats.(qualified := Inc(stats.qualified));
          Dispatch(c, q);
      }
      fates := fates + [f];
    }

    // The filter chain on one event, in place.
    method RunFilters(id: nat, q: QSEv, now: uint32, aggNow: uint32) returns (f: Fate)
      requires id < |sevs|
      modifies this`sevs
      ensures
        var (st, fate) := Filter(blockState, old(sevs)[id], id, q, now, aggNow);
        sevs == old(sevs)[id := st] && f == fate
    {
      var st := sevs[id];
      var blocked := IsBlocked(st.config);
      if blocked {
        return Dropped(id, BlockState, q.count);
      }
      var (s1, forwarded) := PassNth(st, q.count);
      sevs := sevs[id := s1];
      if !forwarded {
        return Dropped(id, Sampling, q.count);
      }
      if st.config.aggInterval != 0 {
        var s2 := Stage(s1, q, aggNow);
        sevs := sevs[id := s2];
        return Absorbed(id, Staged(s1) + q.count - Staged(s2));
      }
      var (s2, passed) := PassThreshold(s1, q.count, now);
      sevs := sevs[id := s2];
      return if passed then Fate.Qualified(id, q) else Dropped(id, Threshold, q.count);
    }

    // One queued event, from reporting mode to the sinks.
    method ProcessEvent(ev: SEv, now: uint32, aggNow: uint32, internal: Timestamp)
      modifies this`sevs, this`stats, this`dem, this`idsr, this`fates
      ensures
        var (m, out) := Step(old(Abs()), Event(ev, now, aggNow, internal));
        && Abs() == m && fates == old(fates) + out
        && (out != [] ==> Settled(old(sevs)[ev.id].config, out[0], false))
    {
      hide Filter;
      if ev.id >= |sevs| {
        assert fates + [] == fates;
        return;
      }
      var st := sevs[ev.id];
      var f := Dropped(ev.id, ModeOff, ev.count);
      if st.mode.Off? {
        assert sevs == sevs[ev.id := st];
      } else {
        var q := QSEv(instanceId, st.config.externalId, st.config.sensorId, st.config.severity, ev.count,
                      if ev.timestamp.Some? then ev.timestamp.value else internal, ev.version,
                      if BriefMode(st.mode) then [] else ev.context);
        sevs := sevs[ev.id := st.(violated := true)];
        f := Fate.Qualified(ev.id, q);
        if !Bypassing(st.mode) {
          f := RunFilters(ev.id, q, now, aggNow);
        }
      }
      Settle(st.config, f, false);
    }

    // Release the aggregate staged for an event ID now.
    method FlushEvents(id: nat, now: uint32) returns (ok: bool)
      modifies this`sevs, this`stats, this`dem, this`idsr, this`fates
      ensures ok == (id < |old(sevs)|)
      ensures
        var (m, out) := Step(old(Abs()), Flush(id, now));
        && Abs() == m && fates == old(fates) + out
        && (out != [] ==> Settled(old(sevs)[id].config, out[0], true))
    {
      if id >= |sevs| {
        assert fates + [] == fates;
        return false;
      }
      ok := true;
      if sevs[id].agg.Some? {
        ReleaseNow(id, now);
      } else {
        assert fates + [] == fates;
      }
    }

    method ReleaseNow(id: nat, now: uint32)
      requires id < |sevs| && sevs[id].agg.Some?
      modifies this`sevs, this`stats, this`dem, this`idsr, this`fates
      ensures
        var (st, f) := Release(old(sevs)[id], id, now);
        sevs == old(sevs)[id := st] && Settled(old(sevs)[id].config, f, true)
    {
      var st := sevs[id];
      var q := st.agg.value;
      var (s1, passed) := PassThreshold(st.(agg := None), q.count, now);
      sevs := sevs[id := s1];
      Settle(st.config, if passed then Fate.Qualified(id, q) else Dropped(id, Threshold, q.count), true);
    }

    // Release due aggregates, close due threshold windows, and say when to look again.
    method ExpireWindows(now: uint32) returns (next: uint32)
      modifies this`sevs, this`stats, this`dem, this`idsr, this`fates
      ensures
        var (m, out) := Step(old(Abs()), Op.Expire(now));
        && Abs() == m && fates == old(fates) + out
        && (forall f :: f in out ==> f.id < |old(sevs)|)
        && AllSinks() == AllDealt(old(AllSinks()), old(sevs), out)
      ensures next == DeadlineAfter(old(sevs), now, |old(sevs)|)
    {
      hide Sweep, Dealt, AllDealt, SweepAll;
      SweepNothing(AllSinks(), sevs, now);
      next := 0;
      ghost var before := sevs;
      assert fates + [] == fates;
      for i := 0 to |sevs|
        invariant |sevs| == |before| && sevs == SweepAll(before, now, i).0
        invariant fates == old(fates) + SweepAll(before, now, i).1
        invariant forall f :: f in SweepAll(before, now, i).1 ==> f.id < |before|
        invariant AllSinks() == AllDealt(old(AllSinks()), before, SweepAll(before, now, i).1)
        invariant next == DeadlineAfter(before, now, i)
      {
        SweepMore(old(AllSinks()), before, now, i);
        ghost var sofar, more := SweepAll(before, now, i).1, Sweep(before[i], i, now).1;
        next := SweepOne(i, now, next);
        assert (old(fates) + sofar) + more == old(fates) + (sofar + more);
      }
    }

    method SweepOne(i: nat, now: uint32, next: uint32) returns (after: uint32)
      requires i < |sevs|
      modifies this`sevs, this`stats, this`dem, this`idsr, this`fates
      ensures
        var (st, out) := Sweep(old(sevs)[i], i, now);
        && sevs == old(sevs)[i := st] && fates == old(fates) + out
        && AllSinks() ==
             if out == [] then old(AllSinks()) else Dealt(old(AllSinks()), old(sevs)[i].config, out[0], true)
      ensures after == NextDeadline(old(sevs)[i], now, next)
    {
      var st := sevs[i];
      after := next;
      assert fates + [] == fates;
      if st.agg.Some? && st.config.aggInterval != 0 {
        var deadline := Wrap32(st.aggStart + st.config.aggInterval);
        if now >= deadline {
          ReleaseNow(i, now);
          return;
        }
        if after == 0 || deadline < after {
          after := deadline;
        }
      }
      if st.thrOpen {
        var deadline := Wrap32(st.thrStart + st.config.thrInterval);
        if now >= deadline {
          sevs := sevs[i := st.(thrOpen := false, thrSum := 0)];
        } else if after == 0 || deadline < after {
          after := deadline;
        }
      }
      assert sevs[i := sevs[i]] == sevs;
    }

    // Empty the queue into a batch, keeping the pending counters in step.
    method Drain() returns (batch: seq<SEv>)
      requires Valid()
      modifies this`queue, this`sevs
      ensures Valid() && queue == [] && batch == old(queue) && |sevs| == |old(sevs)|
      ensures forall i :: 0 <= i < |sevs| ==> sevs[i] == old(sevs)[i].(pending := 0)
    {
      batch := [];
      while queue != []
        invariant Valid() && batch + queue == old(queue) && |sevs| == |old(sevs)|
        invariant forall i :: 0 <= i < |sevs| ==> sevs[i] == old(sevs)[i].(pending := sevs[i].pending)
        decreases |queue|
      {
        var ev := queue[0];
        if ev.id < |sevs| && sevs[ev.id].pending > 0 {
          sevs := sevs[ev.id := sevs[ev.id].(pending := sevs[ev.id].pending - 1)];
        }
        batch := batch + [ev];
        queue := queue[1..];
      }
    }

    method SetReportingMode(id: nat, mode: Mode) returns (ok: bool)
      modifies this`sevs
      ensures ok == (id < |sevs|) && Abs() == Step(old(Abs()), SetMode(id, mode)).0
    {
      ok := id < |sevs|;
      if ok {
        sevs := sevs[id := sevs[id].(mode := mode)];
      }
    }

    method BswMStateChanged(state: byte)
      modifies this`blockState
      ensures Abs() == Step(old(Abs()), SetBlock(state)).0
    {
      blockState := state;
    }
  }
}
