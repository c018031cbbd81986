/** Which fate every event gets, and what a qualified event carries, in terms of the configuration. */
module IdsmFates {
  import opened Machine
  import opened IdsmChain

  // ---- the tests, in order

  predicate Listed(c: Config, blockState: byte) {
    exists i :: 0 <= i < |c.blocked| && c.blocked[i] == blockState
  }

  // Fewer than n occurrences since the last event forwarded.
  predicate SampledOut(st: SevState, count: uint16) {
    st.config.everyNth != 0 && st.nth as int + count < st.config.everyNth
  }

  // The occurrences of the threshold window with this event, in 32 bits.
  function WindowSum(st: SevState, count: uint16): nat {
    ((if st.thrOpen then st.thrSum as int else 0) + count) % 0x1_0000_0000
  }

  predicate BelowThreshold(st: SevState, count: uint16) {
    st.config.threshold != 0 && WindowSum(st, count) < st.config.threshold
  }

  // A mode in which the filters are applied.
  predicate Filtering(st: SevState) {
    st.mode == Brief || st.mode == Detailed
  }

  // An event of a known ID has one fate. It is dropped when reporting is off, when the block
  // state is one of those configured, when it is not the n-th, or below the threshold; with
  // aggregation it waits; otherwise, or past all filters in a bypassing mode, it is qualified.
  lemma FateIff(m: Manager, ev: SEv, now: uint32, aggNow: uint32, internal: Timestamp)
    requires ev.id < |m.sevs|
    ensures
      var (st, fates) := (m.sevs[ev.id], Step(m, Op.Event(ev, now, aggNow, internal)).1);
      var reached := Filtering(st) && !Listed(st.config, m.blockState);
      var sampled := reached && !SampledOut(st, ev.count);
      var direct := sampled && st.config.aggInterval == 0;
      && |fates| == 1 && fates[0].id == ev.id && (fates[0].Dropped? ==> fates[0].count == ev.count)
      && (fates[0] == Dropped(ev.id, ModeOff, ev.count) <==> st.mode == Off)
      && (fates[0] == Dropped(ev.id, BlockState, ev.count) <==> Filtering(st) && Listed(st.config, m.blockState))
      && (fates[0] == Dropped(ev.id, Sampling, ev.count) <==> reached && SampledOut(st, ev.count))
      && (fates[0].Absorbed? <==> sampled && st.config.aggInterval != 0)
      && (fates[0] == Dropped(ev.id, Threshold, ev.count) <==> direct && BelowThreshold(st, ev.count))
      && (fates[0].Qualified? <==>
            st.mode == BriefBypassing || st.mode == DetailedBypassing || (direct && !BelowThreshold(st, ev.count)))
  {
    ListedIff(m.sevs[ev.id].config, m.blockState);
  }

  lemma ListedIff(c: Config, blockState: byte)
    ensures Listed(c, blockState) <==> blockState in c.blocked
  {
  }

  // With nothing configured every event is qualified unless reporting is off.
  lemma Unconfigured(m: Manager, ev: SEv, now: uint32, aggNow: uint32, internal: Timestamp)
    requires ev.id < |m.sevs| && m.sevs[ev.id].mode != Off
    requires var c := m.sevs[ev.id].config; c.blocked == [] && c.everyNth == 0 && c.aggInterval == 0 && c.threshold == 0
    ensures var fates := Step(m, Op.Event(ev, now, aggNow, internal)).1; |fates| == 1 && fates[0].Qualified?
  {
  }

  // ---- what it carries

  // What is reported of an event: the brief modes leave the context out, and nothing else.
  function Report(m: Manager, ev: SEv, internal: Timestamp): QSEv
    requires ev.id < |m.sevs|
  {
    var (st, c) := (m.sevs[ev.id], m.sevs[ev.id].config);
    QSEv(m.instanceId, c.externalId, c.sensorId, c.severity, ev.count,
         match ev.timestamp case Some(t) => t case None => internal, ev.version,
         if st.mode == Detailed || st.mode == DetailedBypassing then ev.context else [])
  }

  // A qualified event carries this report; an event that opens an aggregation window leaves
  // it waiting there, and one that finds a window open adds its occurrences to the first.
  lemma ReportCarried(m: Manager, ev: SEv, now: uint32, aggNow: uint32, internal: Timestamp)
    requires ev.id < |m.sevs|
    ensures
      var (m1, fates) := Step(m, Op.Event(ev, now, aggNow, internal));
      var (st, st1, q) := (m.sevs[ev.id], m1.sevs[ev.id], Report(m, ev, internal));
      && (fates[0].Qualified? ==> fates[0].qsev == q)
      && (!fates[0].Absorbed? ==> st1.agg == st.agg && st1.aggStart == st.aggStart)
      && (fates[0].Absorbed? && st.agg == None ==> st1.agg == Some(q) && st1.aggStart == aggNow)
      && (fates[0].Absorbed? && st.agg.Some? ==>
            && st1.aggStart == st.aggStart
            && st1.agg == Some(st.agg.value.(count := Min(0xFFFF, st.agg.value.count + ev.count))))
  {
    hide PassThreshold, PassNth;
    ThresholdOnly();
    SamplingOnly();
  }

  // What else an event changes: the sampling counter where that filter is met, and that the
  // event has occurred, unless reporting is off.
  lemma SamplingState(m: Manager, ev: SEv, now: uint32, aggNow: uint32, internal: Timestamp)
    requires ev.id < |m.sevs|
    ensures
      var (st, st1) := (m.sevs[ev.id], Step(m, Op.Event(ev, now, aggNow, internal)).0.sevs[ev.id]);
      var sampling := Filtering(st) && !Listed(st.config, m.blockState) && st.config.everyNth != 0;
      && st1.config == st.config && st1.mode == st.mode && st1.pending == st.pending
      && st1.violated == (st.violated || st.mode != Off)
      && st1.nth == (if !sampling then st.nth else if SampledOut(st, ev.count) then st.nth + ev.count else 0)
  {
    hide PassThreshold;
    ListedIff(m.sevs[ev.id].config, m.blockState);
    ThresholdOnly();
  }

  lemma SamplingOnly()
    ensures forall st, count :: var st1 := PassNth(st, count).0; st1 == st.(nth := st1.nth)
  {
  }

  lemma ThresholdOnly()
    ensures forall st, count, now ::
              var st1 := PassThreshold(st, count, now).0;
              st1 == st.(thrOpen := st1.thrOpen, thrStart := st1.thrStart, thrSum := st1.thrSum)
  {
  }

  // And the threshold window, where that filter is met.
  lemma ThresholdState(m: Manager, ev: SEv, now: uint32, aggNow: uint32, internal: Timestamp)
    requires ev.id < |m.sevs|
    ensures
      var (m1, fates) := Step(m, Op.Event(ev, now, aggNow, internal));
      var (st, st1, f) := (m.sevs[ev.id], m1.sevs[ev.id], fates[0]);
      var passed := f.Qualified? || f == Dropped(ev.id, Threshold, ev.count);
      if Filtering(st) && st.config.threshold != 0 && passed then
        && st1.thrOpen && st1.thrSum == WindowSum(st, ev.count)
        && st1.thrStart == if st.thrOpen then st.thrStart else now
      else st1.thrOpen == st.thrOpen && st1.thrSum == st.thrSum && st1.thrStart == st.thrStart
  {
  }

  // The end of a window of a 32-bit millisecond clock.
  predicate Ended(start: uint32, interval: uint32, now: uint32) {
    (start as int + interval) % 0x1_0000_0000 <= now
  }

  // A staged aggregate leaves in the first sweep at or after the end of its window: to the sinks,
  // or nowhere when it stays below the threshold. A threshold window at its end is closed then,
  // except where an aggregate was released.
  lemma SweepIff(st: SevState, id: nat, now: uint32)
    ensures
      var ((st1, fates), c) := (Sweep(st, id, now), st.config);
      var due := st.agg.Some? && c.aggInterval != 0 && Ended(st.aggStart, c.aggInterval, now);
      && fates == (if !due then []
                   else if BelowThreshold(st, st.agg.value.count) then [Dropped(id, Threshold, st.agg.value.count)]
                   else [Qualified(id, st.agg.value)])
      && (if due then st1.agg == None else st1.agg == st.agg)
      && (due && c.threshold != 0 ==> st1.thrOpen && st1.thrSum == WindowSum(st, st.agg.value.count))
      && (!due ==> st1.thrOpen == (st.thrOpen && !Ended(st.thrStart, c.thrInterval, now)))
  {
  }

  // A flush does the same at once.
  lemma FlushIff(m: Manager, id: nat, now: uint32)
    ensures
      var (m1, fates) := Step(m, Op.Flush(id, now));
      if id < |m.sevs| && m.sevs[id].agg.Some? then
        var (st, q) := (m.sevs[id], m.sevs[id].agg.value);
        && m1.sevs[id].agg == None
        && fates == if BelowThreshold(st, q.count) then [Dropped(id, Threshold, q.count)] else [Qualified(id, q)]
      else m1 == m && fates == []
  {
  }

  // An unknown ID changes nothing; mode and block state are what was set last.
  lemma Settings(m: Manager, id: nat, mode: Mode, state: byte, ev: SEv, now: uint32, internal: Timestamp)
    ensures var m1 := Step(m, Op.SetBlock(state)).0; m1.blockState == state && m1.sevs == m.sevs
    ensures id < |m.sevs| ==> Step(m, Op.SetMode(id, mode)).0.sevs[id] == m.sevs[id].(mode := mode)
    ensures |m.sevs| <= ev.id ==> Step(m, Op.Event(ev, now, now, internal)) == (m, [])
  {
  }
}
