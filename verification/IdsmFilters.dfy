/** Closed forms of the filters over whole sequences of events. */
module IdsmFilters {
  import opened Machine
  import opened IdsmChain

  // counts[a] + ... + counts[b - 1]
  function Sum(counts: seq<uint16>, a: nat, b: nat): nat
    requires b <= |counts|
    decreases b
  {
    if b <= a then 0 else Sum(counts, a, b - 1) + counts[b - 1]
  }

  // ---- forward every nth ----

  function AfterNth(st: SevState, counts: seq<uint16>, k: nat): (r: SevState)
    requires k <= |counts|
    ensures r.config == st.config
  {
    if k == 0 then st else PassNth(AfterNth(st, counts, k - 1), counts[k - 1]).0
  }

  predicate Forwarded(st: SevState, counts: seq<uint16>, j: nat)
    requires j < |counts|
  {
    PassNth(AfterNth(st, counts, j), counts[j]).1
  }

  // The first event passes; after a forwarded event i, event j is the next one
  // forwarded exactly when the occurrences after i first reach n.
  lemma {:induction false} NthExact(c: Config, mode: Mode, counts: seq<uint16>, i: nat, j: nat)
    requires c.everyNth != 0 && i < j < |counts|
    requires Forwarded(Initial(c, mode), counts, i)
    requires forall k :: i < k < j ==> !Forwarded(Initial(c, mode), counts, k)
    ensures AfterNth(Initial(c, mode), counts, j).nth == Sum(counts, i + 1, j) < c.everyNth
    ensures Forwarded(Initial(c, mode), counts, j) <==> Sum(counts, i + 1, j + 1) >= c.everyNth
    decreases j
  {
    if i + 1 < j {
      NthExact(c, mode, counts, i, j - 1);
      assert !Forwarded(Initial(c, mode), counts, j - 1);
    }
  }

  // With unit counts exactly every n-th event passes, starting with the first.
  lemma {:induction false} NthUnit(c: Config, mode: Mode, counts: seq<uint16>, j: nat)
    requires c.everyNth != 0 && j < |counts|
    requires forall k :: 0 <= k < |counts| ==> counts[k] == 1
    ensures Forwarded(Initial(c, mode), counts, j) <==> j % c.everyNth == 0
    ensures AfterNth(Initial(c, mode), counts, j + 1).nth == j % c.everyNth
    decreases j
  {
    hide PassNth;
    if 0 < j {
      NthUnit(c, mode, counts, j - 1);
      UnitStep(AfterNth(Initial(c, mode), counts, j), c.everyNth, (j - 1) % c.everyNth);
      ModNext(j - 1, c.everyNth);
    } else {
      UnitFirst(c, mode);
    }
  }

  // One occurrence more, r of them after the last event forwarded.
  lemma UnitStep(st: SevState, n: uint16, r: nat)
    requires st.config.everyNth == n != 0 && st.nth == r < n
    ensures PassNth(st, 1).1 <==> r + 1 == n
    ensures PassNth(st, 1).0.nth == if r + 1 == n then 0 else r + 1
  {
  }

  lemma UnitFirst(c: Config, mode: Mode)
    requires c.everyNth != 0
    ensures PassNth(Initial(c, mode), 1).1 && PassNth(Initial(c, mode), 1).0.nth == 0 == 0 % c.everyNth
  {
  }

  lemma ModNext(j: nat, n: nat)
    requires 0 < n
    ensures (j + 1) % n == if j % n + 1 == n then 0 else j % n + 1
  {
    if j % n + 1 == n {
      assert (j / n + 1) * n == (j / n) * n + n;
      RemainderUnique(j + 1, j / n + 1, 0, n);
    } else {
      RemainderUnique(j + 1, j / n, j % n + 1, n);
    }
  }

  lemma RemainderUnique(x: nat, q: nat, r: nat, n: nat)
    requires r < n && x == q * n + r
    ensures x % n == r
  {
    var k := q - x / n;
    assert k * n == q * n - (x / n) * n == x % n - r;
    MultipleFar(k, n);
  }

  lemma MultipleFar(k: int, n: int)
    requires 0 < n
    ensures 0 < k ==> k * n >= n
    ensures k < 0 ==> k * n <= -n
  {
  }

  // ---- aggregation ----

  function StageAll(st: SevState, qs: seq<QSEv>, times: seq<uint32>, k: nat): SevState
    requires k <= |qs| == |times|
  {
    if k == 0 then st else Stage(StageAll(st, qs, times, k - 1), qs[k - 1], times[k - 1])
  }

  function Counts(qs: seq<QSEv>): seq<uint16> {
    seq(|qs|, i requires 0 <= i < |qs| => qs[i].count)
  }

  // The aggregate is the first event with the saturated sum of all counts, in
  // a window that opened with the first event.
  lemma {:induction false} AggregateClosedForm(st: SevState, qs: seq<QSEv>, times: seq<uint32>, k: nat)
    requires 0 < k <= |qs| == |times| && st.agg.None?
    ensures var s1 := StageAll(st, qs, times, k);
            && s1.agg == Some(qs[0].(count := Min(COUNT_MAX, Sum(Counts(qs), 0, k))))
            && s1.aggStart == times[0]
    decreases k
  {
    assert Sum(Counts(qs), 0, k) == Sum(Counts(qs), 0, k - 1) + qs[k - 1].count;
    if 1 < k {
      AggregateClosedForm(st, qs, times, k - 1);
    } else {
      assert StageAll(st, qs, times, 0) == st;
    }
  }

  // ---- threshold ----

  function AfterThreshold(st: SevState, counts: seq<uint16>, times: seq<uint32>, k: nat): (r: SevState)
    requires k <= |counts| == |times|
    ensures r.config == st.config
  {
    if k == 0 then st else PassThreshold(AfterThreshold(st, counts, times, k - 1), counts[k - 1], times[k - 1]).0
  }

  predicate Passed(st: SevState, counts: seq<uint16>, times: seq<uint32>, j: nat)
    requires j < |counts| == |times|
  {
    PassThreshold(AfterThreshold(st, counts, times, j), counts[j], times[j]).1
  }

  // Inside a window event j passes exactly when the occurrences so far, taken
  // modulo 2^32, have reached the threshold.
  lemma {:induction false} ThresholdClosedForm(st: SevState, counts: seq<uint16>, times: seq<uint32>, j: nat)
    requires st.config.threshold != 0 && !st.thrOpen && j < |counts| == |times|
    ensures Passed(st, counts, times, j) <==> Wrap32(Sum(counts, 0, j + 1)) >= st.config.threshold
    ensures var s1 := AfterThreshold(st, counts, times, j + 1);
            s1.thrOpen && s1.thrStart == times[0] && s1.thrSum == Wrap32(Sum(counts, 0, j + 1))
    decreases j
  {
    hide Wrap32;
    WrapAdd(Sum(counts, 0, j), counts[j]);
    if 0 < j {
      ThresholdClosedForm(st, counts, times, j - 1);
    }
  }

  lemma WrapAdd(a: nat, b: nat)
    ensures Wrap32(Wrap32(a) + b) == Wrap32(a + b)
    ensures Wrap32(0) == 0
  {
  }

  lemma {:induction false} SumGrows(counts: seq<uint16>, i: nat, j: nat)
    requires i <= j <= |counts|
    ensures Sum(counts, 0, i) <= Sum(counts, 0, j)
    decreases j
  {
    if i < j {
      SumGrows(counts, i, j - 1);
    }
  }

  // Once reached, the threshold stays reached, as long as the sum fits 32 bits.
  lemma ThresholdMonotone(st: SevState, counts: seq<uint16>, times: seq<uint32>, i: nat, j: nat)
    requires st.config.threshold != 0 && !st.thrOpen && i <= j < |counts| == |times|
    requires Sum(counts, 0, j + 1) < TWO_32
    requires Passed(st, counts, times, i)
    ensures Passed(st, counts, times, j)
  {
    hide Passed, Sum, AfterThreshold;
    SumGrows(counts, i + 1, j + 1);
    ThresholdClosedForm(st, counts, times, i);
    ThresholdClosedForm(st, counts, times, j);
  }

  // What the 32-bit sum does to it: after a pass, the next event passes too
  // unless the sum wraps below the threshold.
  lemma NextPassesIff(st: SevState, count: uint16, now: uint32)
    requires st.config.threshold != 0 && st.thrOpen && st.thrSum >= st.config.threshold
    ensures PassThreshold(st, count, now).1 <==>
              st.thrSum + count < TWO_32 || st.thrSum + count - TWO_32 >= st.config.threshold
  {
  }

  // ---- sweeps ----

  function DeadlineAfter(sevs: seq<SevState>, now: uint32, k: nat): uint32
    requires k <= |sevs|
  {
    if k == 0 then 0 else NextDeadline(sevs[k - 1], now, DeadlineAfter(sevs, now, k - 1))
  }

  // No staged aggregate is due after a sweep, and no threshold window either,
  // except where an aggregate has just been released.
  lemma SweepClears(st: SevState, id: nat, now: uint32)
    ensures var s1 := Sweep(st, id, now).0;
            !AggDue(s1, now) && (!AggDue(st, now) ==> !ThrDue(s1, now))
  {
  }

  // d is a deadline to wake up for, no later than any deadline of st after the
  // sweep that the sweep looked at.
  predicate Covers(st: SevState, now: uint32, d: uint32) {
    && (st.agg.Some? && st.config.aggInterval != 0 && !AggDue(st, now) ==> 0 < d <= AggDeadline(st))
    && (!AggDue(st, now) && st.thrOpen && !ThrDue(st, now) ==> 0 < d <= ThrDeadline(st))
  }

  // The returned deadline bounds every staged aggregate and every threshold window
  // of the SEvs that released nothing.
  lemma {:induction false} DeadlineBounds(sevs: seq<SevState>, now: uint32, k: nat)
    requires k <= |sevs|
    ensures forall j :: 0 <= j < k ==> Covers(sevs[j], now, DeadlineAfter(sevs, now, k))
    decreases k
  {
    if 0 < k {
      DeadlineBounds(sevs, now, k - 1);
      var before, after := DeadlineAfter(sevs, now, k - 1), DeadlineAfter(sevs, now, k);
      assert before != 0 ==> 0 < after <= before;
    }
  }

  // An event that releases an aggregate leaves the deadline as if it were not there.
  lemma {:induction false} ReleasedLeavesDeadline(sevs: seq<SevState>, now: uint32, j: nat, k: nat)
    requires j < k <= |sevs| && AggDue(sevs[j], now)
    ensures DeadlineAfter(sevs, now, k) == DeadlineAfter(sevs[..j] + sevs[j + 1..], now, k - 1)
    decreases k
  {
    hide NextDeadline, AggDue;
    var others := sevs[..j] + sevs[j + 1..];
    if k == j + 1 {
      SameBefore(sevs, others, now, j);
      ReleasedAdds(sevs[j], now, DeadlineAfter(sevs, now, j));
    } else {
      ReleasedLeavesDeadline(sevs, now, j, k - 1);
      assert others[k - 2] == sevs[k - 1];
    }
  }

  lemma ReleasedAdds(st: SevState, now: uint32, next: uint32)
    requires AggDue(st, now)
    ensures NextDeadline(st, now, next) == next
  {
  }

  lemma {:induction false} SameBefore(a: seq<SevState>, b: seq<SevState>, now: uint32, k: nat)
    requires k <= |a| && k <= |b| && a[..k] == b[..k]
    ensures DeadlineAfter(a, now, k) == DeadlineAfter(b, now, k)
    decreases k
  {
    hide NextDeadline;
    if 0 < k {
      assert a[..k][k - 1] == b[..k][k - 1] && a[..k][..k - 1] == a[..k - 1] && b[..k][..k - 1] == b[..k - 1];
      SameBefore(a, b, now, k - 1);
    }
  }

  // When the threshold window ends in which the sweep leaves an event whose aggregate it
  // releases: one that is open stays, even past its end; otherwise one opens now.
  function WindowEnd(st: SevState, now: uint32): uint32 {
    if st.thrOpen then ThrDeadline(st) else Wrap32(now + st.config.thrInterval)
  }

  predicate Released(st: SevState, now: uint32) {
    AggDue(st, now) && (st.config.threshold != 0 || st.thrOpen)
  }

  lemma SweepLeaves(st: SevState, id: nat, now: uint32)
    ensures
      var s1 := Sweep(st, id, now).0;
      && (AggDue(st, now) ==> (s1.thrOpen <==> Released(st, now)))
      && (AggDue(st, now) && s1.thrOpen ==> ThrDeadline(s1) == WindowEnd(st, now))
      && (!AggDue(st, now) && s1.thrOpen ==> s1 == st && !ThrDue(st, now))
  {
  }

  // After a sweep of any list the deadline returned fails to bound an open threshold window of
  // event j exactly when the sweep released an aggregate of j into an enabled filter and the
  // other events have no deadline, or only later ones.
  lemma OverlookedWindowIff(sevs: seq<SevState>, now: uint32, j: nat)
    requires j < |sevs|
    ensures
      var (done, d) := (SweepAll(sevs, now, |sevs|).0[j], DeadlineAfter(sevs, now, |sevs|));
      var others := DeadlineAfter(sevs[..j] + sevs[j + 1..], now, |sevs| - 1);
      done.thrOpen && !(0 < d <= ThrDeadline(done))
      <==> Released(sevs[j], now) && (others == 0 || WindowEnd(sevs[j], now) < others)
  {
    hide SweepAll, Sweep, NextDeadline, AggDue, ThrDue, AggDeadline, ThrDeadline, WindowEnd;
    SweepAllAt(sevs, now, |sevs|);
    SweepLeaves(sevs[j], j, now);
    if AggDue(sevs[j], now) {
      ReleasedLeavesDeadline(sevs, now, j, |sevs|);
    } else {
      DeadlineBounds(sevs, now, |sevs|);
    }
  }
}
