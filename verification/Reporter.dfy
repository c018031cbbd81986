/** The two-thread reporter: callback, worker, sink and shutdown, one atomic region at a time. */
module Reporter {
  import opened IdsProtocol

  const QUEUE_DEPTH := 128
  const SINK_DEPTH := 512
  const MAX_RETRIES := 10

  // Where the callback, the worker and the shutdown are between two atomic regions.
  datatype Callback = Idle | Admitted(e: Qsev) | Pushed(e: Qsev) | Teed

  datatype Worker = Top | Waiting | Working(batch: seq<Qsev>, attempts: nat)
                  | Leaving | Last(batch: seq<Qsev>, attempts: nat) | Stopped

  datatype Shutdown = NotBegun | Unregistered | Joining | Joined | SinkJoining | Finished

  datatype Stats = Stats(received: nat, posted: nat, failed: nat, dropped: nat, retries: nat)

  // What became of an event: posted or not, after how many requests.
  datatype Fate = Fate(e: Qsev, posted: bool, requests: nat)

  datatype State = State(
    retry: nat,
    registered: bool, enabled: bool, running: bool, sinkRunning: bool,
    queue: seq<Qsev>, sinkQueue: seq<Qsev>,
    callback: Callback, worker: Worker, shutdown: Shutdown,
    stats: Stats,
    pushed: seq<Qsev>, fates: seq<Fate>)   // all events queued so far, and all that were dealt with

  // A freshly initialized reporter; the retry count of the configuration is capped.
  function Fresh(retryCount: nat, enabled: bool, sink: bool): State {
    State(if retryCount <= MAX_RETRIES then retryCount else MAX_RETRIES, true, enabled, true, sink, [], [],
          Idle, Top, NotBegun, Stats(0, 0, 0, 0, 0), [], [])
  }

  datatype Step =
    | Arrive(e: Qsev) | Push | Tee | Count                    // callback
    | Check | Wake | Post(ok: bool) | NoUrl | EndBatch | Drain   // worker
    | Deliver(ok: bool)                                    // sink thread
    | Unregister | StopWorker | JoinWorker | StopSink | Finish   // shutdown
    | SetEnabled(on: bool) | StartSink                     // configuration

  predicate Busy(w: Worker) {
    (w.Working? || w.Last?) && w.batch != []
  }

  // The callback runs under the IdsM mutex, which unregistering takes too.
  predicate CanDo(s: State, t: Step) {
    match t
    case Arrive(_) => s.registered && s.callback.Idle?
    case Push => s.callback.Admitted?
    case Tee => s.callback.Pushed?
    case Count => s.callback.Teed?
    case Check => s.worker.Top?
    case Wake => s.worker.Waiting? && (s.queue != [] || !s.running)
    case Post(_) => Busy(s.worker)
    case NoUrl => Busy(s.worker) && s.worker.Working? && s.worker.attempts == 0
    case EndBatch => (s.worker.Working? || s.worker.Last?) && s.worker.batch == []
    case Drain => s.worker.Leaving?
    case Deliver(_) => s.sinkQueue != []
    case Unregister => s.shutdown.NotBegun? && s.callback.Idle?
    case StopWorker => s.shutdown.Unregistered?
    case JoinWorker => s.shutdown.Joining? && s.worker.Stopped?
    case StopSink => s.shutdown.Joined?
    case Finish => s.shutdown.SinkJoining? && s.sinkQueue == []
    case SetEnabled(_) => s.shutdown.NotBegun?
    case StartSink => s.shutdown.NotBegun?
  }

  function Advanced(w: Worker): Worker
    requires Busy(w)
  {
    if w.Working? then Working(w.batch[1..], 0) else Last(w.batch[1..], 0)
  }

  // The event being worked on is done with.
  function Settled(s: State, posted: bool, requests: nat): State
    requires Busy(s.worker)
  {
    s.(worker := Advanced(s.worker), fates := s.fates + [Fate(s.worker.batch[0], posted, requests)],
       stats := if posted then s.stats.(posted := s.stats.posted + 1) else s.stats.(failed := s.stats.failed + 1))
  }

  function Dropped(s: State): State {
    s.(stats := s.stats.(dropped := s.stats.dropped + 1))
  }

  function Do(s: State, t: Step): State
    requires CanDo(s, t)
  {
    match t
    case Arrive(e) => if s.enabled then s.(callback := Admitted(e)) else Dropped(s)
    case Push =>
      if QUEUE_DEPTH <= |s.queue| then Dropped(s).(callback := Idle)
      else s.(queue := s.queue + [s.callback.e], pushed := s.pushed + [s.callback.e], callback := Pushed(s.callback.e))
    case Tee =>
      if !s.sinkRunning then s.(callback := Teed)
      else if |s.sinkQueue| < SINK_DEPTH then s.(sinkQueue := s.sinkQueue + [s.callback.e], callback := Teed)
      else Dropped(s).(callback := Teed)
    case Count => s.(stats := s.stats.(received := s.stats.received + 1), callback := Idle)
    case Check => s.(worker := if s.running then Waiting else Leaving)
    case Wake =>
      if !s.running && s.queue == [] then s.(worker := Leaving)
      else s.(worker := Working(s.queue, 0), queue := [])
    case Post(ok) =>
      if ok then Settled(s, true, s.worker.attempts + 1)
      else
        var s1 := s.(stats := s.stats.(retries := s.stats.retries + 1));
        if s.worker.attempts < s.retry then s1.(worker := s.worker.(attempts := s.worker.attempts + 1))
        else Settled(s1, false, s.worker.attempts + 1)
    case NoUrl => Settled(s, s.sinkRunning, 0)
    case EndBatch => s.(worker := if s.worker.Working? then Top else Stopped)
    case Drain => s.(worker := Last(s.queue, 0), queue := [])
    case Deliver(ok) =>
      var s1 := s.(sinkQueue := s.sinkQueue[1..]);
      if ok then s1 else Dropped(s1)
    case Unregister => s.(registered := false, shutdown := Unregistered)
    case StopWorker => s.(running := false, shutdown := Joining)
    case JoinWorker => s.(shutdown := Joined)
    case StopSink => s.(sinkRunning := false, shutdown := SinkJoining)
    case Finish => s.(enabled := false, shutdown := Finished)
    case SetEnabled(on) => s.(enabled := on)
    case StartSink => s.(sinkRunning := true)
  }

  predicate Possible(s: State, steps: seq<Step>)
    decreases |steps|
  {
    steps != [] ==> CanDo(s, steps[0]) && Possible(Do(s, steps[0]), steps[1..])
  }

  function Run(s: State, steps: seq<Step>): State
    requires Possible(s, steps)
    decreases |steps|
  {
    if steps == [] then s else Run(Do(s, steps[0]), steps[1..])
  }

  // ---- what every step keeps

  predicate OfCallback(t: Step) {
    t.Arrive? || t.Push? || t.Tee? || t.Count?
  }

  predicate OfWorker(t: Step) {
    t.Check? || t.Wake? || t.Post? || t.NoUrl? || t.EndBatch? || t.Drain?
  }

  function Batch(w: Worker): seq<Qsev> {
    if w.Working? || w.Last? then w.batch else []
  }

  function Attempts(w: Worker): nat {
    if w.Working? || w.Last? then w.attempts else 0
  }

  function Events(fates: seq<Fate>): (es: seq<Qsev>)
    ensures |es| == |fates|
    ensures forall i :: 0 <= i < |fates| ==> es[i] == fates[i].e
  {
    seq(|fates|, i requires 0 <= i < |fates| => fates[i].e)
  }

  function Uncounted(c: Callback): nat {
    if c.Pushed? || c.Teed? then 1 else 0
  }

  function PostedOf(fates: seq<Fate>): nat {
    if fates == [] then 0 else PostedOf(fates[..|fates| - 1]) + if fates[|fates| - 1].posted then 1 else 0
  }

  // No event is lost or doubled: those dealt with, in the batch and in the queue are all
  // that were pushed, in order; and the counters tell how many.
  predicate Conserves(s: State) {
    InLine(s) && Counted(s)
  }

  predicate InLine(s: State) {
    Events(s.fates) + Batch(s.worker) + s.queue == s.pushed
  }

  predicate Counted(s: State) {
    && s.stats.received + Uncounted(s.callback) == |s.pushed|
    && s.stats.posted == PostedOf(s.fates) && s.stats.posted + s.stats.failed == |s.fates|
  }

  // No event takes more than one request and `retry` repetitions; one without a URL takes none.
  predicate Bounded(s: State) {
    && |s.queue| <= QUEUE_DEPTH && |s.sinkQueue| <= SINK_DEPTH
    && s.retry <= MAX_RETRIES && Attempts(s.worker) <= s.retry
    && forall i :: 0 <= i < |s.fates| ==> Fair(s.fates[i], s.retry)
  }

  // Once unregistered no callback runs, the worker leaves only when told to, and it is
  // gone before the shutdown moves on.
  predicate Ordered(s: State) {
    && (!s.shutdown.NotBegun? ==> !s.registered && s.callback.Idle?)
    && (s.shutdown.NotBegun? || s.shutdown.Unregistered? ==> s.running)
    && (s.worker.Leaving? || s.worker.Last? || s.worker.Stopped? ==> !s.running)
    && (s.worker.Last? || s.worker.Stopped? ==> s.queue == [])
    && (s.shutdown.Joined? || s.shutdown.SinkJoining? || s.shutdown.Finished? ==> s.worker.Stopped?)
    && (s.shutdown.Finished? ==> s.sinkQueue == [])
  }

  lemma EventsMore(fates: seq<Fate>, f: Fate)
    ensures Events(fates + [f]) == Events(fates) + [f.e]
    ensures PostedOf(fates + [f]) == PostedOf(fates) + if f.posted then 1 else 0
  {
    assert (fates + [f])[..|fates|] == fates;
  }

  lemma Regroup(f: seq<Qsev>, b: seq<Qsev>, q: seq<Qsev>, e: Qsev)
    ensures f + b + (q + [e]) == (f + b + q) + [e] && f + [] + q == f + q == f + q + []
    ensures b != [] ==> (f + [b[0]]) + b[1..] + q == f + b + q
  {
    if b != [] {
      assert b == [b[0]] + b[1..];
    }
  }

  lemma CallbackInLine(s: State, t: Step)
    requires CanDo(s, t) && InLine(s) && OfCallback(t)
    ensures InLine(Do(s, t))
  {
    hide Events, Busy, Settled;
    if t.Push? {
      Regroup(Events(s.fates), Batch(s.worker), s.queue, s.callback.e);
    }
  }

  lemma SettledInLine(s: State, posted: bool, requests: nat)
    requires Busy(s.worker) && InLine(s)
    ensures InLine(Settled(s, posted, requests))
  {
    hide Events;
    var b := s.worker.batch;
    EventsMore(s.fates, Fate(b[0], posted, requests));
    Regroup(Events(s.fates), b, s.queue, b[0]);
  }

  lemma WorkerInLine(s: State, t: Step)
    requires CanDo(s, t) && InLine(s) && Ordered(s) && !OfCallback(t)
    ensures InLine(Do(s, t))
  {
    hide Events, Settled;
    if t.Post? {
      var s1 := s.(stats := s.stats.(retries := s.stats.retries + 1));
      SettledInLine(s, true, s.worker.attempts + 1);
      SettledInLine(s1, false, s.worker.attempts + 1);
    } else if t.NoUrl? {
      SettledInLine(s, s.sinkRunning, 0);
    } else {
      var f := Events(s.fates);
      assert f + [] + s.queue == f + s.queue + [];
    }
  }

  lemma SettledCounts(s: State, posted: bool, requests: nat)
    requires Busy(s.worker) && Counted(s)
    ensures Counted(Settled(s, posted, requests))
  {
    hide PostedOf;
    EventsMore(s.fates, Fate(s.worker.batch[0], posted, requests));
  }

  lemma PostCounts(s: State, ok: bool)
    requires CanDo(s, Post(ok)) && Counted(s)
    ensures Counted(Do(s, Post(ok)))
  {
    hide Settled, PostedOf;
    var s1 := s.(stats := s.stats.(retries := s.stats.retries + 1));
    SettledCounts(s, true, s.worker.attempts + 1);
    SettledCounts(s1, false, s.worker.attempts + 1);
  }

  lemma StepCounts(s: State, t: Step)
    requires CanDo(s, t) && Counted(s)
    ensures Counted(Do(s, t))
  {
    hide Settled, PostedOf;
    if t.Post? {
      PostCounts(s, t.ok);
    } else if t.NoUrl? {
      SettledCounts(s, s.sinkRunning, 0);
    }
  }

  lemma StepConserves(s: State, t: Step)
    requires CanDo(s, t) && Conserves(s) && Ordered(s)
    ensures Conserves(Do(s, t))
  {
    hide Do, InLine, Counted, Ordered, CanDo;
    StepCounts(s, t);
    if OfCallback(t) {
      CallbackInLine(s, t);
    } else {
      WorkerInLine(s, t);
    }
  }

  predicate Fair(f: Fate, retry: nat) {
    f.requests <= retry + 1 && (!f.posted ==> f.requests == 0 || f.requests == retry + 1)
  }

  lemma SettledBounded(s: State, posted: bool, requests: nat)
    requires Busy(s.worker) && Bounded(s) && Fair(Fate(s.worker.batch[0], posted, requests), s.retry)
    ensures Bounded(Settled(s, posted, requests))
  {
  }

  lemma PostBounded(s: State, ok: bool)
    requires CanDo(s, Post(ok)) && Bounded(s)
    ensures Bounded(Do(s, Post(ok)))
  {
    hide Settled, Fair;
    PostedFair(s);
    var s1 := s.(stats := s.stats.(retries := s.stats.retries + 1));
    SettledBounded(s, true, s.worker.attempts + 1);
    if s.worker.attempts == s.retry {
      SettledBounded(s1, false, s.worker.attempts + 1);
    }
  }

  lemma StepBounded(s: State, t: Step)
    requires CanDo(s, t) && Bounded(s)
    ensures Bounded(Do(s, t))
  {
    hide Settled, Fair;
    if t.Post? {
      PostBounded(s, t.ok);
    } else if t.NoUrl? {
      NoUrlFair(s);
      SettledBounded(s, s.sinkRunning, 0);
    }
  }

  lemma PostedFair(s: State)
    requires Busy(s.worker) && s.worker.attempts <= s.retry
    ensures Fair(Fate(s.worker.batch[0], true, s.worker.attempts + 1), s.retry)
    ensures s.worker.attempts == s.retry ==> Fair(Fate(s.worker.batch[0], false, s.worker.attempts + 1), s.retry)
  {
  }

  lemma NoUrlFair(s: State)
    requires Busy(s.worker)
    ensures Fair(Fate(s.worker.batch[0], s.sinkRunning, 0), s.retry)
  {
  }

  lemma CallbackOrdered(s: State, t: Step)
    requires OfCallback(t) && CanDo(s, t) && Ordered(s)
    ensures Ordered(Do(s, t))
  {
    hide Settled, Busy;
  }

  lemma WorkerOrdered(s: State, t: Step)
    requires OfWorker(t) && CanDo(s, t) && Ordered(s)
    ensures Ordered(Do(s, t))
  {
    hide Events, PostedOf;
  }

  lemma OthersOrdered(s: State, t: Step)
    requires !OfCallback(t) && !OfWorker(t) && CanDo(s, t) && Ordered(s)
    ensures Ordered(Do(s, t))
  {
    hide Settled, Busy;
  }

  lemma StepOrdered(s: State, t: Step)
    requires CanDo(s, t) && Ordered(s)
    ensures Ordered(Do(s, t))
  {
    hide CanDo, Do, Ordered;
    if OfCallback(t) {
      CallbackOrdered(s, t);
    } else if OfWorker(t) {
      WorkerOrdered(s, t);
    } else {
      OthersOrdered(s, t);
    }
  }

  // Under every interleaving, and whatever requests succeed, all of this always holds.
  lemma {:induction false} RunKeeps(s: State, steps: seq<Step>)
    requires Possible(s, steps) && Conserves(s) && Bounded(s) && Ordered(s)
    ensures
      var r := Run(s, steps);
      Conserves(r) && Bounded(r) && Ordered(r)
    decreases |steps|
  {
    hide Do, CanDo, Conserves, Bounded, Ordered;
    if steps != [] {
      StepConserves(s, steps[0]);
      StepBounded(s, steps[0]);
      StepOrdered(s, steps[0]);
      RunKeeps(Do(s, steps[0]), steps[1..]);
    }
  }

  // After a shutdown every event that was received has been posted or has failed, and
  // they were dealt with in the order they came in.
  lemma ShutdownLosesNothing(retryCount: nat, enabled: bool, sink: bool, steps: seq<Step>)
    requires Possible(Fresh(retryCount, enabled, sink), steps)
    ensures
      var r := Run(Fresh(retryCount, enabled, sink), steps);
      && r.stats.received + Uncounted(r.callback)
         == r.stats.posted + r.stats.failed + |r.queue| + |Batch(r.worker)|
      && |r.queue| <= QUEUE_DEPTH && |r.sinkQueue| <= SINK_DEPTH
      && (r.shutdown.Finished? ==>
          r.stats.received == r.stats.posted + r.stats.failed && Events(r.fates) == r.pushed && r.sinkQueue == [])
  {
    hide Run, Possible;
    var s := Fresh(retryCount, enabled, sink);
    FreshKeeps(retryCount, enabled, sink);
    RunKeeps(s, steps);
  }

  lemma FreshKeeps(retryCount: nat, enabled: bool, sink: bool)
    ensures
      var s := Fresh(retryCount, enabled, sink);
      Conserves(s) && Bounded(s) && Ordered(s)
  {
  }

  // Posting one event: the requests it takes, given what each of them would come to.
  method PostWithRetry(retry: nat, answers: nat -> bool) returns (posted: bool, requests: nat)
    requires retry <= MAX_RETRIES
    ensures 1 <= requests <= retry + 1
    ensures posted == answers(requests - 1) && forall k :: 0 <= k < requests - 1 ==> !answers(k)
    ensures !posted ==> requests == retry + 1
  {
    var attempt := 0;
    while attempt <= retry
      invariant 0 <= attempt <= retry + 1
      invariant forall k :: 0 <= k < attempt ==> !answers(k)
    {
      if answers(attempt) {
        return true, attempt + 1;
      }
      attempt := attempt + 1;
    }
    posted, requests := false, retry + 1;
  }

  // ---- what becomes of an event

  // The callback for one event, step by step.
  function Called(e: Qsev): seq<Step> {
    [Arrive(e), Push, Tee, Count]
  }

  // An event that arrives while reporting is on is queued unless 128 wait already, and then
  // counted and handed to the sink, if one runs and fewer than 512 wait there. Whatever is not
  // queued or not handed to a running sink is counted as dropped.
  lemma ArrivalIff(s: State, e: Qsev)
    requires s.registered && s.callback.Idle?
    ensures
      var s1 := Do(s, Arrive(e));
      if !s.enabled then s1 == s.(stats := s.stats.(dropped := s.stats.dropped + 1))
      else
        && CanDo(s1, Push)
        && var s2 := Do(s1, Push);
        if 128 <= |s.queue| then s2 == s.(stats := s.stats.(dropped := s.stats.dropped + 1))
        else
          var handed := s.sinkRunning && |s.sinkQueue| < 512;
          && Possible(s, Called(e))
          && Run(s, Called(e)) == s.(
               queue := s.queue + [e], pushed := s.pushed + [e],
               sinkQueue := if handed then s.sinkQueue + [e] else s.sinkQueue,
               stats := s.stats.(
                 received := s.stats.received + 1,
                 dropped := s.stats.dropped + if s.sinkRunning && !handed then 1 else 0))
  {
    hide Run, Possible;
    if s.enabled && |s.queue| < 128 {
      var s2 := Do(Do(s, Arrive(e)), Push);
      var s3 := Do(s2, Tee);
      assert [Count] + [] == [Count] && [Tee] + [Count] == [Tee, Count];
      assert [Push] + [Tee, Count] == [Push, Tee, Count] && [Arrive(e)] + [Push, Tee, Count] == Called(e);
      RunNone(Do(s3, Count));
      RunFirst(s3, Count, []);
      RunFirst(s2, Tee, [Count]);
      RunFirst(Do(s, Arrive(e)), Push, [Tee, Count]);
      RunFirst(s, Arrive(e), [Push, Tee, Count]);
    }
  }

  lemma RunNone(s: State)
    ensures Possible(s, []) && Run(s, []) == s
  {
  }

  lemma RunFirst(s: State, t: Step, rest: seq<Step>)
    requires CanDo(s, t) && Possible(Do(s, t), rest)
    ensures Possible(s, [t] + rest) && Run(s, [t] + rest) == Run(Do(s, t), rest)
  {
    hide CanDo, Do;
    assert ([t] + rest)[1..] == rest;
  }

  // The first event of the batch after failed requests for it: a success posts it, and it is
  // given up after as many repetitions as configured.
  lemma RequestIff(s: State, ok: bool)
    requires Busy(s.worker)
    ensures
      var (s1, e, k) := (Do(s, Post(ok)), s.worker.batch[0], s.worker.attempts);
      if ok then
        && s1.fates == s.fates + [Fate(e, true, k + 1)] && s1.stats.posted == s.stats.posted + 1
        && s1.stats.failed == s.stats.failed && s1.worker.batch == s.worker.batch[1..] && s1.worker.attempts == 0
      else
        && s1.stats.retries == s.stats.retries + 1 && s1.stats.posted == s.stats.posted
        && (if k < s.retry then s1.fates == s.fates && s1.worker == s.worker.(attempts := k + 1)
            else
              && s1.fates == s.fates + [Fate(e, false, k + 1)] && s1.stats.failed == s.stats.failed + 1
              && s1.worker.batch == s.worker.batch[1..] && s1.worker.attempts == 0)
  {
  }
}
