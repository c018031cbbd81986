/** The port scan detector: events of a sliding window, an index of their ports, and alerts. */
module PortScan {
  import opened Machine

  datatype Config = Config(window: uint32, threshold: nat)

  type Event = (uint64, uint16)

  // What the detector knows of one source; the index only speeds up counting.
  datatype Source = Source(events: seq<Event>, alerted: bool)

  const FIRST_SEEN := Source([], false)

  predicate InWindow(e: Event, now: uint64, window: nat) {
    Elapsed(now, e.0) < window
  }

  function Unexpired(events: seq<Event>, now: uint64, window: nat): (r: seq<Event>)
    ensures r != [] ==> InWindow(r[0], now, window)
  {
    if events != [] && !InWindow(events[0], now, window) then Unexpired(events[1..], now, window) else events
  }

  function Ports(events: seq<Event>): set<uint16> {
    set e | e in events :: e.1
  }

  // One SYN to a port: the new state, and the number of distinct ports if it is an alert.
  function FeedSource(cfg: Config, s: Source, now: uint64, port: uint16): (Source, Option<nat>) {
    var kept := Unexpired(s.events, now, cfg.window);
    var quiet := |Ports(kept)| < cfg.threshold;
    var events := kept + [(now, port)];
    if cfg.threshold <= |Ports(events)| && (quiet || !s.alerted) then
      (Source(events, true), Some(|Ports(events)|))
    else (Source(events, s.alerted && !quiet), None)
  }

  // ---- the detector

  function Occurrences(events: seq<Event>, port: uint16): nat {
    if events == [] then 0
    else Occurrences(events[..|events| - 1], port) + if events[|events| - 1].1 == port then 1 else 0
  }

  // The index holds how often each port of the events occurs, and no other port.
  ghost predicate Indexes(counts: map<uint16, nat>, events: seq<Event>) {
    && counts.Keys == Ports(events)
    && forall p :: p in counts ==> counts[p] == Occurrences(events, p)
  }

  lemma {:induction false} OccursIffPort(events: seq<Event>, p: uint16)
    ensures Occurrences(events, p) > 0 <==> p in Ports(events)
  {
    if events != [] {
      var n := |events| - 1;
      OccursIffPort(events[..n], p);
      assert events == events[..n] + [events[n]];
      if p in Ports(events) {
        var e :| e in events && e.1 == p;
        assert e in events[..n] || e == events[n];
      }
      if p in Ports(events[..n]) {
        var e :| e in events[..n] && e.1 == p;
        assert e in events;
      }
    }
  }

  lemma {:induction false} FirstOccurs(events: seq<Event>, p: uint16)
    requires events != []
    ensures Occurrences(events, p) == Occurrences(events[1..], p) + if events[0].1 == p then 1 else 0
  {
    var n := |events| - 1;
    if n == 0 {
      assert events[..n] == [] && events[1..] == [];
    } else {
      FirstOccurs(events[..n], p);
      assert events[..n][1..] == events[1..][..n - 1] && events[1..][n - 1] == events[n];
    }
  }

  lemma IndexDrop(counts: map<uint16, nat>, events: seq<Event>)
    requires Indexes(counts, events) && events != []
    ensures
      var p := events[0].1;
      && p in counts && 0 < counts[p]
      && Indexes(if counts[p] == 1 then counts - {p} else counts[p := counts[p] - 1], events[1..])
  {
    hide Occurrences, Ports;
    var p := events[0].1;
    OccursIffPort(events, p);
    FirstOccurs(events, p);
    assert p in Ports(events) by {
      assert Occurrences(events, p) > 0;
    }
    var next := if counts[p] == 1 then counts - {p} else counts[p := counts[p] - 1];
    forall q ensures q in Ports(events[1..]) <==> Occurrences(events, q) > if q == p then 1 else 0 {
      FirstOccurs(events, q);
      OccursIffPort(events[1..], q);
    }
    forall q
      ensures (q in next <==> q in Ports(events[1..])) && (q in next ==> next[q] == Occurrences(events[1..], q))
    {
      FirstOccurs(events, q);
      OccursIffPort(events, q);
    }
  }

  lemma IndexAdd(counts: map<uint16, nat>, events: seq<Event>, e: Event)
    requires Indexes(counts, events)
    ensures Indexes(counts[e.1 := (if e.1 in counts then counts[e.1] else 0) + 1], events + [e])
  {
    hide Ports;
    var next := counts[e.1 := (if e.1 in counts then counts[e.1] else 0) + 1];
    var all := events + [e];
    assert all[..|events|] == events;
    forall q ensures (q in next <==> q in Ports(all)) && (q in next ==> next[q] == Occurrences(all, q)) {
      OccursIffPort(all, q);
      OccursIffPort(events, q);
    }
  }

  class SourceState {
    var events: seq<Event>
    var counts: map<uint16, nat>
    var alerted: bool

    ghost predicate Valid()
      reads this
    {
      Indexes(counts, events)
    }

    ghost function Abs(): Source
      reads this
    {
      Source(events, alerted)
    }

    constructor ()
      ensures Valid() && Abs() == FIRST_SEEN
    {
      events, counts, alerted := [], map[], false;
    }

    // Drop the events outside the window from the front, and from the index.
    method Expire(now: uint64, window: nat)
      requires Valid()
      modifies this`events, this`counts
      ensures Valid() && events == Unexpired(old(events), now, window)
    {
      while events != [] && Elapsed(now, events[0].0) >= window
        invariant Valid() && Unexpired(events, now, window) == Unexpired(old(events), now, window)
        decreases |events|
      {
        var port := events[0].1;
        IndexDrop(counts, events);
        if counts[port] == 1 {
          counts := counts - {port};
        } else {
          counts := counts[port := counts[port] - 1];
        }
        events := events[1..];
      }
    }

    method Feed(cfg: Config, now: uint64, port: uint16) returns (alert: Option<nat>)
      requires Valid()
      modifies this
      ensures Valid() && (Abs(), alert) == FeedSource(cfg, old(Abs()), now, port)
    {
      hide Unexpired, Ports, Occurrences;
      Expire(now, cfg.window);
      if |counts| < cfg.threshold {
        alerted := false;
      }
      IndexAdd(counts, events, (now, port));
      ghost var kept := events;
      assert |counts| == |Ports(kept)|;
      events := events + [(now, port)];
      counts := counts[port := (if port in counts then counts[port] else 0) + 1];
      assert |counts| == |Ports(events)|;
      if |counts| >= cfg.threshold && !alerted {
        alerted := true;
        return Some(|counts|);
      }
      alert := None;
    }
  }

  // ---- runs of one source

  ghost function After(cfg: Config, feeds: seq<Event>): Source {
    if feeds == [] then FIRST_SEEN
    else
      var n := |feeds| - 1;
      FeedSource(cfg, After(cfg, feeds[..n]), feeds[n].0, feeds[n].1).0
  }

  // The alert of feed k.
  ghost function Alert(cfg: Config, feeds: seq<Event>, k: nat): Option<nat>
    requires k < |feeds|
  {
    FeedSource(cfg, After(cfg, feeds[..k]), feeds[k].0, feeds[k].1).1
  }

  predicate InOrder(feeds: seq<Event>) {
    forall i, j :: 0 <= i <= j < |feeds| ==> feeds[i].0 <= feeds[j].0
  }

  // The events of a history that a window ending now still holds.
  function Recent(feeds: seq<Event>, now: uint64, window: nat): seq<Event> {
    if feeds == [] then []
    else
      var n := |feeds| - 1;
      Recent(feeds[..n], now, window) + if InWindow(feeds[n], now, window) then [feeds[n]] else []
  }

  // With clock readings in order, an event that is in the window now was in it before,
  // and so is every later event.
  lemma WindowMoves(e: Event, later: Event, last: uint64, now: uint64, window: nat)
    requires e.0 <= last <= now && e.0 <= later.0 <= now && InWindow(e, now, window)
    ensures InWindow(e, last, window) && InWindow(later, now, window)
  {
  }

  // The events in the window are those from i on.
  predicate RecentFrom(feeds: seq<Event>, i: nat, now: uint64, window: nat) {
    i <= |feeds| && forall k :: 0 <= k < |feeds| ==> (InWindow(feeds[k], now, window) <==> i <= k)
  }

  lemma OneMore(feeds: seq<Event>, i: nat, now: uint64, window: nat)
    requires feeds != [] && RecentFrom(feeds[..|feeds| - 1], i, now, window)
    requires i < |feeds| - 1 ==> InWindow(feeds[|feeds| - 1], now, window)
    ensures RecentFrom(feeds, if InWindow(feeds[|feeds| - 1], now, window) then i else |feeds|, now, window)
  {
    hide InWindow;
    assert forall k :: 0 <= k < |feeds| - 1 ==> feeds[..|feeds| - 1][k] == feeds[k];
  }

  lemma OrderedPrefix(feeds: seq<Event>, k: nat)
    requires InOrder(feeds) && k < |feeds|
    ensures InOrder(feeds[..k]) && (0 < k ==> feeds[..k][k - 1].0 <= feeds[k].0)
    ensures forall i :: 0 <= i <= k ==> feeds[i].0 <= feeds[k].0
  {
  }

  // In a history in order, what is recent is a suffix.
  lemma {:induction false} RecentIsSuffix(feeds: seq<Event>, now: uint64, window: nat) returns (i: nat)
    requires InOrder(feeds) && (feeds != [] ==> feeds[|feeds| - 1].0 <= now)
    ensures RecentFrom(feeds, i, now, window) && Recent(feeds, now, window) == feeds[i..]
  {
    hide InWindow, InOrder;
    if feeds == [] {
      i := 0;
    } else {
      var n := |feeds| - 1;
      OrderedPrefix(feeds, n);
      i := RecentIsSuffix(feeds[..n], now, window);
      if i < n {
        assert feeds[..n][i] == feeds[i];
        WindowMoves(feeds[i], feeds[n], now, now, window);
      }
      OneMore(feeds, i, now, window);
      assert feeds[..n][i..] + [feeds[n]] == feeds[i..];
      if !InWindow(feeds[n], now, window) {
        assert feeds[..n][n..] == [] == feeds[n + 1..];
        i := n + 1;
      }
    }
  }

  lemma {:induction false} UnexpiredSuffix(feeds: seq<Event>, i: nat, j: nat, now: uint64, window: nat)
    requires i <= j <= |feeds|
    requires RecentFrom(feeds, j, now, window)
    ensures Unexpired(feeds[i..], now, window) == feeds[j..]
    decreases j - i
  {
    if i < j {
      assert feeds[i..][1..] == feeds[i + 1..] && feeds[i..][0] == feeds[i];
      UnexpiredSuffix(feeds, i + 1, j, now, window);
    }
  }

  // Dropping expired events from the front leaves the recent ones of the whole history.
  lemma {:induction false} KeepsRecent(cfg: Config, feeds: seq<Event>, now: uint64)
    requires InOrder(feeds) && (feeds != [] ==> feeds[|feeds| - 1].0 <= now)
    ensures Unexpired(After(cfg, feeds).events, now, cfg.window) == Recent(feeds, now, cfg.window)
  {
    hide Unexpired, Recent, InWindow, InOrder;
    if feeds == [] {
      RecentNone(now, cfg.window);
    } else {
      var n := |feeds| - 1;
      OrderedPrefix(feeds, n);
      KeepsRecent(cfg, feeds[..n], feeds[n].0);
      var i := RecentIsSuffix(feeds[..n], feeds[n].0, cfg.window);
      assert feeds[..n][i..] + [feeds[n]] == feeds[i..];
      assert (feeds[n].0, feeds[n].1) == feeds[n];
      var j := RecentIsSuffix(feeds, now, cfg.window);
      if j < i {
        assert feeds[..n][j] == feeds[j];
        WindowMoves(feeds[j], feeds[j], feeds[n].0, now, cfg.window);
      }
      UnexpiredSuffix(feeds, i, j, now, cfg.window);
    }
  }

  lemma RecentNone(now: uint64, window: nat)
    ensures Unexpired([], now, window) == [] == Recent([], now, window)
  {
  }

  // Feed k of a history in order is an alert exactly when the ports of its window reach
  // the threshold and either they had fallen below it or no alert was standing; the
  // alert tells how many distinct ports the window holds.
  lemma AlertCountsWindow(cfg: Config, feeds: seq<Event>, k: nat)
    requires InOrder(feeds) && k < |feeds|
    ensures
      var (now, w) := (feeds[k].0, cfg.window as nat);
      var before := Ports(Recent(feeds[..k], now, w));
      var ports := Ports(Recent(feeds[..k], now, w) + [feeds[k]]);
      && (Alert(cfg, feeds, k).Some? <==>
          cfg.threshold <= |ports| && (|before| < cfg.threshold || !After(cfg, feeds[..k]).alerted))
      && (Alert(cfg, feeds, k).Some? ==> Alert(cfg, feeds, k).value == |ports|)
  {
    hide Unexpired, Recent, Ports, InOrder;
    OrderedPrefix(feeds, k);
    KeepsRecent(cfg, feeds[..k], feeds[k].0);
    assert (feeds[k].0, feeds[k].1) == feeds[k];
  }

  predicate Below(cfg: Config, feeds: seq<Event>, k: nat)
    requires k < |feeds|
  {
    |Ports(Recent(feeds[..k], feeds[k].0, cfg.window))| < cfg.threshold
  }

  // Between two alerts of a source the count of its window was below the threshold.
  lemma {:induction false} BelowBetweenAlerts(cfg: Config, feeds: seq<Event>, i: nat, j: nat)
    requires InOrder(feeds) && i < j < |feeds|
    requires Alert(cfg, feeds, i).Some? && Alert(cfg, feeds, j).Some?
    ensures exists k :: i < k <= j && Below(cfg, feeds, k)
  {
    hide Unexpired, Recent, Ports, After;
    AlertCountsWindow(cfg, feeds, j);
    if !Below(cfg, feeds, j) && forall k :: i < k < j ==> !Below(cfg, feeds, k) {
      StandsUntil(cfg, feeds, i, j);
    }
  }

  lemma {:induction false} StandsUntil(cfg: Config, feeds: seq<Event>, i: nat, j: nat)
    requires InOrder(feeds) && i < j < |feeds| && Alert(cfg, feeds, i).Some?
    requires forall k :: i < k < j ==> !Below(cfg, feeds, k)
    ensures After(cfg, feeds[..j]).alerted
  {
    hide Unexpired, Recent, Ports, InOrder;
    var n := j - 1;
    OrderedPrefix(feeds, n);
    assert feeds[..j][..n] == feeds[..n] && feeds[..j][n] == feeds[n];
    if i < n {
      StandsUntil(cfg, feeds, i, n);
      KeepsRecent(cfg, feeds[..n], feeds[n].0);
      assert !Below(cfg, feeds, n);
    }
  }

  // ---- alerts in terms of the packets alone

  // The ports that the SYNs before feed k went to less than the window ago.
  ghost function PortsBefore(cfg: Config, feeds: seq<Event>, k: nat): set<uint16>
    requires k < |feeds|
  {
    set i | 0 <= i < k && feeds[k].0 - feeds[i].0 < cfg.window :: feeds[i].1
  }

  // An alert is standing: one came, and the ports have not fallen below the threshold since.
  ghost predicate Standing(cfg: Config, feeds: seq<Event>, k: nat)
    requires k < |feeds|
  {
    exists j :: 0 <= j < k && Alert(cfg, feeds, j).Some? && StaysUp(cfg, feeds, j, k)
  }

  ghost predicate StaysUp(cfg: Config, feeds: seq<Event>, j: nat, k: nat)
    requires k < |feeds|
  {
    forall i :: j < i < k ==> cfg.threshold <= |PortsBefore(cfg, feeds, i)|
  }

  // Feed k is an alert exactly when its port and those before it in the window reach the
  // threshold and either those before it did not, or no alert is standing.
  lemma AlertIff(cfg: Config, feeds: seq<Event>, k: nat)
    requires InOrder(feeds) && k < |feeds|
    ensures
      var (before, alert) := (PortsBefore(cfg, feeds, k), Alert(cfg, feeds, k));
      && (alert.Some? <==>
            cfg.threshold <= |before + {feeds[k].1}| && (|before| < cfg.threshold || !Standing(cfg, feeds, k)))
      && (alert.Some? ==> alert.value == |before + {feeds[k].1}|)
  {
    hide Recent, Ports, PortsBefore, Standing, InOrder, After, Alert;
    var recent := Recent(feeds[..k], feeds[k].0, cfg.window);
    AlertCountsWindow(cfg, feeds, k);
    RecentPorts(cfg, feeds, k);
    PortsMore(recent, feeds[k]);
    StandingIff(cfg, feeds, k);
  }

  lemma PortsMore(events: seq<Event>, e: Event)
    ensures Ports(events + [e]) == Ports(events) + {e.1}
  {
    forall p | p in Ports(events) + {e.1} ensures p in Ports(events + [e]) {
      if p in Ports(events) {
        var x :| x in events && x.1 == p;
        assert x in events + [e];
      } else {
        assert e in events + [e];
      }
    }
  }

  lemma RecentPorts(cfg: Config, feeds: seq<Event>, k: nat)
    requires InOrder(feeds) && k < |feeds|
    ensures Ports(Recent(feeds[..k], feeds[k].0, cfg.window)) == PortsBefore(cfg, feeds, k)
  {
    hide Recent, InWindow;
    var now, r := feeds[k].0, Recent(feeds[..k], feeds[k].0, cfg.window);
    RecentHolds(feeds[..k], now, cfg.window);
    WindowIs(cfg, feeds, k);
    forall p | p in Ports(r) ensures p in PortsBefore(cfg, feeds, k) {
      var e :| e in r && e.1 == p;
      var i :| 0 <= i < k && feeds[..k][i] == e;
      assert feeds[i] == e && InWindow(e, now, cfg.window);
    }
    forall p | p in PortsBefore(cfg, feeds, k) ensures p in Ports(r) {
      var i :| 0 <= i < k && now - feeds[i].0 < cfg.window && feeds[i].1 == p;
      assert feeds[..k][i] == feeds[i] && InWindow(feeds[i], now, cfg.window);
      assert feeds[i] in r;
    }
  }

  lemma WindowIs(cfg: Config, feeds: seq<Event>, k: nat)
    requires InOrder(feeds) && k < |feeds|
    ensures forall i :: 0 <= i < k ==>
              (InWindow(feeds[i], feeds[k].0, cfg.window) <==> feeds[k].0 - feeds[i].0 < cfg.window)
  {
  }

  lemma {:induction false} RecentHolds(feeds: seq<Event>, now: uint64, window: nat)
    ensures forall e :: e in Recent(feeds, now, window) <==> e in feeds && InWindow(e, now, window)
  {
    hide InWindow;
    if feeds != [] {
      var n := |feeds| - 1;
      RecentHolds(feeds[..n], now, window);
      assert feeds == feeds[..n] + [feeds[n]];
    }
  }

  lemma {:induction false} StandingIff(cfg: Config, feeds: seq<Event>, k: nat)
    requires InOrder(feeds) && k < |feeds|
    ensures After(cfg, feeds[..k]).alerted <==> Standing(cfg, feeds, k)
    decreases k
  {
    hide Recent, Ports, PortsBefore, InOrder, Unexpired, StaysUp;
    if k == 0 {
      assert feeds[..0] == [];
    } else {
      var n := k - 1;
      StandingIff(cfg, feeds, n);
      AlertedNext(cfg, feeds, n);
      if Alert(cfg, feeds, n).Some? {
        NothingBetween(cfg, feeds, n);
      }
      forall j | 0 <= j < n
        ensures StaysUp(cfg, feeds, j, k) <==>
                  StaysUp(cfg, feeds, j, n) && cfg.threshold <= |PortsBefore(cfg, feeds, n)|
      {
        OneMoreUp(cfg, feeds, j, n);
      }
    }
  }

  lemma NothingBetween(cfg: Config, feeds: seq<Event>, n: nat)
    requires n + 1 < |feeds|
    ensures StaysUp(cfg, feeds, n, n + 1)
  {
  }

  lemma OneMoreUp(cfg: Config, feeds: seq<Event>, j: nat, n: nat)
    requires j < n && n + 1 < |feeds|
    ensures
      StaysUp(cfg, feeds, j, n + 1) <==>
        StaysUp(cfg, feeds, j, n) && cfg.threshold <= |PortsBefore(cfg, feeds, n)|
  {
    hide PortsBefore;
  }

  lemma AlertedNext(cfg: Config, feeds: seq<Event>, n: nat)
    requires InOrder(feeds) && n < |feeds|
    ensures
      After(cfg, feeds[..n + 1]).alerted <==>
        || Alert(cfg, feeds, n).Some?
        || (After(cfg, feeds[..n]).alerted && cfg.threshold <= |PortsBefore(cfg, feeds, n)|)
  {
    hide Recent, Ports, PortsBefore, InOrder, Unexpired;
    assert feeds[..n + 1][..n] == feeds[..n] && feeds[..n + 1][n] == feeds[n];
    OrderedPrefix(feeds, n);
    KeepsRecent(cfg, feeds[..n], feeds[n].0);
    RecentPorts(cfg, feeds, n);
  }
}
