/** Attempts to apply bundles, one after the other, with crashes: sequence numbers and signatures. */
module RuleRuns {
  import opened Machine
  import opened RuleSigning
  import opened RuleSwitch
  import opened RuleSwitchSafety

  const SKEW_SEC := 24 * 3600

  datatype Device = Device(ecu: string, vmodel: string, nodeTypes: seq<string>)

  datatype Verdict = Applied | Skipped | Rejected

  function Lower(s: string): string {
    seq(|s|, i requires 0 <= i < |s| => if 'A' <= s[i] <= 'Z' then s[i] + ('a' - 'A') else s[i])
  }

  predicate TargetMatches(want: string, have: string) {
    Lower(want) == "all" || Lower(want) == Lower(have)
  }

  predicate Hits(h: Header, dev: Device) {
    && TargetMatches(h.ecu, dev.ecu)
    && TargetMatches(h.vmodel, dev.vmodel)
    && (TargetMatches(h.node, "all") || exists i :: 0 <= i < |dev.nodeTypes| && TargetMatches(h.node, dev.nodeTypes[i]))
  }

  predicate NameChar(c: char) {
    'A' <= c <= 'Z' || 'a' <= c <= 'z' || '0' <= c <= '9' || c == '.' || c == '_' || c == '-'
  }

  predicate ValidVersion(v: string) {
    v != "" && v != "." && v != ".." && forall i :: 0 <= i < |v| ==> NameChar(v[i])
  }

  // accepts stands for the signature and key checks on the signed bytes.
  predicate Passes(d: Disk, b: Bundle, now: int, accepts: string -> bool) {
    && 0 < b.header.seqno && ValidVersion(b.header.version) && b.header.typ == 1 && b.rules != []
    && now - SKEW_SEC <= b.header.expiresAt && b.header.issuedAt <= now + SKEW_SEC
    && LoadMaxSeq(d) < b.header.seqno
    && accepts(SignedRules(b.header, b.rules))
  }

  function Plan(b: Bundle, dev: Device): seq<Op> {
    if Hits(b.header, dev) then Install(b) else Store(b)
  }

  // One bundle handled to its end.
  function Apply(d: Disk, b: Bundle, dev: Device, now: int, accepts: string -> bool,
                 env: Environment, reloads: bool): (Disk, Verdict)
  {
    if !Passes(d, b, now, accepts) then (d, Rejected)
    else
      var (d2, alive) := RunTo(d, Plan(b, dev), env, |Plan(b, dev)|);
      (d2, if !alive then Rejected else if !Hits(b.header, dev) then Skipped else if reloads then Applied else Rejected)
  }

  // An attempt that may crash: `calls` says after how many calls.
  datatype Attempt = Attempt(b: Bundle, dev: Device, now: int, accepts: string -> bool, env: Environment,
                             calls: Option<nat>)

  function After(d: Disk, t: Attempt): Disk {
    if !Passes(d, t.b, t.now, t.accepts) then d
    else
      var ops := Plan(t.b, t.dev);
      RunTo(d, ops, t.env, if t.calls.Some? then Min(t.calls.value, |ops|) else |ops|).0
  }

  // The bundle's number is used up: it was applied or skipped, or only the reload failed.
  predicate Consumed(d: Disk, t: Attempt) {
    && Passes(d, t.b, t.now, t.accepts)
    && (t.calls.Some? ==> |Plan(t.b, t.dev)| <= t.calls.value)
    && RunTo(d, Plan(t.b, t.dev), t.env, |Plan(t.b, t.dev)|).1
  }

  // The disk after a run of attempts, and the numbers used up, in order.
  function Run(d: Disk, ts: seq<Attempt>): (Disk, seq<int>) {
    if ts == [] then (d, [])
    else
      var (d1, log) := Run(d, ts[..|ts| - 1]);
      var t := ts[|ts| - 1];
      (After(d1, t), if Consumed(d1, t) then log + [t.b.header.seqno] else log)
  }

  // ---- sequence numbers

  // Only the last call of a plan changes the stored number, and it stores the bundle's.
  ghost predicate SeqStage(d: Disk, n: int, d2: Disk, alive: bool, left: nat) {
    if alive && left == 0 then LoadMaxSeq(d2) == n
    else
      && LoadMaxSeq(d2) == LoadMaxSeq(d)
      && (alive && left == 1 ==> SEQ_TMP in d2 && d2[SEQ_TMP] == File(Some(n)))
  }

  lemma {:induction false} InstallKeepsSeq(d: Disk, b: Bundle, env: Environment, k: nat)
    requires b.header.version != MAX_SEQ && k <= |Install(b)|
    ensures
      var (d2, alive) := RunTo(d, Install(b), env, k);
      SeqStage(d, b.header.seqno, d2, alive, |Install(b)| - k)
  {
    hide Install;
    assert |Install(b)| == |b.rules| + 9;
    if k > 0 {
      InstallKeepsSeq(d, b, env, k - 1);
      OpAt(b, k - 1);
    }
  }

  lemma StoreKeepsSeq(d: Disk, b: Bundle, env: Environment, k: nat)
    requires k <= 2
    ensures
      var (d2, alive) := RunTo(d, Store(b), env, k);
      SeqStage(d, b.header.seqno, d2, alive, 2 - k)
  {
    var ops := Store(b);
    assert RunTo(d, ops, env, 0) == (d, true);
    if k == 2 {
      assert ops[1] == Rename(SEQ_TMP, MAX_SEQ) && ops[0] == WriteSeq(b.header.seqno);
      var (d1, alive) := RunTo(d, ops, env, 1);
    }
  }

  lemma PlanKeepsSeq(d: Disk, b: Bundle, dev: Device, env: Environment, k: nat)
    requires (b.header.version == MAX_SEQ ==> !Hits(b.header, dev)) && k <= |Plan(b, dev)|
    ensures
      var (d2, alive) := RunTo(d, Plan(b, dev), env, k);
      SeqStage(d, b.header.seqno, d2, alive, |Plan(b, dev)| - k)
  {
    hide Install, RunTo, SeqStage, Hits;
    if Hits(b.header, dev) {
      InstallKeepsSeq(d, b, env, k);
    } else {
      StoreKeepsSeq(d, b, env, k);
    }
  }

  // The anti-rollback number survives every call of every installation exactly when the
  // version is not named like the file that holds it.
  lemma StoredSeqSafeIff(d: Disk, b: Bundle)
    requires 0 < LoadMaxSeq(d) < b.header.seqno
    ensures b.header.version != MAX_SEQ <==>
      forall env: Environment, k: nat | k <= |Install(b)| ::
        LoadMaxSeq(d) <= LoadMaxSeq(RunTo(d, Install(b), env, k).0)
  {
    hide Install, RunTo;
    if b.header.version != MAX_SEQ {
      forall env: Environment, k: nat | k <= |Install(b)|
        ensures LoadMaxSeq(d) <= LoadMaxSeq(RunTo(d, Install(b), env, k).0)
      {
        InstallKeepsSeq(d, b, env, k);
      }
    } else {
      var env: Environment := _ => Outcome(true, None, {});
      SeqLost(d, b, env);
      assert |b.rules| + 3 <= |Install(b)|;
    }
  }

  lemma SeqLost(d: Disk, b: Bundle, env: Environment)
    requires b.header.version == MAX_SEQ && env(|b.rules| + 2).ok
    ensures LoadMaxSeq(RunTo(d, Install(b), env, |b.rules| + 3).0) == 0
  {
    hide Install;
    assert |Install(b)| == |b.rules| + 9;
    WritesKeep(d, b, env, |b.rules| + 2);
    OpAt(b, |b.rules| + 2);
  }

  lemma AfterSeq(d: Disk, t: Attempt)
    requires t.b.header.version == MAX_SEQ ==> !Hits(t.b.header, t.dev)
    ensures LoadMaxSeq(d) <= LoadMaxSeq(After(d, t))
    ensures Consumed(d, t) ==> LoadMaxSeq(d) < t.b.header.seqno == LoadMaxSeq(After(d, t))
  {
    hide Plan, RunTo, LoadMaxSeq, ValidVersion, Hits, SignedRules;
    if Passes(d, t.b, t.now, t.accepts) {
      var n := |Plan(t.b, t.dev)|;
      PlanKeepsSeq(d, t.b, t.dev, t.env, if t.calls.Some? then Min(t.calls.value, n) else n);
    }
  }

  predicate Increasing(log: seq<int>) {
    forall i, j :: 0 <= i < j < |log| ==> log[i] < log[j]
  }

  // Over any run, crashes and failures included, the numbers used up strictly increase,
  // all above the number stored at first and none above the number stored at last.
  lemma {:induction false} SeqsIncrease(d: Disk, ts: seq<Attempt>)
    requires forall i :: 0 <= i < |ts| && ts[i].b.header.version == MAX_SEQ ==> !Hits(ts[i].b.header, ts[i].dev)
    ensures
      var (d2, log) := Run(d, ts);
      && Increasing(log) && LoadMaxSeq(d) <= LoadMaxSeq(d2)
      && (forall i :: 0 <= i < |log| ==> LoadMaxSeq(d) < log[i] <= LoadMaxSeq(d2))
  {
    hide After, Consumed, LoadMaxSeq, Hits;
    if ts != [] {
      var n := |ts| - 1;
      SeqsIncrease(d, ts[..n]);
      var (d1, log) := Run(d, ts[..n]);
      AfterSeq(d1, ts[n]);
    }
  }

  // ---- what a verdict means

  // How call k of the installation returned.
  predicate Returned(d: Disk, ops: seq<Op>, env: Environment, k: nat)
    requires k < |ops|
  {
    Exec(RunTo(d, ops, env, k).0, ops[k], env(k)).1
  }

  // The installation goes on as long as every call that is looked at returns well.
  lemma {:induction false} AliveIff(d: Disk, ops: seq<Op>, env: Environment, k: nat)
    requires k <= |ops|
    ensures RunTo(d, ops, env, k).1 <==> forall i :: 0 <= i < k && Checked(ops[i]) ==> Returned(d, ops, env, i)
  {
    hide Exec, Checked;
    if 0 < k {
      AliveIff(d, ops, env, k - 1);
    }
  }

  lemma InstallAlive(d: Disk, b: Bundle, env: Environment)
    ensures
      var (ops, n) := (Install(b), |b.rules|);
      && |ops| == n + 9
      && (RunTo(d, ops, env, n + 7).1 <==> Returned(d, ops, env, n + 3) && Returned(d, ops, env, n + 6))
      && (RunTo(d, ops, env, n + 9).1 <==>
            RunTo(d, ops, env, n + 7).1 && Returned(d, ops, env, n + 7) && Returned(d, ops, env, n + 8))
  {
    hide Install, RunTo, Returned;
    var ops, n := Install(b), |b.rules|;
    assert |ops| == n + 9;
    AliveIff(d, ops, env, n + 7);
    AliveIff(d, ops, env, n + 9);
    forall i | 0 <= i < n + 9 ensures Checked(ops[i]) <==> i == n + 3 || n + 6 <= i {
      OpAt(b, i);
    }
  }

  // A bundle can be rejected with its rules already active: exactly when both renames of
  // the switch succeeded and writing or renaming the number, or the reload, then failed.
  lemma RejectedYetActive(d: Disk, b: Bundle, a: string, dev: Device, now: int, accepts: string -> bool,
                          env: Environment, reloads: bool)
    requires Settled(d, a) && FreshName(b, a) && Sound(Install(b), env)
    requires Passes(d, b, now, accepts) && Hits(b.header, dev)
    ensures
      var (d2, verdict) := Apply(d, b, dev, now, accepts, env, reloads);
      var (ops, n) := (Install(b), |b.rules|);
      && CURRENT in d2 && |ops| == n + 9
      && (verdict == Rejected && d2[CURRENT] == Link(b.header.version) <==>
            && Returned(d, ops, env, n + 3) && Returned(d, ops, env, n + 6)
            && !(Returned(d, ops, env, n + 7) && Returned(d, ops, env, n + 8) && reloads))
      && (verdict == Applied ==> Active(d2) == Some(RuleFiles(b.rules)))
  {
    hide Install, RunTo, Returned, Active, LoadMaxSeq, RuleFiles, Sound, Hits, ValidVersion, SignedRules, Stage;
    var n := |Install(b)|;
    InstallAlive(d, b, env);
    SwitchStage(d, b, a, env, n);
  }

  // If every text the signature checks out for is that of some bundle with one-line fields
  // that the vendor signed, whatever is not rejected is one of those bundles.
  lemma AcceptedIsSigned(d: Disk, b: Bundle, dev: Device, now: int, accepts: string -> bool, env: Environment,
                         reloads: bool, signed: iset<Bundle>)
    requires forall v :: v in signed ==> OneLineFields(v.header)
    requires forall s :: accepts(s) ==> exists v :: v in signed && s == SignedRules(v.header, v.rules)
    requires Apply(d, b, dev, now, accepts, env, reloads).1 != Rejected
    ensures b in signed
  {
    hide Plan, RunTo, LoadMaxSeq, ValidVersion, Hits, SignedRules, OneLineFields;
    assert accepts(SignedRules(b.header, b.rules));
    var v :| v in signed && SignedRules(b.header, b.rules) == SignedRules(v.header, v.rules);
    SignedRulesUnique(v.header, v.rules, b.header, b.rules);
  }
}
