/** The rule manager object: one directory, changed one file system call at a time. */
module RuleManager {
  import opened CanonicalText
  import opened RuleSigning
  import opened RuleSwitch
  import opened RuleSwitchSafety
  import opened RuleRuns

  // Parameters stand for what the file system makes of each call and for what the reload
  // command returns.
  class RuleManager {
    var disk: Disk

    constructor (d: Disk)
      ensures disk == d
    {
      disk := d;
    }

    method Call(op: Op, o: Outcome) returns (ok: bool)
      modifies this
      ensures (disk, ok) == Exec(old(disk), op, o)
    {
      var (d, done) := Exec(disk, op, o);
      disk, ok := d, done;
    }

    // Write the bundle's number to max_seq.tmp and rename that to max_seq.
    method StoreMaxSeq(n: int, wrote: Outcome, renamed: Outcome) returns (ok: bool)
      modifies this
      ensures
        var (d1, ok1) := Exec(old(disk), WriteSeq(n), wrote);
        if !ok1 then (disk, ok) == (d1, false)
        else (disk, ok) == Exec(d1, Rename(SEQ_TMP, MAX_SEQ), renamed)
    {
      hide Exec;
      ok := Call(WriteSeq(n), wrote);
      if !ok {
        return;
      }
      ok := Call(Rename(SEQ_TMP, MAX_SEQ), renamed);
    }

    // Clear rules.new and write every rule to a file of its own; nothing is checked.
    method WriteRules(b: Bundle, env: Environment)
      modifies this
      ensures RunTo(old(disk), Install(b), env, |b.rules| + 2) == (disk, true)
    {
      hide Exec, Install;
      ghost var ops := Install(b);
      assert |ops| == |b.rules| + 9;
      OpAt(b, 0);
      OpAt(b, 1);
      ghost var d0 := disk;
      assert RunTo(d0, ops, env, 0) == (d0, true);
      var _ := Call(RemoveAll(NEW), env(0));
      assert RunTo(d0, ops, env, 1) == (disk, true);
      var _ := Call(MakeDir(NEW), env(1));
      var i := 0;
      while i < |b.rules|
        invariant 0 <= i <= |b.rules|
        invariant RunTo(old(disk), ops, env, i + 2) == (disk, true)
      {
        OpAt(b, i + 2);
        var _ := Call(WriteRule(i, b.rules[i]), env(i + 2));
        i := i + 1;
      }
    }

    // Put the written rules in place under their version and swap the link over to them.
    method Switch(b: Bundle, env: Environment) returns (ok: bool)
      modifies this
      ensures
        var (d, alive) := RunTo(old(disk), Install(b), env, |b.rules| + 7);
        (disk, ok) == (d, alive)
    {
      hide Exec, Install;
      ghost var d0 := disk;
      var v, n := b.header.version, |b.rules|;
      WriteRules(b, env);
      OpAt(b, n + 2);
      OpAt(b, n + 3);
      var _ := Call(RemoveAll(v), env(n + 2));
      ok := Call(Rename(NEW, v), env(n + 3));
      assert RunTo(d0, Install(b), env, n + 4) == (disk, ok);
      if !ok {
        StaysDead(d0, Install(b), env, n + 4, n + 7);
        return;
      }
      OpAt(b, n + 4);
      OpAt(b, n + 5);
      OpAt(b, n + 6);
      var _ := Call(Remove(LINK_TMP), env(n + 4));
      assert RunTo(d0, Install(b), env, n + 5) == (disk, true);
      var _ := Call(Symlink(v, LINK_TMP), env(n + 5));
      assert RunTo(d0, Install(b), env, n + 6) == (disk, true);
      ok := Call(Rename(LINK_TMP, CURRENT), env(n + 6));
    }

    method TargetHit(h: Header, dev: Device) returns (hit: bool)
      ensures hit == Hits(h, dev)
    {
      hide TargetMatches;
      var node := TargetMatches(h.node, "all");
      if !node {
        var i := 0;
        while i < |dev.nodeTypes| && !node
          invariant 0 <= i <= |dev.nodeTypes|
          invariant !TargetMatches(h.node, "all")
          invariant node <==> exists j :: 0 <= j < i && TargetMatches(h.node, dev.nodeTypes[j])
        {
          node := TargetMatches(h.node, dev.nodeTypes[i]);
          i := i + 1;
        }
      }
      hit := TargetMatches(h.ecu, dev.ecu) && TargetMatches(h.vmodel, dev.vmodel) && node;
    }

    method ApplyBundle(b: Bundle, dev: Device, now: int, accepts: string -> bool, env: Environment, reloads: bool)
      returns (verdict: Verdict)
      modifies this
      ensures (disk, verdict) == Apply(old(disk), b, dev, now, accepts, env, reloads)
    {
      hide Exec, Install, RunTo, ValidVersion, LoadMaxSeq, Hits, CanonicalBytes, Sort;
      ghost var d0 := disk;
      if b.header.seqno <= 0 || !ValidVersion(b.header.version) || b.header.typ != 1 || b.rules == [] {
        return Rejected;
      }
      if b.header.expiresAt < now - SKEW_SEC || b.header.issuedAt > now + SKEW_SEC {
        return Rejected;
      }
      if b.header.seqno <= LoadMaxSeq(disk) {
        return Rejected;
      }
      var payload := PayloadLines(b.rules);
      var text := BuildCanonicalBytes(Rules, b.header, payload);
      if !accepts(text) {
        return Rejected;
      }
      var n := |b.rules|;
      assert |Install(b)| == n + 9;
      var hit := TargetHit(b.header, dev);
      var ok;
      if !hit {
        ok := StoreMaxSeq(b.header.seqno, env(0), env(1));
        StoreCalls(d0, b, env);
        return if ok then Skipped else Rejected;
      }
      ok := Switch(b, env);
      if !ok {
        StaysDead(d0, Install(b), env, n + 7, n + 9);
        return Rejected;
      }
      ghost var d7 := disk;
      ok := StoreMaxSeq(b.header.seqno, env(n + 7), env(n + 8));
      LastCalls(d0, b, env, d7);
      if !ok || !reloads {
        return Rejected;
      }
      verdict := Applied;
    }
  }

  lemma {:induction false} StaysDead(d: Disk, ops: seq<Op>, env: Environment, j: nat, k: nat)
    requires j <= k <= |ops| && !RunTo(d, ops, env, j).1
    ensures RunTo(d, ops, env, k) == RunTo(d, ops, env, j)
  {
    hide Exec, Checked;
    if j < k {
      StaysDead(d, ops, env, j, k - 1);
    }
  }

  // Two calls as one: write and rename.
  function Stored(d: Disk, n: int, wrote: Outcome, renamed: Outcome): (Disk, bool) {
    var (d1, ok1) := Exec(d, WriteSeq(n), wrote);
    if !ok1 then (d1, false) else Exec(d1, Rename(SEQ_TMP, MAX_SEQ), renamed)
  }

  lemma StoreCalls(d: Disk, b: Bundle, env: Environment)
    ensures RunTo(d, Store(b), env, 2) == Stored(d, b.header.seqno, env(0), env(1))
  {
    hide Exec;
    assert RunTo(d, Store(b), env, 0) == (d, true);
    assert Store(b)[0] == WriteSeq(b.header.seqno) && Store(b)[1] == Rename(SEQ_TMP, MAX_SEQ);
    var _ := RunTo(d, Store(b), env, 1);
  }

  lemma LastCalls(d: Disk, b: Bundle, env: Environment, d7: Disk)
    requires |Install(b)| == |b.rules| + 9 && RunTo(d, Install(b), env, |b.rules| + 7) == (d7, true)
    ensures RunTo(d, Install(b), env, |b.rules| + 9) ==
              Stored(d7, b.header.seqno, env(|b.rules| + 7), env(|b.rules| + 8))
  {
    hide Exec, Install;
    OpAt(b, |b.rules| + 7);
    OpAt(b, |b.rules| + 8);
    var _ := RunTo(d, Install(b), env, |b.rules| + 8);
  }
}
