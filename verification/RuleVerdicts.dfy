/** Which bundle gets which verdict: the checks, the device a target names, and the calls, spelled out. */
module RuleVerdicts {
  import opened Machine
  import opened RuleSigning
  import opened RuleSwitch
  import opened RuleSwitchSafety
  import opened RuleRuns

  // ---- the device a target names

  // Equal but for the case of the letters A to Z.
  predicate SameLetter(x: char, y: char) {
    || x == y
    || ('A' <= x <= 'Z' && y as int == x as int + 32)
    || ('A' <= y <= 'Z' && x as int == y as int + 32)
  }

  predicate SameButCase(a: string, b: string) {
    |a| == |b| && forall i :: 0 <= i < |a| ==> SameLetter(a[i], b[i])
  }

  lemma LowerSame(a: string, b: string)
    ensures Lower(a) == Lower(b) <==> SameButCase(a, b)
  {
    if |a| == |b| {
      forall i | 0 <= i < |a| ensures Lower(a)[i] == Lower(b)[i] <==> SameLetter(a[i], b[i]) {
        LetterSame(a[i], b[i]);
      }
    }
  }

  function LowerLetter(c: char): char {
    if 'A' <= c <= 'Z' then c + ('a' - 'A') else c
  }

  lemma LetterSame(x: char, y: char)
    ensures LowerLetter(x) == LowerLetter(y) <==> SameLetter(x, y)
  {
  }

  // "all" in any mix of cases names every device, and any other word the device of that name.
  lemma TargetIff(want: string, have: string)
    ensures TargetMatches(want, have) <==> SameButCase(want, "all") || SameButCase(want, have)
  {
    assert Lower("all") == "all";
    LowerSame(want, "all");
    LowerSame(want, have);
  }

  predicate Names(want: string, have: string) {
    SameButCase(want, "all") || SameButCase(want, have)
  }

  // A bundle hits a device exactly when its ECU and its vehicle model name the device's, and its
  // node type is "all" or one of the device's.
  lemma HitIff(h: Header, dev: Device)
    ensures Hits(h, dev) <==>
              && Names(h.ecu, dev.ecu) && Names(h.vmodel, dev.vmodel)
              && (SameButCase(h.node, "all")
                  || exists i :: 0 <= i < |dev.nodeTypes| && SameButCase(h.node, dev.nodeTypes[i]))
  {
    hide SameButCase, TargetMatches;
    TargetIff(h.ecu, dev.ecu);
    TargetIff(h.vmodel, dev.vmodel);
    TargetIff(h.node, "all");
    forall i | 0 <= i < |dev.nodeTypes|
      ensures TargetMatches(h.node, dev.nodeTypes[i]) <==>
                SameButCase(h.node, "all") || SameButCase(h.node, dev.nodeTypes[i])
    {
      TargetIff(h.node, dev.nodeTypes[i]);
    }
  }

  lemma AllHitsEvery(h: Header, dev: Device)
    requires SameButCase(h.ecu, "all") && SameButCase(h.node, "all") && SameButCase(h.vmodel, "all")
    ensures Hits(h, dev)
  {
    hide SameButCase;
    HitIff(h, dev);
  }

  // ---- the checks

  const NAME_CHARS: string := UPPER + LOWER + DIGITS + "._-"

  // A version is a word over this alphabet that names no directory above.
  lemma VersionIff(v: string)
    ensures ValidVersion(v) <==> v !in {"", ".", ".."} && forall i :: 0 <= i < |v| ==> v[i] in NAME_CHARS
    ensures ValidVersion(v) ==> '/' !in v && '\\' !in v && '\n' !in v
  {
    forall c: char ensures NameChar(c) <==> c in NAME_CHARS {
      CharIff(c);
    }
  }

  lemma CharIff(c: char)
    ensures NameChar(c) <==> c in NAME_CHARS
  {
    hide UPPER, LOWER, DIGITS;
    UpperIff(c);
    LowerIff(c);
    DigitIff(c);
    var rest: string := "._-";
    assert c in rest <==> c == rest[0] || c == rest[1] || c == rest[2];
  }

  lemma UpperIff(c: char)
    ensures c in UPPER <==> 'A' <= c <= 'Z'
  {
    forall i | 0 <= i < 26 ensures UPPER[i] == 'A' + i as char {
    }
    if 'A' <= c <= 'Z' {
      assert UPPER[c as int - 'A' as int] == c;
    }
  }

  lemma LowerIff(c: char)
    ensures c in LOWER <==> 'a' <= c <= 'z'
  {
    forall i | 0 <= i < 26 ensures LOWER[i] == 'a' + i as char {
    }
    if 'a' <= c <= 'z' {
      assert LOWER[c as int - 'a' as int] == c;
    }
  }

  lemma DigitIff(c: char)
    ensures c in DIGITS <==> '0' <= c <= '9'
  {
    forall i | 0 <= i < 10 ensures DIGITS[i] == '0' + i as char {
    }
    if '0' <= c <= '9' {
      assert DIGITS[c as int - '0' as int] == c;
    }
  }

  // What a bundle must have before anything is done: a positive number above the stored one, a
  // proper version, rules of the embedded type, a time window that is open give or take a day,
  // and a signature.
  predicate Acceptable(d: Disk, b: Bundle, now: int, accepts: string -> bool) {
    && 0 < b.header.seqno && LoadMaxSeq(d) < b.header.seqno
    && b.header.version !in {"", ".", ".."}
    && (forall i :: 0 <= i < |b.header.version| ==> b.header.version[i] in NAME_CHARS)
    && b.header.typ == 1 && b.rules != []
    && now <= b.header.expiresAt + 86400 && b.header.issuedAt <= now + 86400
    && accepts(SignedRules(b.header, b.rules))
  }

  lemma PassesIff(d: Disk, b: Bundle, now: int, accepts: string -> bool)
    ensures Passes(d, b, now, accepts) <==> Acceptable(d, b, now, accepts)
  {
    hide SignedRules, LoadMaxSeq;
    VersionIff(b.header.version);
  }

  // ---- the verdicts

  // A bundle that is not acceptable, an expired or a future one for example, is rejected and
  // changes nothing. One for another device only stores its number. One for this device is
  // applied exactly when the four calls that are looked at, and the reload, succeed.
  lemma VerdictIff(d: Disk, b: Bundle, dev: Device, now: int, accepts: string -> bool, env: Environment, reloads: bool)
    ensures
      var (d2, verdict) := Apply(d, b, dev, now, accepts, env, reloads);
      var (ok, hit, n) := (Acceptable(d, b, now, accepts), Hits(b.header, dev), |b.rules|);
      var (ops, seqOps) := (Install(b), Store(b));
      && |ops| == n + 9 && |seqOps| == 2
      && (!ok ==> verdict == Rejected && d2 == d)
      && (verdict == Skipped <==> ok && !hit && Returned(d, seqOps, env, 0) && Returned(d, seqOps, env, 1))
      && (verdict == Applied <==>
            && ok && hit && reloads
            && Returned(d, ops, env, n + 3) && Returned(d, ops, env, n + 6)
            && Returned(d, ops, env, n + 7) && Returned(d, ops, env, n + 8))
      && (verdict == Skipped || verdict == Applied ==>
            (b.header.version == MAX_SEQ && hit) || LoadMaxSeq(d2) == b.header.seqno)
  {
    hide Install, RunTo, Returned, Acceptable, Passes, Hits, LoadMaxSeq, SeqStage;
    PassesIff(d, b, now, accepts);
    assert |Install(b)| == |b.rules| + 9;
    if Acceptable(d, b, now, accepts) {
      if Hits(b.header, dev) {
        InstallAlive(d, b, env);
      } else {
        AliveIff(d, Store(b), env, 2);
        StoreChecked(b);
      }
      if b.header.version != MAX_SEQ || !Hits(b.header, dev) {
        PlanKeepsSeq(d, b, dev, env, |Plan(b, dev)|);
        LastStage(d, b, dev, env);
      }
    }
  }

  lemma StoreChecked(b: Bundle)
    ensures Checked(Store(b)[0]) && Checked(Store(b)[1])
  {
  }

  lemma LastStage(d: Disk, b: Bundle, dev: Device, env: Environment)
    requires
      var (d2, alive) := RunTo(d, Plan(b, dev), env, |Plan(b, dev)|);
      SeqStage(d, b.header.seqno, d2, alive, 0)
    ensures
      var (d2, alive) := RunTo(d, Plan(b, dev), env, |Plan(b, dev)|);
      alive ==> LoadMaxSeq(d2) == b.header.seqno
  {
    hide RunTo, Plan, LoadMaxSeq;
  }

  // ---- when everything works

  // The file system does all it is asked to.
  predicate Works(b: Bundle, env: Environment) {
    && (forall k :: 0 <= k < |b.rules| + 9 ==> env(k).ok)
    && forall i :: 0 <= i < |b.rules| ==> env(i + 2).kept == Some(|b.rules[i]|)
  }

  // Nothing stands in the way: no directory has the name of a file that the switch writes.
  predicate Clear(d: Disk) {
    && (LINK_TMP in d ==> !d[LINK_TMP].Dir?)
    && (SEQ_TMP in d ==> d[SEQ_TMP].File?) && (MAX_SEQ in d ==> d[MAX_SEQ].File?)
  }

  predicate OwnName(v: string, a: string) {
    v !in {a, NEW, CURRENT, LINK_TMP, SEQ_TMP, MAX_SEQ} && a !in {SEQ_TMP, MAX_SEQ}
  }

  ghost predicate UnderWay(b: Bundle, a: string, was: map<nat, RuleText>, d: Disk, k: nat) {
    var n := |b.rules|;
    && Stage(b, a, was, d, k) && Clear(d)
    && (k == n + 3 ==> b.header.version !in d)
    && (k == n + 5 ==> LINK_TMP !in d) && (k == n + 6 ==> LINK_TMP in d)
    && (k == n + 8 ==> SEQ_TMP in d)
  }

  lemma OneMoreWorks(b: Bundle, a: string, was: map<nat, RuleText>, d: Disk, k: nat, env: Environment)
    requires b.rules != [] && OwnName(b.header.version, a) && Works(b, env) && k < |b.rules| + 9
    requires UnderWay(b, a, was, d, k)
    ensures var (d2, ok) := Exec(d, Install(b)[k], env(k)); ok && UnderWay(b, a, was, d2, k + 1)
  {
    hide Install, RuleFiles, Stage;
    assert |Install(b)| == |b.rules| + 9;
    OpAt(b, k);
    Advance(b, a, was, d, k, env(k));
    StageHas(b, a, was, d, k);
  }

  lemma StageHas(b: Bundle, a: string, was: map<nat, RuleText>, d: Disk, k: nat)
    requires Stage(b, a, was, d, k)
    ensures CURRENT in d && d[CURRENT].Link?
    ensures k == 1 ==> NEW !in d
    ensures 2 <= k <= |b.rules| + 2 ==> NEW in d && d[NEW].Dir?
    ensures k == |b.rules| + 3 && b.header.version != NEW ==> NEW in d && d[NEW].Dir?
  {
  }

  lemma {:induction false} AllWork(d: Disk, b: Bundle, a: string, env: Environment, k: nat)
    requires Settled(d, a) && Clear(d) && b.rules != [] && OwnName(b.header.version, a) && Works(b, env)
    requires k <= |b.rules| + 9
    ensures |Install(b)| == |b.rules| + 9
    ensures var (d2, alive) := RunTo(d, Install(b), env, k); alive && UnderWay(b, a, d[a].files, d2, k)
    ensures forall i :: 0 <= i < k ==> Returned(d, Install(b), env, i)
  {
    hide Install, Exec, Checked, UnderWay, Works, OwnName, Clear;
    assert |Install(b)| == |b.rules| + 9;
    if k == 0 {
      Begins(d, b, a);
    } else {
      AllWork(d, b, a, env, k - 1);
      OneMoreWorks(b, a, d[a].files, RunTo(d, Install(b), env, k - 1).0, k - 1, env);
    }
  }

  lemma Begins(d: Disk, b: Bundle, a: string)
    requires Settled(d, a) && Clear(d)
    ensures UnderWay(b, a, d[a].files, d, 0)
  {
  }

  // A bundle that passes all checks and is for all devices, on a file system that works: it is
  // applied, its rules are the active ones and its number is the stored one.
  lemma GoodBundleApplies(d: Disk, b: Bundle, a: string, dev: Device, now: int, accepts: string -> bool,
                          env: Environment)
    requires Settled(d, a) && Clear(d) && OwnName(b.header.version, a) && Works(b, env)
    requires Acceptable(d, b, now, accepts)
    requires SameButCase(b.header.ecu, "all") && SameButCase(b.header.node, "all")
    requires SameButCase(b.header.vmodel, "all")
    ensures
      var (d2, verdict) := Apply(d, b, dev, now, accepts, env, true);
      verdict == Applied && Active(d2) == Some(RuleFiles(b.rules)) && LoadMaxSeq(d2) == b.header.seqno
  {
    hide Install, RunTo, Returned, Passes, Hits, LoadMaxSeq, UnderWay, Works, Active, RuleFiles, SameButCase, Clear,
      Acceptable, Apply;
    AllHitsEvery(b.header, dev);
    HasRules(d, b, now, accepts);
    PassesIff(d, b, now, accepts);
    AllWork(d, b, a, env, |b.rules| + 9);
    VerdictIff(d, b, dev, now, accepts, env, true);
    ApplyInstalls(d, b, dev, now, accepts, env);
    NotMaxSeq(b, a);
    EndsActive(b, a, d[a].files, RunTo(d, Install(b), env, |b.rules| + 9).0);
  }

  lemma HasRules(d: Disk, b: Bundle, now: int, accepts: string -> bool)
    requires Acceptable(d, b, now, accepts)
    ensures b.rules != []
  {
  }

  lemma ApplyInstalls(d: Disk, b: Bundle, dev: Device, now: int, accepts: string -> bool, env: Environment)
    requires Passes(d, b, now, accepts) && Hits(b.header, dev)
    ensures |Install(b)| == |b.rules| + 9
    ensures Apply(d, b, dev, now, accepts, env, true).0 == RunTo(d, Install(b), env, |b.rules| + 9).0
  {
    hide Install, RunTo, Passes, Hits;
    assert |Install(b)| == |b.rules| + 9;
  }

  lemma NotMaxSeq(b: Bundle, a: string)
    requires OwnName(b.header.version, a)
    ensures b.header.version != MAX_SEQ
  {
  }

  lemma EndsActive(b: Bundle, a: string, was: map<nat, RuleText>, d: Disk)
    requires UnderWay(b, a, was, d, |b.rules| + 9)
    ensures Active(d) == Some(RuleFiles(b.rules))
  {
    hide RuleFiles;
  }
}
