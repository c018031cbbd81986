/** What holds of the rule directory after every call of every attempt. */
module RuleSwitchSafety {
  import opened Machine
  import opened RuleSwitch

  lemma OpAt(b: Bundle, k: nat)
    requires k < |b.rules| + 9
    ensures
      var (ops, n, v) := (Install(b), |b.rules|, b.header.version);
      ops[k] ==
        if k == 0 then RemoveAll(NEW)
        else if k == 1 then MakeDir(NEW)
        else if k < n + 2 then WriteRule(k - 2, b.rules[k - 2])
        else if k == n + 2 then RemoveAll(v)
        else if k == n + 3 then Rename(NEW, v)
        else if k == n + 4 then Remove(LINK_TMP)
        else if k == n + 5 then Symlink(v, LINK_TMP)
        else if k == n + 6 then Rename(LINK_TMP, CURRENT)
        else if k == n + 7 then WriteSeq(b.header.seqno)
        else Rename(SEQ_TMP, MAX_SEQ)
  {
  }

  // The directory of version a as it was, the new rules written so far in rules.new,
  // later under their version name, and finally active.
  ghost predicate Stage(b: Bundle, a: string, was: map<nat, RuleText>, d: Disk, k: nat) {
    var (n, v, rules) := (|b.rules|, b.header.version, RuleFiles(b.rules));
    if k <= n + 6 then
      && Settled(d, a) && d[a].files == was
      && (k == 1 ==> NEW !in d)
      && (2 <= k <= n + 2 ==> NEW in d && d[NEW] == Dir(RuleFiles(b.rules[..k - 2])))
      && (k == n + 3 ==> if v == NEW then NEW !in d else NEW in d && d[NEW] == Dir(rules))
      && (n + 4 <= k ==> v != NEW && v in d && d[v] == Dir(rules))
      && (n + 5 <= k ==> LINK_TMP in d ==> d[LINK_TMP].Dir? || (k == n + 6 && d[LINK_TMP] == Link(v)))
    else Settled(d, v) && d[v].files == rules && (k == n + 8 ==> v != SEQ_TMP)
  }

  predicate FreshName(b: Bundle, a: string) {
    b.header.version != a && b.header.version != CURRENT
  }

  lemma RulesGrow(rules: seq<RuleText>, i: nat)
    requires i < |rules|
    ensures RuleFiles(rules[..i + 1]) == RuleFiles(rules[..i])[i := rules[i]]
    ensures rules[..|rules|] == rules && RuleFiles(rules[..0]) == map[]
  {
  }

  lemma NonEmptyRules(rules: seq<RuleText>)
    requires rules != []
    ensures RuleFiles(rules) != map[] && RuleFiles(rules[..0]) == map[] && rules[..|rules|] == rules
  {
    assert 0 in RuleFiles(rules);
  }

  lemma Advance(b: Bundle, a: string, was: map<nat, RuleText>, d: Disk, k: nat, o: Outcome)
    requires b.rules != [] && FreshName(b, a) && k < |b.rules| + 9
    requires Stage(b, a, was, d, k) && Relied(Install(b)[k], o)
    ensures
      var (d2, ok) := Exec(d, Install(b)[k], o);
      if ok || !Checked(Install(b)[k]) then Stage(b, a, was, d2, k + 1)
      else Active(d2) == Active(d) && CURRENT in d && CURRENT in d2 && d2[CURRENT] == d[CURRENT]
  {
    hide RuleFiles, Install;
    OpAt(b, k);
    NonEmptyRules(b.rules);
    if 2 <= k < |b.rules| + 2 {
      var text := b.rules[k - 2];
      assert text[..Min(o.kept.value, |text|)] == text;
      RulesGrow(b.rules, k - 2);
    }
  }

  lemma StageActive(b: Bundle, a: string, was: map<nat, RuleText>, d: Disk, k: nat)
    requires Stage(b, a, was, d, k)
    ensures Active(d) == Some(if k <= |b.rules| + 6 then was else RuleFiles(b.rules))
    ensures CURRENT in d && d[CURRENT] == Link(if k <= |b.rules| + 6 then a else b.header.version)
  {
    hide RuleFiles;
  }

  // After every call the probes see the old rules or all of the new ones, and `current`
  // is the new version once its rename has succeeded, not before.
  lemma {:induction false} SwitchStage(d: Disk, b: Bundle, a: string, env: Environment, k: nat)
    requires Settled(d, a) && b.rules != [] && FreshName(b, a) && Sound(Install(b), env) && k <= |Install(b)|
    ensures
      var (d2, alive) := RunTo(d, Install(b), env, k);
      var (switched, v) := (|b.rules| + 7 <= k && RunTo(d, Install(b), env, |b.rules| + 7).1, b.header.version);
      && (alive ==> Stage(b, a, d[a].files, d2, k))
      && Active(d2) == Some(if switched then RuleFiles(b.rules) else d[a].files)
      && CURRENT in d2 && d2[CURRENT] == Link(if switched then v else a)
  {
    hide Install, Exec, Checked, Relied, RuleFiles, Stage, Active;
    if k == 0 {
      StageStart(d, b, a);
      StageActive(b, a, d[a].files, d, 0);
    } else {
      SwitchStage(d, b, a, env, k - 1);
      var (d1, alive) := RunTo(d, Install(b), env, k - 1);
      if alive {
        Advance(b, a, d[a].files, d1, k - 1, env(k - 1));
        var (d2, alive2) := RunTo(d, Install(b), env, k);
        if alive2 {
          StageActive(b, a, d[a].files, d2, k);
          StillAlive(d, Install(b), env, Min(k, |b.rules| + 7), k);
        } else {
          StageActive(b, a, d[a].files, d1, k - 1);
          StillAlive(d, Install(b), env, Min(k - 1, |b.rules| + 7), k - 1);
        }
      } else if k == |b.rules| + 7 {
        assert !RunTo(d, Install(b), env, k).1;
      }
    }
  }

  lemma {:induction false} StillAlive(d: Disk, ops: seq<Op>, env: Environment, j: nat, k: nat)
    requires j <= k <= |ops| && RunTo(d, ops, env, k).1
    ensures RunTo(d, ops, env, j).1
  {
    hide Exec, Checked;
    if j < k {
      StillAlive(d, ops, env, j, k - 1);
    }
  }

  lemma StageStart(d: Disk, b: Bundle, a: string)
    requires Settled(d, a)
    ensures Stage(b, a, d[a].files, d, 0)
  {
  }

  lemma SettledActive(d: Disk, a: string)
    requires Settled(d, a)
    ensures Active(d) == Some(d[a].files)
  {
  }

  ghost predicate OldOrNew(d: Disk, b: Bundle, env: Environment, k: nat)
    requires k <= |Install(b)|
  {
    var d2 := RunTo(d, Install(b), env, k).0;
    Active(d2) == Active(d) || Active(d2) == Some(RuleFiles(b.rules))
  }

  lemma SwitchSafe(d: Disk, b: Bundle, a: string, env: Environment, k: nat)
    requires Settled(d, a) && b.rules != [] && FreshName(b, a) && Sound(Install(b), env) && k <= |Install(b)|
    ensures OldOrNew(d, b, env, k)
  {
    hide Install, Exec, Stage, Active, RuleFiles, FreshName, Sound, RunTo;
    SwitchStage(d, b, a, env, k);
    SettledActive(d, a);
  }

  // Removing the version directory takes away what `current` means when the version is
  // the active one, or is called `current`.
  lemma Dangles(d: Disk, b: Bundle, a: string)
    requires Settled(d, a) && !FreshName(b, a)
    ensures
      var env: Environment := _ => Outcome(true, Some(Longest(b.rules)), {});
      Sound(Install(b), env) && Active(RunTo(d, Install(b), env, |b.rules| + 3).0) == None
  {
    hide Install, Active, Settled, FreshName;
    var env: Environment := _ => Outcome(true, Some(Longest(b.rules)), {});
    forall i | 0 <= i < |Install(b)| ensures Relied(Install(b)[i], env(i)) {
      OpAt(b, i);
      if 2 <= i < |b.rules| + 2 {
        LongestIs(b.rules, i - 2);
      }
    }
    assert |Install(b)| == |b.rules| + 9;
    WritesKeep(d, b, env, |b.rules| + 2);
    OpAt(b, |b.rules| + 2);
    var d1 := RunTo(d, Install(b), env, |b.rules| + 2).0;
    RemovedActive(d1, d, b, a);
    assert b.header.version !in d1 ==> d1 - {b.header.version} == d1;
  }

  function Longest(rules: seq<RuleText>): nat {
    if rules == [] then 0 else Max(|rules[0]|, Longest(rules[1..]))
  }

  lemma {:induction false} LongestIs(rules: seq<RuleText>, i: nat)
    requires i < |rules|
    ensures |rules[i]| <= Longest(rules)
  {
    if i > 0 {
      LongestIs(rules[1..], i - 1);
    }
  }

  // Until the version directory is removed, only rules.new changes.
  lemma {:induction false} WritesKeep(d: Disk, b: Bundle, env: Environment, k: nat)
    requires k <= |b.rules| + 2
    ensures
      var (d2, alive) := RunTo(d, Install(b), env, k);
      alive && d2 - {NEW} == d - {NEW}
  {
    hide Install;
    assert |Install(b)| == |b.rules| + 9;
    if k > 0 {
      WritesKeep(d, b, env, k - 1);
      OpAt(b, k - 1);
    }
  }

  lemma RemovedActive(d1: Disk, d: Disk, b: Bundle, a: string)
    requires Settled(d, a) && !FreshName(b, a) && d1 - {NEW} == d - {NEW}
    ensures Active(d1 - {b.header.version}) == None
  {
    assert CURRENT in d - {NEW} && (d - {NEW})[CURRENT] == d[CURRENT];
    assert CURRENT in d1 && d1[CURRENT] == (d1 - {NEW})[CURRENT];
  }

  // The switch is crash-consistent exactly when the bundle's version is neither the
  // active one nor `current`.
  lemma SwitchSafeIff(d: Disk, b: Bundle, a: string)
    requires Settled(d, a) && b.rules != []
    ensures FreshName(b, a) <==>
      forall env: Environment, k: nat | Sound(Install(b), env) && k <= |Install(b)| :: OldOrNew(d, b, env, k)
  {
    hide Install, Active, Settled, FreshName, Sound, RunTo, Longest;
    if FreshName(b, a) {
      forall env: Environment, k: nat | Sound(Install(b), env) && k <= |Install(b)| ensures OldOrNew(d, b, env, k) {
        SwitchSafe(d, b, a, env, k);
      }
    } else {
      Dangles(d, b, a);
      SettledActive(d, a);
      var env: Environment := _ => Outcome(true, Some(Longest(b.rules)), {});
      assert !OldOrNew(d, b, env, |b.rules| + 3);
    }
  }
}
