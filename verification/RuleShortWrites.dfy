/** What the unchecked writes of the rule files can do to the rules that go live. */
module RuleShortWrites {
  import opened Machine
  import opened RuleSwitch
  import opened RuleSwitchSafety

  // As Relied, except that a rule file may be written in part or not be opened at all.
  predicate Unwatched(op: Op, o: Outcome) {
    match op
    case WriteRule(_, _) => true
    case _ => Relied(op, o)
  }

  ghost predicate WritesUnwatched(ops: seq<Op>, env: Environment) {
    forall i :: 0 <= i < |ops| ==> Unwatched(ops[i], env(i))
  }

  // The rule files there are after j writes.
  function Written(rules: seq<RuleText>, env: Environment, j: nat): map<nat, RuleText>
    requires j <= |rules|
  {
    map i: nat | i < j && env(i + 2).kept.Some? :: rules[i][..Min(env(i + 2).kept.value, |rules[i]|)]
  }

  // A version named like the temporary link, of which no rule file could be opened, is
  // taken for a left-over link: its empty directory goes and the link points to itself.
  predicate TakenForLink(b: Bundle, env: Environment) {
    b.header.version == LINK_TMP && Written(b.rules, env, |b.rules|) == map[]
  }

  // The old version active while the new one is written, renamed and linked.
  ghost predicate Progress(b: Bundle, a: string, env: Environment, d: Disk, k: nat) {
    var (n, v, all) := (|b.rules|, b.header.version, Written(b.rules, env, |b.rules|));
    if k <= n + 6 then
      && Settled(d, a)
      && (k == 1 ==> NEW !in d)
      && (2 <= k <= n + 2 ==> NEW in d && d[NEW] == Dir(Written(b.rules, env, k - 2)))
      && (k == n + 3 ==> if v == NEW then NEW !in d else NEW in d && d[NEW] == Dir(all))
      && (n + 4 <= k ==> v != NEW)
      && (n + 4 <= k && (k == n + 4 || !TakenForLink(b, env)) ==> v in d && d[v] == Dir(all))
      && (n + 5 <= k && LINK_TMP in d ==>
            (d[LINK_TMP].Dir? && !TakenForLink(b, env)) || (k == n + 6 && d[LINK_TMP] == Link(v)))
    else if TakenForLink(b, env) then CURRENT in d && d[CURRENT] == Link(v) && v !in d
    else Settled(d, v) && d[v].files == all
  }

  lemma WrittenGrows(rules: seq<RuleText>, env: Environment, j: nat)
    requires j < |rules|
    ensures
      var (was, kept) := (Written(rules, env, j), env(j + 2).kept);
      Written(rules, env, j + 1) == if kept.Some? then was[j := rules[j][..Min(kept.value, |rules[j]|)]] else was
    ensures Written(rules, env, 0) == map[]
  {
  }

  lemma Advance(b: Bundle, a: string, env: Environment, d: Disk, k: nat)
    requires b.rules != [] && FreshName(b, a) && k < |b.rules| + 7
    requires Progress(b, a, env, d, k) && Unwatched(Install(b)[k], env(k))
    ensures var (d2, ok) := Exec(d, Install(b)[k], env(k));
            ok || !Checked(Install(b)[k]) ==> Progress(b, a, env, d2, k + 1)
  {
    hide Install, Written;
    OpAt(b, k);
    WrittenGrows(b.rules, env, 0);
    if 2 <= k < |b.rules| + 2 {
      WrittenGrows(b.rules, env, k - 2);
    }
  }

  lemma {:induction false} Progresses(d: Disk, b: Bundle, a: string, env: Environment, k: nat)
    requires Settled(d, a) && b.rules != [] && FreshName(b, a) && WritesUnwatched(Install(b), env) && k <= |b.rules| + 7
    ensures |Install(b)| == |b.rules| + 9
    ensures RunTo(d, Install(b), env, k).1 ==> Progress(b, a, env, RunTo(d, Install(b), env, k).0, k)
  {
    hide Install, Exec, Checked, Unwatched, Progress;
    assert |Install(b)| == |b.rules| + 9;
    if k == 0 {
      Starts(d, b, a, env);
    } else {
      Progresses(d, b, a, env, k - 1);
      if RunTo(d, Install(b), env, k - 1).1 {
        assert Unwatched(Install(b)[k - 1], env(k - 1));
        Advance(b, a, env, RunTo(d, Install(b), env, k - 1).0, k - 1);
      }
    }
  }

  lemma Starts(d: Disk, b: Bundle, a: string, env: Environment)
    requires Settled(d, a)
    ensures Progress(b, a, env, d, 0)
  {
  }

  // All files hold all of their text exactly when no write fell short and all could be opened.
  lemma WrittenInFull(b: Bundle, env: Environment)
    requires WritesUnwatched(Install(b), env)
    ensures Written(b.rules, env, |b.rules|) == RuleFiles(b.rules) <==> Sound(Install(b), env)
  {
    hide Install;
    assert |Install(b)| == |b.rules| + 9;
    var w := Written(b.rules, env, |b.rules|);
    if w == RuleFiles(b.rules) {
      forall i | 0 <= i < |Install(b)| ensures Relied(Install(b)[i], env(i)) {
        OpAt(b, i);
        assert Unwatched(Install(b)[i], env(i));
        if 2 <= i < |b.rules| + 2 {
          assert i - 2 in RuleFiles(b.rules) && RuleFiles(b.rules)[i - 2] == b.rules[i - 2];
          assert |w[i - 2]| == |b.rules[i - 2]|;
        }
      }
    }
    if Sound(Install(b), env) {
      forall i: nat | i < |b.rules| ensures i in w && w[i] == b.rules[i] {
        OpAt(b, i + 2);
        assert Relied(Install(b)[i + 2], env(i + 2));
      }
    }
  }

  // Once the link is renamed, the live rules are what was written of the bundle's: all of
  // it exactly when no write fell short. Nothing on the way notices.
  lemma ShortWritesGoLive(d: Disk, b: Bundle, a: string, env: Environment)
    requires Settled(d, a) && b.rules != [] && FreshName(b, a) && WritesUnwatched(Install(b), env)
    requires RunTo(d, Install(b), env, |b.rules| + 7).1
    ensures
      var live := Active(RunTo(d, Install(b), env, |b.rules| + 7).0);
      && live == (if TakenForLink(b, env) then None else Some(Written(b.rules, env, |b.rules|)))
      && (live == Some(RuleFiles(b.rules)) <==> Sound(Install(b), env))
  {
    hide Install, RunTo, Sound, Written, Unwatched;
    Progresses(d, b, a, env, |b.rules| + 7);
    WrittenInFull(b, env);
    NonEmptyRules(b.rules);
  }
}
