/** The rule directory on disk and what applying a signed bundle does to it, call by call. */
module RuleSwitch {
  import opened Machine
  import opened RuleSigning

  type RuleText = seq<octet>

  // An entry of the rule directory. A version directory holds numbered rule files; a
  // plain file holds the number it reads as, if it reads as one.
  datatype Node = File(number: Option<int>) | Dir(files: map<nat, RuleText>) | Link(target: string)

  type Disk = map<string, Node>

  datatype Bundle = Bundle(header: Header, rules: seq<RuleText>)

  const NEW := "rules.new"
  const CURRENT := "current"
  const LINK_TMP := "current.tmp"
  const MAX_SEQ := "max_seq"
  const SEQ_TMP := "max_seq.tmp"

  // ---- file system calls

  datatype Op =
    | RemoveAll(name: string)
    | MakeDir(name: string)
    | WriteRule(i: nat, text: RuleText)
    | Rename(from: string, to: string)
    | Remove(name: string)
    | Symlink(target: string, name: string)
    | WriteSeq(n: int)

  // What the system makes of a call: whether it is carried out, how much of a rule file
  // gets written (nothing when the file cannot be opened), and which files a failing
  // removal leaves behind.
  datatype Outcome = Outcome(ok: bool, kept: Option<nat>, left: set<nat>)

  type Environment = nat -> Outcome

  predicate MayRename(d: Disk, from: string, to: string) {
    from in d &&
    (from == to || to !in d ||
     (if d[from].Dir? then d[to].Dir? && d[to].files == map[] else !d[to].Dir?))
  }

  function Exec(d: Disk, op: Op, o: Outcome): (r: (Disk, bool)) {
    match op
    case RemoveAll(name) =>
      if name !in d then (d, true)
      else if o.ok then (d - {name}, true)
      else if d[name].Dir? then (d[name := Dir(map i | i in d[name].files && i in o.left :: d[name].files[i])], false)
      else (d, false)
    case MakeDir(name) =>
      if name in d then (d, d[name].Dir?) else if o.ok then (d[name := Dir(map[])], true) else (d, false)
    case WriteRule(i, text) =>
      if NEW in d && d[NEW].Dir? && o.kept.Some? then
        (d[NEW := Dir(d[NEW].files[i := text[..Min(o.kept.value, |text|)]])], true)
      else (d, false)
    case Rename(from, to) =>
      if !o.ok || !MayRename(d, from, to) then (d, false)
      else if from == to then (d, true)
      else ((d - {from})[to := d[from]], true)
    case Remove(name) =>
      if name !in d then (d, true)
      else if o.ok && (d[name].Dir? ==> d[name].files == map[]) then (d - {name}, true)
      else (d, false)
    case Symlink(target, name) =>
      if !o.ok || name in d then (d, false) else (d[name := Link(target)], true)
    case WriteSeq(n) =>
      if SEQ_TMP in d && !d[SEQ_TMP].File? then (d, false)
      else if o.ok then (d[SEQ_TMP := File(Some(n))], true)
      else (d[SEQ_TMP := File(None)], false)
  }

  // ---- the calls a bundle leads to

  function Writes(rules: seq<RuleText>): (ops: seq<Op>)
    ensures |ops| == |rules|
  {
    seq(|rules|, i requires 0 <= i < |rules| => WriteRule(i, rules[i]))
  }

  function Store(b: Bundle): seq<Op> {
    [WriteSeq(b.header.seqno), Rename(SEQ_TMP, MAX_SEQ)]
  }

  function Install(b: Bundle): (ops: seq<Op>)
    ensures |ops| == |b.rules| + 9
  {
    var v := b.header.version;
    [RemoveAll(NEW), MakeDir(NEW)] + Writes(b.rules)
    + [RemoveAll(v), Rename(NEW, v), Remove(LINK_TMP), Symlink(v, LINK_TMP), Rename(LINK_TMP, CURRENT)]
    + Store(b)
  }

  // The results of these calls are looked at; all others are ignored.
  predicate Checked(op: Op) {
    op.Rename? || op.WriteSeq?
  }

  // The disk after the first k calls, and whether the bundle is still being applied.
  function RunTo(d: Disk, ops: seq<Op>, env: Environment, k: nat): (r: (Disk, bool))
    requires k <= |ops|
  {
    if k == 0 then (d, true)
    else
      var (d1, alive) := RunTo(d, ops, env, k - 1);
      if !alive then (d1, false)
      else
        var (d2, ok) := Exec(d1, ops[k - 1], env(k - 1));
        (d2, ok || !Checked(ops[k - 1]))
  }

  // ---- what the disk means

  // The rule files that the probes read through `current`.
  function Active(d: Disk): Option<map<nat, RuleText>> {
    if CURRENT !in d then None
    else
      match d[CURRENT]
      case File(_) => None
      case Dir(files) => Some(files)
      case Link(target) => if target in d && d[target].Dir? then Some(d[target].files) else None
  }

  function LoadMaxSeq(d: Disk): int {
    if MAX_SEQ in d && d[MAX_SEQ].File? && d[MAX_SEQ].number.Some? then d[MAX_SEQ].number.value else 0
  }

  function RuleFiles(rules: seq<RuleText>): map<nat, RuleText> {
    map i: nat | i < |rules| :: rules[i]
  }

  // `current` links to the directory of version a.
  predicate Settled(d: Disk, a: string) {
    CURRENT in d && d[CURRENT] == Link(a) && a in d && d[a].Dir? && a !in {NEW, CURRENT, LINK_TMP}
  }

  // The calls whose results are ignored, but whose work the switch relies on, do it:
  // rules.new is cleared and made, every rule file is written in full, and a left-over
  // current.tmp can be removed.
  predicate Relied(op: Op, o: Outcome) {
    match op
    case RemoveAll(name) => name == NEW ==> o.ok
    case MakeDir(_) => o.ok
    case WriteRule(_, text) => o.kept.Some? && |text| <= o.kept.value
    case Remove(_) => o.ok
    case _ => true
  }

  ghost predicate Sound(ops: seq<Op>, env: Environment) {
    forall i :: 0 <= i < |ops| ==> Relied(ops[i], env(i))
  }
}
