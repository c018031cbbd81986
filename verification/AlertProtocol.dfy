/**
 * The durable alert queue as steps between which the process can crash: what is
 * on disk (the alert file and the cursor file), what is in memory, and what has
 * been returned to the uploader.
 */
module AlertProtocol {
  import opened Machine
  import opened AlertLines

  // One call of pending(): the stretch of the log it covered and the lines it returned.
  datatype Batch = Batch(from: nat, to: nat, lines: seq<seq<byte>>)

  // Where markUploaded is: about to save the cursor, about to compact, about to
  // save the cursor after truncating.
  datatype Phase = Idle | Marked | Saved | Truncated

  // log: every byte ever stored; the file is log[base..], because truncation drops
  // what came before. returned: the end of what batches have covered so far.
  // acked: the end of what markUploaded has acknowledged. hasDir: the object has been told
  // where its files are.
  datatype Queue = Queue(
    log: seq<byte>, base: nat, cursorFile: Option<nat>,
    hasDir: bool, isOpen: bool, cursor: nat, pendingEnd: nat, phase: Phase,
    returned: nat, acked: nat, batches: seq<Batch>)

  const EMPTY: Queue := Queue([], 0, None, false, false, 0, 0, Idle, 0, 0, [])

  function File(q: Queue): seq<byte> {
    if q.base <= |q.log| then q.log[q.base..] else []
  }

  datatype Step =
    | Open(opens: bool)   // whether the alert file could be opened
    | Close
    | Append(line: seq<byte>, kept: nat)   // the first kept bytes reach the file
    | Pending(max: nat)
    | Mark
    | Save(ok: bool)
    | Compact(ok: bool)
    | Crash

  // The line as stored; a newline is added when there is none.
  function Stored(line: seq<byte>): seq<byte> {
    if line != [] && line[|line| - 1] == NEWLINE then line else line + [NEWLINE]
  }

  function LoadedCursor(q: Queue): nat {
    if q.cursorFile.Some? then q.cursorFile.value else 0
  }

  function OpenCursor(q: Queue): nat {
    if |File(q)| < LoadedCursor(q) then 0 else LoadedCursor(q)
  }

  function Apply(q: Queue, s: Step): Queue {
    match s
    case Open(opens) =>
      if !q.phase.Idle? then q
      else q.(hasDir := true, isOpen := opens, cursor := if opens then OpenCursor(q) else LoadedCursor(q))
    case Close => if !q.phase.Idle? then q else q.(isOpen := false)
    case Append(line, kept) =>
      if !q.isOpen || !q.phase.Idle? || kept > |Stored(line)| then q
      else q.(log := q.log + Stored(line)[..kept])
    case Pending(max) =>
      if !q.isOpen || !q.phase.Idle? || max == 0 then q
      else if q.cursor > |File(q)| then q.(pendingEnd := q.cursor)
      else
        var (lines, _, pos) := Read(File(q), q.cursor, q.cursor, max);
        q.(pendingEnd := pos, returned := Max(q.returned, q.base + pos),
           batches := q.batches + [Batch(q.base + q.cursor, q.base + pos, lines)])
    case Mark =>
      if !q.hasDir || !q.phase.Idle? || q.pendingEnd < q.cursor then q
      else q.(cursor := q.pendingEnd, pendingEnd := 0, phase := Marked, acked := Max(q.acked, q.base + q.pendingEnd))
    case Save(ok) =>
      if q.phase.Marked? then q.(cursorFile := if ok then Some(q.cursor) else q.cursorFile, phase := Saved)
      else if q.phase.Truncated? then q.(cursorFile := if ok then Some(q.cursor) else q.cursorFile, phase := Idle)
      else q
    case Compact(ok) =>
      if !q.phase.Saved? then q
      else if q.isOpen && ok && |File(q)| == q.cursor && q.cursor > 0 then
        q.(base := |q.log|, cursor := 0, phase := Truncated)
      else q.(phase := Idle)
    case Crash => q.(hasDir := false, isOpen := false, cursor := 0, pendingEnd := 0, phase := Idle)
  }

  function Run(q: Queue, steps: seq<Step>): Queue {
    if steps == [] then q else Apply(Run(q, steps[..|steps| - 1]), steps[|steps| - 1])
  }

  // ---- safety ----

  // What has been returned is covered by batches that returned all of its lines.
  ghost predicate Covered(q: Queue) {
    && (forall i :: 0 <= i < |q.batches| ==>
          var b := q.batches[i];
          b.from <= b.to <= |q.log| && b.lines == Lines(q.log[b.from..b.to]))
    && (forall x :: 0 <= x < q.returned ==> InBatch(q.batches, x))
  }

  ghost predicate InBatch(bs: seq<Batch>, x: int) {
    exists i :: 0 <= i < |bs| && bs[i].from <= x < bs[i].to
  }

  // Everything before the cursor was acknowledged, and only what was returned can be
  // acknowledged next: no unacknowledged byte is skipped.
  ghost predicate NoSkip(q: Queue) {
    && (q.isOpen || !q.phase.Idle? ==> q.cursor <= |File(q)| && q.base + q.cursor <= q.acked)
    && q.base + q.pendingEnd <= q.returned
  }

  ghost predicate Safe(q: Queue) {
    && q.base <= q.acked <= q.returned <= |q.log| && NulFree(q.log) && Covered(q) && NoSkip(q)
    && (!q.phase.Idle? ==> q.pendingEnd == 0)
    && (q.phase.Truncated? ==> q.isOpen && q.base == |q.log| && q.cursor == 0)
  }

  // The cursor file speaks of an earlier, longer life of the alert file.
  predicate Stale(q: Queue) {
    q.cursorFile.Some? && q.base + q.cursorFile.value > q.acked
  }

  // An open now would believe a stale cursor.
  predicate Misled(q: Queue) {
    Stale(q) && q.cursorFile.value <= |File(q)|
  }

  // The steps a caller may take: no NULs appended, no open that would be misled.
  predicate Allowed(q: Queue, s: Step) {
    && (s.Append? ==> NulFree(s.line))
    && (s.Open? && s.opens ==> !Misled(q))
  }

  ghost predicate AllAllowed(q: Queue, steps: seq<Step>) {
    forall i :: 0 <= i < |steps| ==> Allowed(Run(q, steps[..i]), steps[i])
  }

  lemma CoveredAppend(q: Queue, more: seq<byte>)
    requires Covered(q)
    ensures Covered(q.(log := q.log + more))
  {
    hide Lines, InBatch;
    forall i | 0 <= i < |q.batches|
      ensures (q.log + more)[q.batches[i].from..q.batches[i].to] == q.log[q.batches[i].from..q.batches[i].to]
    {
    }
  }

  lemma CoveredBatch(q: Queue, b: Batch)
    requires Covered(q) && b.from <= q.returned && b.from <= b.to <= |q.log|
    requires b.lines == Lines(q.log[b.from..b.to])
    ensures Covered(q.(batches := q.batches + [b], returned := Max(q.returned, b.to)))
  {
    hide Lines;
    var bs := q.batches + [b];
    forall x | 0 <= x < Max(q.returned, b.to) ensures InBatch(bs, x) {
      if x < q.returned {
        assert InBatch(q.batches, x);
        var i :| 0 <= i < |q.batches| && q.batches[i].from <= x < q.batches[i].to;
        assert bs[i] == q.batches[i];
      } else {
        assert bs[|q.batches|] == b;
      }
    }
  }

  // What pending() returns: the lines of the stretch it moves over, up to a line
  // boundary or the end of the file.
  lemma PendingStretch(q: Queue, max: nat)
    requires q.base <= |q.log| && NulFree(q.log) && q.cursor <= |File(q)|
    ensures var (lines, _, pos) := Read(File(q), q.cursor, q.cursor, max);
            && q.cursor <= pos <= |File(q)| && lines == Lines(q.log[q.base + q.cursor..q.base + pos])
            && |lines| <= max
            && (pos == q.cursor || pos == |File(q)| || Boundary(q.log, q.base + pos))
  {
    hide Lines, Read, NulFree;
    var f := q.log[q.base..];
    NulFreePart(q.log, q.base, |q.log|);
    WholeSlice(q.log, q.base, |q.log|);
    ReadStretch(f, q.cursor, max);
    StretchOfLog(q.log, q.base, q.cursor, Read(f, q.cursor, q.cursor, max).2);
  }

  lemma StretchOfLog(log: seq<byte>, base: nat, from: nat, to: nat)
    requires base <= |log| && from <= to <= |log[base..]|
    ensures log[base..][from..to] == log[base + from..base + to]
    ensures 0 < to ==> log[base..][to - 1] == log[base + to - 1]
  {
  }

  lemma PendingSafe(q: Queue, max: nat)
    requires Safe(q)
    ensures Safe(Apply(q, Pending(max)))
  {
    hide Lines, Read, Covered, NulFree;
    if q.isOpen && q.phase.Idle? && max != 0 {
      PendingStretch(q, max);
      var (lines, _, pos) := Read(File(q), q.cursor, q.cursor, max);
      var b := Batch(q.base + q.cursor, q.base + pos, lines);
      CoveredBatch(q, b);
      SameLog(q.(batches := q.batches + [b], returned := Max(q.returned, b.to)), Apply(q, Pending(max)));
    }
  }

  // Every step keeps the queue safe; only a misled open would not.
  lemma StepSafe(q: Queue, s: Step)
    requires Safe(q) && Allowed(q, s)
    ensures Safe(Apply(q, s))
  {
    hide Lines, Read, Covered, NulFree;
    match s {
      case Pending(max) => PendingSafe(q, max);
      case Append(line, kept) =>
        if q.isOpen && q.phase.Idle? && kept <= |Stored(line)| {
          CoveredAppend(q, Stored(line)[..kept]);
          NulFreeStored(q.log, line, kept);
        }
      case Open(_) => SameLog(q, Apply(q, s));
      case Close => SameLog(q, Apply(q, s));
      case Mark => SameLog(q, Apply(q, s));
      case Save(_) => SameLog(q, Apply(q, s));
      case Compact(_) => SameLog(q, Apply(q, s));
      case Crash => SameLog(q, Apply(q, s));
    }
  }

  lemma SameLog(q: Queue, r: Queue)
    requires q.log == r.log && q.batches == r.batches && q.returned == r.returned
    ensures Covered(q) ==> Covered(r)
  {
  }

  lemma NulFreeStored(log: seq<byte>, line: seq<byte>, kept: nat)
    requires NulFree(log) && NulFree(line) && kept <= |Stored(line)|
    ensures NulFree(log + Stored(line)[..kept])
  {
  }

  // Over every run of opens, appends (whole or torn), reads, acknowledgements,
  // failed saves, compactions and crashes at any point: nothing is skipped.
  lemma {:induction false} RunSafe(steps: seq<Step>)
    requires AllAllowed(EMPTY, steps)
    ensures Safe(Run(EMPTY, steps))
  {
    hide Safe, Allowed, Apply;
    if steps == [] {
      EmptySafe();
    } else {
      var p := steps[..|steps| - 1];
      assert forall i :: 0 <= i < |p| ==> p[..i] == steps[..i] && p[i] == steps[i];
      RunSafe(p);
      assert steps[..|p|] == p;
      StepSafe(Run(EMPTY, p), steps[|p|]);
    }
  }

  lemma EmptySafe()
    ensures Safe(EMPTY)
  {
  }

  // ---- when a cursor can be stale ----

  // A crash or a failed save between truncation and the second cursor save is the
  // only way to leave a stale cursor behind.
  predicate Tears(q: Queue, s: Step) {
    q.phase.Truncated? && (s.Crash? || (s.Save? && !s.ok))
  }

  ghost predicate NeverTears(q: Queue, steps: seq<Step>) {
    forall i :: 0 <= i < |steps| ==> !Tears(Run(q, steps[..i]), steps[i])
  }

  ghost predicate NulFreeSteps(steps: seq<Step>) {
    forall i :: 0 <= i < |steps| && steps[i].Append? ==> NulFree(steps[i].line)
  }

  // From a cursor that is not stale, or about to be corrected: with truncation and cursor
  // save as one step, no open is ever misled and nothing is skipped.
  lemma {:induction false} UntornSafe(q: Queue, steps: seq<Step>)
    requires Safe(q) && (Stale(q) ==> q.phase.Truncated?)
    requires NeverTears(q, steps) && NulFreeSteps(steps)
    ensures AllAllowed(q, steps)
    ensures Safe(Run(q, steps)) && (Stale(Run(q, steps)) ==> Run(q, steps).phase.Truncated?)
  {
    hide Safe, Allowed, Apply, Stale, Tears;
    if steps != [] {
      var p, s := steps[..|steps| - 1], steps[|steps| - 1];
      assert forall i :: 0 <= i < |p| ==> p[..i] == steps[..i] && p[i] == steps[i];
      assert steps[..|p|] == p;
      UntornSafe(q, p);
      StaleStep(Run(q, p), s);
      StepSafe(Run(q, p), s);
    }
  }

  // With truncation and cursor save as one step, no open is ever misled, and
  // nothing is skipped, whatever else fails and crashes.
  lemma AtomicCompactionSafe(steps: seq<Step>)
    requires NeverTears(EMPTY, steps) && NulFreeSteps(steps)
    ensures AllAllowed(EMPTY, steps) && Safe(Run(EMPTY, steps))
    ensures Stale(Run(EMPTY, steps)) ==> Run(EMPTY, steps).phase.Truncated?
  {
    hide Safe, Allowed, Apply, Stale, Tears;
    EmptySafe();
    EmptyFresh();
    UntornSafe(EMPTY, steps);
  }

  lemma EmptyFresh()
    ensures !Stale(EMPTY)
  {
  }

  lemma StaleStep(q: Queue, s: Step)
    requires Safe(q) && (Stale(q) ==> q.phase.Truncated?) && !Tears(q, s)
    requires s.Append? ==> NulFree(s.line)
    ensures Allowed(q, s)
    ensures Stale(Apply(q, s)) ==> Apply(q, s).phase.Truncated?
  {
    SafePhase(q);
    hide Safe, NulFree, Stored, Read;
  }

  lemma SafePhase(q: Queue)
    requires Safe(q)
    ensures q.phase.Truncated? ==> q.isOpen
    ensures q.isOpen || !q.phase.Idle? ==> q.base + q.cursor <= q.acked
    ensures q.base <= q.acked
  {
  }

  // A crash right after truncation is repaired by the next open.
  lemma NextOpenRepairs(q: Queue)
    requires Safe(q) && q.phase.Truncated?
    ensures !Misled(Apply(q, Crash)) && Safe(Apply(Apply(q, Crash), Open(true)))
    ensures Apply(Apply(q, Crash), Open(true)).cursor == 0
  {
    SafePhase(q);
    hide Safe;
    StepSafe(q, Crash);
    StepSafe(Apply(q, Crash), Open(true));
  }

  // ---- when a torn compaction does harm ----

  // A life that appends as many bytes as the cursor file speaks of, and the open after it.
  function Refill(c: nat): seq<Step>
    requires 0 < c
  {
    [Crash, Open(true), Append(seq(c - 1, _ => 65) + [NEWLINE], c), Crash, Open(true)]
  }

  lemma RefillSkips(q: Queue, c: nat)
    requires 0 < c && q.cursorFile == Some(c) && q.base == |q.log| && q.acked <= q.base && q.phase.Idle?
    ensures !NoSkip(Run(q, Refill(c)))
    ensures NeverTears(q, Refill(c)) && NulFreeSteps(Refill(c))
  {
    hide Run;
    var a := Refill(c);
    var line := a[2].line;
    assert line[|line| - 1] == NEWLINE && Stored(line)[..c] == line;
    RunFive(q, a[0], a[1], a[2], a[3], a[4]);
    var q1 := Apply(q, Crash);
    var q2 := Apply(q1, Open(true));
    assert File(q1) == [] && q2.isOpen && q2.cursor == 0;
    var q3 := Apply(q2, a[2]);
    assert q3.log == q.log + line && |File(q3)| == c;
    var q4 := Apply(q3, Crash);
    assert Apply(q4, Open(true)).cursor == c;
    RefillIdle(q, c);
  }

  lemma RefillIdle(q: Queue, c: nat)
    requires 0 < c && q.phase.Idle?
    ensures NeverTears(q, Refill(c)) && NulFreeSteps(Refill(c))
  {
    hide Run, OpenCursor, Stored;
    var a := Refill(c);
    RunNone(q);
    assert a[..0] == [] && a[..1] == [] + [a[0]] && a[..2] == a[..1] + [a[1]];
    assert a[..3] == a[..2] + [a[2]] && a[..4] == a[..3] + [a[3]];
    RunSnoc(q, a[..0], a[0]);
    RunSnoc(q, a[..1], a[1]);
    RunSnoc(q, a[..2], a[2]);
    RunSnoc(q, a[..3], a[3]);
    assert forall i :: 0 <= i < 5 ==> Run(q, a[..i]).phase.Idle?;
  }

  lemma RunSnoc(q: Queue, p: seq<Step>, a: Step)
    ensures Run(q, p + [a]) == Apply(Run(q, p), a)
  {
    assert (p + [a])[..|p|] == p;
  }

  // Some way to go on, without a further torn compaction, skips a line.
  ghost predicate CanSkip(q: Queue) {
    exists steps :: NulFreeSteps(steps) && NeverTears(q, steps) && !NoSkip(Run(q, steps))
  }

  // A compaction torn between truncation and cursor save leaves a queue that can skip a line
  // later on exactly when the cursor file then holds a number above 0.
  lemma TornIff(q: Queue, s: Step)
    requires Safe(q) && Tears(q, s)
    ensures CanSkip(Apply(q, s)) <==> q.cursorFile.Some? && q.cursorFile.value > 0
  {
    hide Run, NeverTears, NulFreeSteps, Covered, NulFree;
    var q1 := Apply(q, s);
    assert q1.cursorFile == q.cursorFile && q1.phase.Idle?;
    if q.cursorFile.Some? && q.cursorFile.value > 0 {
      RefillSkips(q1, q.cursorFile.value);
    } else {
      StepSafe(q, s);
      assert !Stale(q1);
      forall steps | NulFreeSteps(steps) && NeverTears(q1, steps) ensures NoSkip(Run(q1, steps)) {
        UntornSafe(q1, steps);
      }
    }
  }

  // The repair is in memory only: appending past the old cursor and opening once
  // more skips a line that was never returned.
  function FirstLife(): seq<Step> {
    [Open(true), Append([65], 2), Pending(1), Mark, Save(true), Compact(true), Crash]
  }

  function SecondLife(): seq<Step> {
    [Open(true), Append([66], 2), Crash, Open(true)]
  }

  // The one line read back.
  lemma ReadOne()
    ensures Read([65, 10], 0, 0, 1) == ([[65]], 2, 2)
  {
    var f: seq<byte> := [65, 10];
    LineEndUnique(f, 0, 2);
    NulFreeStr(f);
    assert f[0..2] == f && f[..2] == f && f[..1] == [65];
    assert Chomp(f) == [65] && Read(f, 2, 2, 0) == ([], 2, 2);
    var one: seq<seq<byte>> := [[65]];
    assert one + [] == one;
  }

  // The first life, up to the line being read and up to the truncation.
  const LINE_READ: Queue := Queue([65, 10], 0, None, true, true, 0, 2, Idle, 2, 0, [Batch(0, 2, [[65]])])
  const LINE_DROPPED: Queue := Queue([65, 10], 2, Some(2), true, true, 0, 0, Truncated, 2, 2, [Batch(0, 2, [[65]])])

  lemma LineIsRead()
    ensures Apply(Apply(Apply(EMPTY, Open(true)), Append([65], 2)), Pending(1)) == LINE_READ
  {
    hide Read, Lines;
    var f: seq<byte> := [65, 10];
    ReadOne();
    var s1 := EMPTY.(hasDir := true, isOpen := true);
    assert Stored([65]) == f && f[..2] == f && f[0..] == f;
    assert Apply(EMPTY, Open(true)) == s1;
    assert s1.log + f == f;
    assert Apply(s1, Append([65], 2)) == s1.(log := f);
  }

  lemma LineIsDropped()
    ensures Apply(Apply(Apply(LINE_READ, Mark), Save(true)), Compact(true)) == LINE_DROPPED
  {
    hide Read, Lines;
    var f: seq<byte> := [65, 10];
    assert f[0..] == f;
    var s4 := LINE_READ.(cursor := 2, pendingEnd := 0, phase := Marked, acked := 2);
    assert Apply(LINE_READ, Mark) == s4;
    assert Apply(s4, Save(true)) == s4.(cursorFile := Some(2), phase := Saved);
  }

  lemma CrashForgets(q: Queue)
    ensures Apply(q, Crash) == q.(hasDir := false, isOpen := false, cursor := 0, pendingEnd := 0, phase := Idle)
  {
  }

  lemma FirstLifeLeaves()
    ensures Run(EMPTY, FirstLife()) ==
              Queue([65, 10], 2, Some(2), false, false, 0, 0, Idle, 2, 2, [Batch(0, 2, [[65]])])
  {
    hide Run, Apply;
    LineIsRead();
    LineIsDropped();
    CrashForgets(LINE_DROPPED);
    var a := FirstLife();
    RunFive(EMPTY, a[0], a[1], a[2], a[3], a[4]);
    RunTwo(EMPTY, a[..5], a[5], a[6]);
    assert a[..5] == [a[0], a[1], a[2], a[3], a[4]] && a == a[..5] + [a[5], a[6]];
  }

  lemma SecondOpenSkips()
    ensures var q := Run(Run(EMPTY, FirstLife()), SecondLife());
            && q.isOpen && q.log == [65, 10, 66, 10]
            && q.cursor == |File(q)| == 2 && q.acked == q.returned == 2 && !NoSkip(q)
  {
    hide Lines, Read, Run;
    FirstLifeLeaves();
    var s0 := Run(EMPTY, FirstLife());
    var s1 := s0.(hasDir := true, isOpen := true);
    assert File(s0) == [] && Apply(s0, Open(true)) == s1;
    var s2 := s1.(log := [65, 10, 66, 10]);
    assert Stored([66])[..2] == [66, 10];
    assert s1.log + [66, 10] == s2.log;
    assert Apply(s1, Append([66], 2)) == s2;
    assert File(s2) == [66, 10];
    assert Apply(Apply(s2, Crash), Open(true)) == s2.(cursor := 2);
    var a := SecondLife();
    RunNone(s0);
    RunTwo(s0, [], a[0], a[1]);
    RunTwo(s0, a[..2], a[2], a[3]);
    assert a[..2] == [] + [a[0], a[1]] && a == a[..2] + [a[2], a[3]];
  }

  lemma RunNone(q: Queue)
    ensures Run(q, []) == q
  {
  }

  lemma RunTwo(q: Queue, p: seq<Step>, a: Step, b: Step)
    ensures Run(q, p + [a, b]) == Apply(Apply(Run(q, p), a), b)
  {
    hide Apply;
    var r := p + [a, b];
    assert r[..|r| - 1] == p + [a] && (p + [a])[..|p|] == p;
  }

  lemma RunFive(q: Queue, a: Step, b: Step, c: Step, d: Step, e: Step)
    ensures Run(q, [a, b, c, d, e]) == Apply(Apply(Apply(Apply(Apply(q, a), b), c), d), e)
  {
    hide Apply;
    RunNone(q);
    RunTwo(q, [], a, b);
    assert [] + [a, b] == [a, b];
    RunTwo(q, [a, b], c, d);
    assert [a, b] + [c, d] == [a, b, c, d];
    assert [a, b, c, d, e][..4] == [a, b, c, d];
  }

  // ---- lines ----

  // Appends store all of a line or nothing.
  ghost predicate WholeAppends(steps: seq<Step>) {
    forall i :: 0 <= i < |steps| && steps[i].Append? ==> steps[i].kept == 0 || steps[i].kept == |Stored(steps[i].line)|
  }

  // Everything the queue remembers sits on a line boundary.
  ghost predicate OnBoundaries(q: Queue) {
    && Boundary(q.log, q.base) && Boundary(q.log, |q.log|)
    && (q.isOpen || !q.phase.Idle? ==> Boundary(q.log, q.base + q.cursor))
    && (q.pendingEnd > 0 ==> Boundary(q.log, q.base + q.pendingEnd))
    && (q.cursorFile.Some? && !q.phase.Truncated? ==> Boundary(q.log, q.base + q.cursorFile.value))
    && (forall i :: 0 <= i < |q.batches| ==> Boundary(q.log, q.batches[i].from) && Boundary(q.log, q.batches[i].to))
  }

  lemma BoundaryAppend(log: seq<byte>, line: seq<byte>)
    ensures forall i :: Boundary(log, i) ==> Boundary(log + Stored(line), i)
    ensures Boundary(log + Stored(line), |log + Stored(line)|)
  {
    var more := log + Stored(line);
    assert more[|more| - 1] == NEWLINE;
  }

  lemma CursorInside(q: Queue)
    requires NoSkip(q) && q.isOpen
    ensures q.cursor <= |File(q)|
  {
  }

  // The file ends where the log ends.
  lemma EndsOnBoundary(q: Queue)
    requires q.base <= |q.log|
    ensures q.base + |File(q)| == |q.log|
  {
  }

  lemma PendingBoundary(q: Queue, max: nat)
    requires Safe(q) && OnBoundaries(q)
    ensures OnBoundaries(Apply(q, Pending(max)))
  {
    hide Lines, Read, NulFree, Covered, NoSkip, Boundary;
    if q.isOpen && q.phase.Idle? && max != 0 {
      CursorInside(q);
      PendingStretch(q, max);
      EndsOnBoundary(q);
    }
  }

  lemma StepBoundary(q: Queue, s: Step)
    requires Safe(q) && OnBoundaries(q) && !Tears(q, s)
    requires s.Append? ==> s.kept == 0 || s.kept == |Stored(s.line)|
    ensures OnBoundaries(Apply(q, s))
  {
    hide Read, NulFree, Covered, Boundary, Stored, Stale, Lines;
    match s {
      case Pending(max) => PendingBoundary(q, max);
      case Append(line, kept) => AppendBoundary(q, line, kept);
      case Open(_) =>
      case Close =>
      case Mark =>
      case Save(_) =>
      case Compact(_) =>
      case Crash =>
    }
  }

  lemma AppendBoundary(q: Queue, line: seq<byte>, kept: nat)
    requires OnBoundaries(q) && (kept == 0 || kept == |Stored(line)|)
    ensures OnBoundaries(Apply(q, Append(line, kept)))
  {
    hide Boundary, Stored;
    BoundaryAppend(q.log, line);
    assert Stored(line)[..|Stored(line)|] == Stored(line);
    assert q.log + [] == q.log;
  }

  // Without torn writes the cursor, in memory and on disk, is always on a line boundary.
  lemma {:induction false} CursorOnBoundary(steps: seq<Step>)
    requires NeverTears(EMPTY, steps) && NulFreeSteps(steps) && WholeAppends(steps)
    ensures Safe(Run(EMPTY, steps)) && OnBoundaries(Run(EMPTY, steps))
  {
    hide Safe, OnBoundaries, Apply, Tears, Stored;
    AtomicCompactionSafe(steps);
    if steps == [] {
      EmptyBoundaries();
    } else {
      var p := steps[..|steps| - 1];
      assert forall i :: 0 <= i < |p| ==> p[..i] == steps[..i] && p[i] == steps[i];
      assert steps[..|p|] == p;
      CursorOnBoundary(p);
      StepBoundary(Run(EMPTY, p), steps[|p|]);
    }
  }

  lemma EmptyBoundaries()
    ensures OnBoundaries(EMPTY)
  {
  }

  // A stretch between boundaries that holds the end of a line holds all of it.
  lemma WholeLineInside(log: seq<byte>, from: nat, to: nat, at: nat, end: nat)
    requires Boundary(log, from) && Boundary(log, to) && from < end <= to && at < end <= |log|
    requires forall j :: at <= j < end - 1 ==> log[j] != NEWLINE
    ensures from <= at
  {
    assert 0 < from ==> log[from - 1] == NEWLINE;
  }

  lemma InThree(log: seq<byte>, from: nat, at: nat, end: nat, to: nat)
    requires from <= at <= end <= to <= |log|
    ensures log[from..to] == log[from..at] + (log[at..end] + log[end..to])
    ensures from < at ==> log[from..at][at - from - 1] == log[at - 1]
  {
  }

  lemma LinesContain(log: seq<byte>, from: nat, to: nat, at: nat, line: seq<byte>)
    requires from <= at && at + |line| + 1 <= to <= |log| && Boundary(log, at)
    requires line != [] && NEWLINE !in line
    requires log[at..at + |line| + 1] == line + [NEWLINE]
    ensures line in Lines(log[from..to])
  {
    hide Lines, Chomp, LineEnd;
    var end := at + |line| + 1;
    var before, piece, after := log[from..at], line + [NEWLINE], log[end..to];
    InThree(log, from, at, end, to);
    LinesJoin(before, piece + after);
    LinesJoin(piece, after);
    LinesOne(line);
  }

  // An acknowledged line was returned, whole, by some pending().
  lemma AckedLineWasReturned(q: Queue, at: nat, line: seq<byte>)
    requires Safe(q) && OnBoundaries(q)
    requires line != [] && NEWLINE !in line
    requires Boundary(q.log, at) && at + |line| + 1 <= q.acked
    requires q.log[at..at + |line| + 1] == line + [NEWLINE]
    ensures exists i :: 0 <= i < |q.batches| && line in q.batches[i].lines
  {
    hide Lines, NulFree, Boundary, NoSkip;
    var end := at + |line| + 1;
    assert InBatch(q.batches, end - 1);
    var i :| 0 <= i < |q.batches| && q.batches[i].from <= end - 1 < q.batches[i].to;
    var b := q.batches[i];
    NoNewline(q.log, at, line);
    WholeLineInside(q.log, b.from, b.to, at, end);
    LinesContain(q.log, b.from, b.to, at, line);
  }

  lemma NoNewline(log: seq<byte>, at: nat, line: seq<byte>)
    requires at + |line| + 1 <= |log| && NEWLINE !in line
    requires log[at..at + |line| + 1] == line + [NEWLINE]
    ensures forall j :: at <= j < at + |line| ==> log[j] != NEWLINE
  {
    forall j | at <= j < at + |line| ensures log[j] != NEWLINE {
      assert log[j] == log[at..at + |line| + 1][j - at] == line[j - at];
    }
  }
}
