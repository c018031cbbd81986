/** Without crashes the alert queue is a first-in first-out queue: every line is acknowledged once, in order. */
module AlertFifo {
  import opened Machine
  import opened AlertLines
  import opened AlertProtocol

  // ---- lines of a text

  predicate IsLine(line: seq<byte>) {
    NEWLINE !in line && NUL !in line
  }

  function Text(lines: seq<seq<byte>>): seq<byte> {
    if lines == [] then [] else lines[0] + [NEWLINE] + Text(lines[1..])
  }

  function WithoutEmpty(lines: seq<seq<byte>>): seq<seq<byte>> {
    if lines == [] then [] else NonEmpty(lines[0]) + WithoutEmpty(lines[1..])
  }

  // One line and its newline.
  lemma OneLineRead(line: seq<byte>)
    requires NEWLINE !in line
    ensures Lines(line + [NEWLINE]) == if line == [] then [] else [line]
  {
    hide LineEnd;
    var s := line + [NEWLINE];
    LineEndUnique(s, 0, |s|);
    assert s[..|s|] == s && s[|s|..] == [] && s[..|s| - 1] == line;
  }

  // The lines of a text are its lines that are not empty, in order.
  lemma {:induction false} LinesOfText(lines: seq<seq<byte>>)
    requires forall i :: 0 <= i < |lines| ==> NEWLINE !in lines[i]
    ensures Lines(Text(lines)) == WithoutEmpty(lines)
  {
    hide Lines;
    if lines == [] {
      NoLines();
    } else {
      OneLineRead(lines[0]);
      LinesJoin(lines[0] + [NEWLINE], Text(lines[1..]));
      LinesOfText(lines[1..]);
    }
  }

  // ---- the queue as its callers see it

  // The lines not acknowledged yet, and how many of them the last fetch returned.
  datatype Fifo = Fifo(waiting: seq<seq<byte>>, fetched: nat)

  datatype Op =
    | Put(line: seq<byte>, ended: bool)   // with or without a newline of its own
    | Fetch(max: nat)
    | Confirm(saves: bool, truncates: bool, savesAgain: bool)

  predicate ValidOp(op: Op) {
    op.Put? ==> op.line != [] && IsLine(op.line)
  }

  // The steps of the queue that an operation takes.
  function Steps(op: Op): seq<Step> {
    match op
    case Put(line, ended) => [Step.Append(if ended then line + [NEWLINE] else line, |line| + 1)]
    case Fetch(max) => [Step.Pending(max)]
    case Confirm(saves, truncates, savesAgain) =>
      [Step.Mark, Step.Save(saves), Step.Compact(truncates), Step.Save(savesAgain)]
  }

  function Next(a: Fifo, op: Op): (Fifo, seq<seq<byte>>)
    requires a.fetched <= |a.waiting|
  {
    match op
    case Put(line, _) => (a.(waiting := a.waiting + [line]), [])
    case Fetch(max) => (if max == 0 then a else a.(fetched := Min(max, |a.waiting|)), [])
    case Confirm(_, _, _) => (Fifo(a.waiting[a.fetched..], 0), a.waiting[..a.fetched])
  }

  // A file and two offsets stand for the list: nothing is torn or lost.
  predicate Stands(f: seq<byte>, cursor: nat, pendingEnd: nat, a: Fifo) {
    && NulFree(f) && Boundary(f, |f|) && cursor <= |f| && Boundary(f, cursor) && a.waiting == Lines(f[cursor..])
    && a.fetched <= |a.waiting|
    && (if pendingEnd < cursor then a.fetched == 0
        else pendingEnd <= |f| && Boundary(f, pendingEnd) && a.waiting[..a.fetched] == Lines(f[cursor..pendingEnd]))
  }

  // Between two operations.
  predicate Ready(q: Queue) {
    q.hasDir && q.isOpen && q.phase.Idle? && q.base <= |q.log|
  }

  predicate IsFifo(q: Queue, a: Fifo) {
    Ready(q) && Stands(File(q), q.cursor, q.pendingEnd, a)
  }

  // Lines on both sides of a boundary.
  lemma LinesSplit(f: seq<byte>, i: nat, j: nat)
    requires i <= j <= |f| && Boundary(f, j)
    ensures Lines(f[i..]) == Lines(f[i..j]) + Lines(f[j..])
  {
    hide Lines;
    if i == j {
      assert f[i..j] == [];
      NoLines();
    } else {
      assert f[i..] == f[i..j] + f[j..];
      LinesJoin(f[i..j], f[j..]);
    }
  }

  lemma PutStands(f: seq<byte>, cursor: nat, pendingEnd: nat, a: Fifo, line: seq<byte>)
    requires Stands(f, cursor, pendingEnd, a) && line != [] && IsLine(line)
    ensures Stands(f + (line + [NEWLINE]), cursor, pendingEnd, a.(waiting := a.waiting + [line]))
  {
    hide Lines, NulFree;
    var g := f + (line + [NEWLINE]);
    NulFreeGrows(f, line);
    OneLineRead(line);
    LinesSplit(g, cursor, |f|);
    assert g[cursor..|f|] == f[cursor..] && g[|f|..] == line + [NEWLINE];
    if cursor <= pendingEnd {
      assert g[cursor..pendingEnd] == f[cursor..pendingEnd];
    }
  }

  lemma PutIs(q: Queue, line: seq<byte>, ended: bool)
    requires Ready(q)
    ensures
      var r := Run(q, Steps(Put(line, ended)));
      && Ready(r) && r.cursor == q.cursor && r.pendingEnd == q.pendingEnd
      && (NEWLINE !in line && line != [] ==> File(r) == File(q) + (line + [NEWLINE]))
  {
    hide Read;
    var text := if ended then line + [NEWLINE] else line;
    RunOne(q, Step.Append(text, |line| + 1));
    if NEWLINE !in line && line != [] {
      assert Stored(text) == line + [NEWLINE];
      assert Stored(text)[..|line| + 1] == Stored(text);
      Grows(q.log, q.base, Stored(text));
    }
  }

  lemma Grows(log: seq<byte>, base: nat, more: seq<byte>)
    requires base <= |log|
    ensures (log + more)[base..] == log[base..] + more
  {
  }

  lemma NulFreeGrows(f: seq<byte>, line: seq<byte>)
    requires NulFree(f) && IsLine(line)
    ensures NulFree(f + (line + [NEWLINE]))
  {
  }

  lemma FetchStands(f: seq<byte>, cursor: nat, pendingEnd: nat, a: Fifo, max: nat)
    requires Stands(f, cursor, pendingEnd, a) && 0 < max
    ensures
      var (lines, _, pos) := Read(f, cursor, cursor, max);
      && lines == a.waiting[..Min(max, |a.waiting|)]
      && Stands(f, cursor, pos, a.(fetched := |lines|))
  {
    hide Lines, Read, NulFree;
    var (lines, i1, pos) := Read(f, cursor, cursor, max);
    ReadPosition(f, cursor, cursor, max);
    ReadLines(f, cursor, cursor, max);
    NulFreePart(f, cursor, i1);
    LinesSplit(f, cursor, pos);
    if pos == |f| {
      assert f[pos..] == [];
      NoLines();
    }
  }

  lemma FetchIs(q: Queue, max: nat)
    requires Ready(q) && q.cursor <= |File(q)|
    ensures
      var r := Run(q, Steps(Fetch(max)));
      && Ready(r) && r.cursor == q.cursor && File(r) == File(q)
      && (if max == 0 then r == q
          else
            var (lines, _, pos) := Read(File(q), q.cursor, q.cursor, max);
            && r.pendingEnd == pos && |r.batches| == |q.batches| + 1 && r.batches[|q.batches|].lines == lines)
  {
    hide Read;
    RunOne(q, Step.Pending(max));
  }

  lemma ConfirmStands(f: seq<byte>, cursor: nat, pendingEnd: nat, a: Fifo)
    requires Stands(f, cursor, pendingEnd, a)
    ensures cursor <= pendingEnd ==> Stands(f, pendingEnd, 0, Fifo(a.waiting[a.fetched..], 0))
    ensures cursor <= pendingEnd == |f| ==> Stands([], 0, 0, Fifo(a.waiting[a.fetched..], 0))
  {
    hide Lines, NulFree;
    NoLines();
    NulFreeNone(f, 0);
    assert f[0..0] == [];
    if cursor <= pendingEnd {
      LinesSplit(f, cursor, pendingEnd);
      if pendingEnd == |f| {
        assert f[pendingEnd..] == [];
      }
    }
  }

  lemma ConfirmIs(q: Queue, saves: bool, truncates: bool, savesAgain: bool)
    requires Ready(q)
    ensures
      var r := Run(q, Steps(Confirm(saves, truncates, savesAgain)));
      && Ready(r)
      && (if q.pendingEnd < q.cursor then r == q
          else
            && r.pendingEnd == 0
            && (File(r), r.cursor) ==
                 if truncates && q.pendingEnd == |File(q)| > 0 then ([], 0) else (File(q), q.pendingEnd))
  {
    hide Read, Apply;
    RunFour(q, Step.Mark, Step.Save(saves), Step.Compact(truncates), Step.Save(savesAgain));
    if q.pendingEnd < q.cursor {
      NothingToConfirm(q, saves, truncates, savesAgain);
    } else {
      Marks(q, saves);
      var r := q.(cursor := q.pendingEnd, pendingEnd := 0, acked := Max(q.acked, q.base + q.pendingEnd),
                  cursorFile := if saves then Some(q.pendingEnd) else q.cursorFile, phase := Saved);
      Compacts(r, truncates, savesAgain);
    }
  }

  lemma NothingToConfirm(q: Queue, saves: bool, truncates: bool, savesAgain: bool)
    requires Ready(q) && q.pendingEnd < q.cursor
    ensures
      var r := Apply(Apply(q, Step.Mark), Step.Save(saves));
      Apply(Apply(r, Step.Compact(truncates)), Step.Save(savesAgain)) == q
  {
    hide Read;
  }

  lemma Marks(q: Queue, saves: bool)
    requires Ready(q) && q.cursor <= q.pendingEnd
    ensures
      Apply(Apply(q, Step.Mark), Step.Save(saves)) ==
        q.(cursor := q.pendingEnd, pendingEnd := 0, acked := Max(q.acked, q.base + q.pendingEnd),
           cursorFile := if saves then Some(q.pendingEnd) else q.cursorFile, phase := Saved)
  {
    hide Read;
  }

  lemma Compacts(q: Queue, truncates: bool, saves: bool)
    requires q.phase.Saved? && q.hasDir && q.isOpen && q.base <= |q.log|
    ensures
      var r := Apply(Apply(q, Step.Compact(truncates)), Step.Save(saves));
      && Ready(r) && r.pendingEnd == q.pendingEnd
      && (File(r), r.cursor) == if truncates && |File(q)| == q.cursor > 0 then ([], 0) else (File(q), q.cursor)
  {
    hide Read;
    assert q.log[|q.log|..] == [];
  }

  // Every operation of the queue is the operation of the list, whatever the calls it makes
  // come to; what a fetch returns is the first lines waiting, at most as many as asked for.
  lemma OpIsFifo(q: Queue, a: Fifo, op: Op)
    requires IsFifo(q, a) && ValidOp(op)
    ensures
      var r := Run(q, Steps(op));
      && IsFifo(r, Next(a, op).0)
      && (op.Fetch? && 0 < op.max ==>
            |r.batches| == |q.batches| + 1 && r.batches[|q.batches|].lines == a.waiting[..Min(op.max, |a.waiting|)])
  {
    hide Run, Lines, Read, NulFree, Boundary;
    var f := File(q);
    match op {
      case Put(line, ended) =>
        PutIs(q, line, ended);
        PutStands(f, q.cursor, q.pendingEnd, a, line);
      case Fetch(max) =>
        FetchIs(q, max);
        if 0 < max {
          FetchStands(f, q.cursor, q.pendingEnd, a, max);
        }
      case Confirm(saves, truncates, savesAgain) =>
        ConfirmIs(q, saves, truncates, savesAgain);
        ConfirmStands(f, q.cursor, q.pendingEnd, a);
        assert a.waiting[0..] == a.waiting;
    }
  }

  // ---- runs

  function AllSteps(ops: seq<Op>): seq<Step> {
    if ops == [] then [] else AllSteps(ops[..|ops| - 1]) + Steps(ops[|ops| - 1])
  }

  // The lines put in by a run, in order.
  function LinesPut(ops: seq<Op>): seq<seq<byte>> {
    if ops == [] then []
    else
      var op := ops[|ops| - 1];
      LinesPut(ops[..|ops| - 1]) + if op.Put? then [op.line] else []
  }

  // The list after a run, and the lines confirmed so far, in order.
  function After(ops: seq<Op>): (r: (Fifo, seq<seq<byte>>))
    ensures r.0.fetched <= |r.0.waiting|
  {
    if ops == [] then (Fifo([], 0), [])
    else
      var (a, done) := After(ops[..|ops| - 1]);
      var (b, more) := Next(a, ops[|ops| - 1]);
      (b, done + more)
  }

  // The confirmed lines and then those waiting are the lines put in: none is lost, none comes
  // twice, and their order stays.
  lemma {:induction false} OnceInOrder(ops: seq<Op>)
    ensures var (a, done) := After(ops); done + a.waiting == LinesPut(ops)
  {
    if ops != [] {
      var p, op := ops[..|ops| - 1], ops[|ops| - 1];
      OnceInOrder(p);
      var (a, done) := After(p);
      if op.Put? {
        assert done + (a.waiting + [op.line]) == (done + a.waiting) + [op.line];
      } else {
        assert (done + a.waiting[..a.fetched]) + a.waiting[a.fetched..] == done + a.waiting;
      }
    }
  }

  lemma {:induction false} RunJoin(q: Queue, a: seq<Step>, b: seq<Step>)
    ensures Run(q, a + b) == Run(Run(q, a), b)
  {
    hide Apply;
    if b == [] {
      assert a + b == a;
    } else {
      var p := b[..|b| - 1];
      RunJoin(q, a, p);
      assert (a + b)[..|a + b| - 1] == a + p;
    }
  }

  // So the queue behaves as a list over every run without crashes, whatever saves and
  // truncations fail.
  lemma {:induction false} RunIsFifo(q: Queue, ops: seq<Op>)
    requires IsFifo(q, Fifo([], 0)) && forall i :: 0 <= i < |ops| ==> ValidOp(ops[i])
    ensures IsFifo(Run(q, AllSteps(ops)), After(ops).0)
    ensures var (a, done) := After(ops); done + a.waiting == LinesPut(ops)
  {
    hide Run, IsFifo, Next, Steps;
    OnceInOrder(ops);
    if ops == [] {
      RunNone(q);
    } else {
      var p := ops[..|ops| - 1];
      RunIsFifo(q, p);
      RunJoin(q, AllSteps(p), Steps(ops[|ops| - 1]));
      OpIsFifo(Run(q, AllSteps(p)), After(p).0, ops[|ops| - 1]);
    }
  }

  lemma NewIsFifo()
    ensures IsFifo(Apply(EMPTY, Open(true)), Fifo([], 0))
  {
    hide Lines;
    NoLines();
  }

  // A restart goes on at the cursor that was saved: with the lines acknowledged since then,
  // once more, and then those that were waiting.
  lemma RestartRepeats(q: Queue, a: Fifo)
    requires IsFifo(q, a)
    requires var c := LoadedCursor(q); c <= q.cursor && Boundary(File(q), c)
    ensures
      var r := Apply(Apply(q, Crash), Open(true));
      IsFifo(r, Fifo(Lines(File(q)[LoadedCursor(q)..q.cursor]) + a.waiting, 0))
  {
    hide Lines, NulFree, Read;
    var f, c := File(q), LoadedCursor(q);
    LinesSplit(f, c, q.cursor);
    assert f[0..0] == [];
    NoLines();
  }

  lemma RunOne(q: Queue, s: Step)
    ensures Run(q, [s]) == Apply(q, s)
  {
    RunNone(q);
    RunSnoc(q, [], s);
    assert [] + [s] == [s];
  }

  lemma RunFour(q: Queue, a: Step, b: Step, c: Step, d: Step)
    ensures Run(q, [a, b, c, d]) == Apply(Apply(Apply(Apply(q, a), b), c), d)
  {
    hide Apply;
    RunNone(q);
    RunTwo(q, [], a, b);
    assert [] + [a, b] == [a, b];
    RunTwo(q, [a, b], c, d);
    assert [a, b] + [c, d] == [a, b, c, d];
  }
}
