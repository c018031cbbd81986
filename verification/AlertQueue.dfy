/** The alert queue object: two files and two offsets, changed step by step. */
module AlertQueue {
  import opened Machine
  import opened AlertLines
  import opened AlertProtocol

  // One line more, read behind the lines out already.
  lemma ReadStep(f: seq<byte>, i: nat, pos: nat, left: nat, out: seq<seq<byte>>)
    requires i < |f| && 0 < left
    ensures
      var str := f[i..LineEnd(f, i)][..StrLen(f[i..LineEnd(f, i)])];
      var line := NonEmpty(Chomp(str));
      var (r, rest) := (Read(f, i, pos, left), Read(f, LineEnd(f, i), pos + |str|, left - |line|));
      out + r.0 == (out + line) + rest.0 && r.2 == rest.2
  {
    hide LineEnd, StrLen, Chomp;
  }

  lemma ReadEnd(f: seq<byte>, i: nat, pos: nat, left: nat, out: seq<seq<byte>>)
    requires i <= |f| && (left == 0 || i == |f|)
    ensures out + Read(f, i, pos, left).0 == out && Read(f, i, pos, left).2 == pos
  {
  }

  // Read line by line from an offset on, until max non-empty lines are out.
  method ReadOn(f: seq<byte>, start: nat, max: nat) returns (lines: seq<seq<byte>>, pos: nat)
    requires start <= |f|
    ensures (lines, pos) == (Read(f, start, start, max).0, Read(f, start, start, max).2)
  {
    hide LineEnd, StrLen, Chomp, Read;
    lines, pos := [], start;
    var i: nat := start;
    ghost var all := Read(f, start, start, max);
    assert [] + all.0 == all.0;
    while |lines| < max && i < |f|
      invariant i <= |f| && |lines| <= max
      invariant var r := Read(f, i, pos, max - |lines|); all.0 == lines + r.0 && all.2 == r.2
      decreases |f| - i
    {
      ReadStep(f, i, pos, max - |lines|, lines);
      var e := LineEnd(f, i);
      var str := f[i..e][..StrLen(f[i..e])];
      lines := lines + NonEmpty(Chomp(str));
      pos := pos + |str|;
      i := e;
    }
    ReadEnd(f, i, pos, max - |lines|, lines);
  }

  // Acknowledging and the first save of the cursor.
  lemma MarkedIs(q: Queue, saves: bool)
    ensures q.hasDir && q.phase.Idle? && q.cursor <= q.pendingEnd ==>
      Apply(Apply(q, Step.Mark), Step.Save(saves)) ==
        q.(cursor := q.pendingEnd, pendingEnd := 0, phase := Saved, acked := Max(q.acked, q.base + q.pendingEnd),
           cursorFile := if saves then Some(q.pendingEnd) else q.cursorFile)
  {
    hide Read;
  }

  // Without anything to acknowledge nothing changes.
  lemma IdleStays(q: Queue, saves: bool, truncates: bool, savesAgain: bool)
    requires q.phase.Idle? && q.pendingEnd < q.cursor
    ensures
      var r := Apply(Apply(q, Step.Mark), Step.Save(saves));
      Apply(Apply(r, Step.Compact(truncates)), Step.Save(savesAgain)) == q
  {
    hide Read;
  }

  // After compaction and the save that may follow it no step is under way.
  lemma EndsIdle(q: Queue, truncates: bool, saves: bool)
    requires q.phase.Saved?
    ensures Apply(Apply(q, Step.Compact(truncates)), Step.Save(saves)).phase == Idle
  {
    hide Read;
  }

  // Outcomes of I/O calls are parameters: whether a rename or truncation succeeds,
  // and how many bytes of a write reach the file.
  class AlertQueue {
    // On disk.
    var file: seq<byte>
    var cursorFile: Option<nat>
    // In memory.
    var hasDir: bool
    var isOpen: bool
    var cursor: nat
    var pendingEnd: nat

    ghost var log: seq<byte>
    ghost var base: nat
    ghost var returned: nat
    ghost var acked: nat
    ghost var batches: seq<Batch>

    ghost function Abs(): Queue
      reads this
    {
      Queue(log, base, cursorFile, hasDir, isOpen, cursor, pendingEnd, Idle, returned, acked, batches)
    }

    ghost predicate Valid()
      reads this
    {
      base <= |log| && file == log[base..]
    }

    constructor ()
      ensures Valid() && Abs() == EMPTY
    {
      file, cursorFile, hasDir, isOpen, cursor, pendingEnd := [], None, false, false, 0, 0;
      log, base, returned, acked, batches := [], 0, 0, 0, [];
    }

    // The files in the directory the object is told of now.
    method Open(opens: bool) returns (ok: bool)
      requires Valid()
      modifies this`hasDir, this`isOpen, this`cursor
      ensures Valid() && Abs() == Apply(old(Abs()), Step.Open(opens)) && ok == opens
    {
      hasDir := true;
      cursor := if cursorFile.Some? then cursorFile.value else 0;
      isOpen := opens;
      if !opens {
        return false;
      }
      if |file| < cursor {
        cursor := 0;
      }
      ok := true;
    }

    method Close()
      requires Valid()
      modifies this`isOpen
      ensures Valid() && Abs() == Apply(old(Abs()), Step.Close)
    {
      isOpen := false;
    }

    // A process crash: memory is lost, the files stay.
    method Crash()
      requires Valid()
      modifies this`hasDir, this`isOpen, this`cursor, this`pendingEnd
      ensures Valid() && Abs() == Apply(old(Abs()), Step.Crash)
    {
      hasDir, isOpen, cursor, pendingEnd := false, false, 0, 0;
    }

    method Append(line: seq<byte>, kept: nat) returns (ok: bool)
      requires Valid() && line != [] && kept <= |Stored(line)|
      modifies this`file, this`log
      ensures Valid() && Abs() == Apply(old(Abs()), Step.Append(line, kept))
      ensures ok == (isOpen && kept == |Stored(line)|)
      ensures ok ==> file == old(file) + Stored(line)
    {
      if !isOpen {
        return false;
      }
      var full := if line[|line| - 1] == NEWLINE then line else line + [NEWLINE];
      assert full[..|full|] == full;
      file := file + full[..kept];
      log := log + full[..kept];
      ok := kept == |full|;
    }

    // Up to max lines from the cursor on, read line by line.
    method Pending(max: nat) returns (lines: seq<seq<byte>>)
      requires Valid()
      modifies this`pendingEnd, this`returned, this`batches
      ensures Valid() && Abs() == Apply(old(Abs()), Step.Pending(max))
      ensures isOpen && max != 0 && cursor <= |file| ==> lines == Read(file, cursor, cursor, max).0
      ensures !isOpen || max == 0 || cursor > |file| ==> lines == []
    {
      hide Read;
      lines := [];
      if !isOpen || max == 0 {
        return;
      }
      if cursor > |file| {
        pendingEnd := cursor;
        return;
      }
      var pos;
      lines, pos := ReadOn(file, cursor, max);
      pendingEnd := pos;
      batches := batches + [Batch(base + cursor, base + pos, lines)];
      returned := Max(returned, base + pos);
    }

    method SaveCursor(ok: bool)
      modifies this`cursorFile
      ensures cursorFile == if ok then Some(cursor) else old(cursorFile)
    {
      if ok {
        cursorFile := Some(cursor);
      }
    }

    // When everything is uploaded the file is emptied and the cursor goes back to 0.
    method CompactIfDrained(truncates: bool, saves: bool)
      requires Valid()
      modifies this`file, this`cursor, this`cursorFile, this`base
      ensures Valid()
      ensures
        var q := Apply(old(Abs()).(phase := Saved), Step.Compact(truncates));
        Abs() == Apply(q, Step.Save(saves)).(phase := Idle)
    {
      if isOpen && |file| == cursor && cursor > 0 {
        if truncates {
          file := [];
          base := |log|;
          cursor := 0;
          SaveCursor(saves);
        }
      }
    }

    // Acknowledge what the last pending() returned, whether the queue is open or not.
    method MarkUploaded(saves: bool, truncates: bool, savesAgain: bool) returns (ok: bool)
      requires Valid() && hasDir
      modifies this
      ensures Valid()
      ensures ok == (old(pendingEnd) >= old(cursor) && saves)
      ensures
        var q := Apply(Apply(Apply(old(Abs()), Step.Mark), Step.Save(saves)), Step.Compact(truncates));
        Abs() == Apply(q, Step.Save(savesAgain))
    {
      hide Read, Apply;
      MarkedIs(Abs(), saves);
      if pendingEnd < cursor {
        IdleStays(Abs(), saves, truncates, savesAgain);
        return false;
      }
      acked := Max(acked, base + pendingEnd);
      cursor := pendingEnd;
      pendingEnd := 0;
      SaveCursor(saves);
      EndsIdle(Abs().(phase := Saved), truncates, savesAgain);
      CompactIfDrained(truncates, savesAgain);
      ok := saves;
    }
  }

  lemma ShortLine(str: seq<byte>)
    ensures |NonEmpty(Chomp(str))| <= 1
  {
  }

  // While there is a non-empty file past the cursor, pending() moves on.
  lemma {:induction false} PendingAdvances(f: seq<byte>, i: nat, pos: nat, max: nat)
    requires i < |f| && 0 < max && NulFree(f)
    ensures pos < Read(f, i, pos, max).2
  {
    hide LineEnd, StrLen, Chomp, NonEmpty;
    var e := LineEnd(f, i);
    NulFreeStr(f[i..e]);
    var str := f[i..e][..StrLen(f[i..e])];
    assert |NonEmpty(Chomp(str))| <= max by {
      ShortLine(str);
    }
    ReadPosition(f, e, pos + |str|, max - |NonEmpty(Chomp(str))|);
  }
}
