/** Lines of the alert file: what reading with a line buffer yields, and what it means. */
module AlertLines {
  import opened Machine

  const NEWLINE: byte := 10
  const NUL: byte := 0

  // End of the line that begins at i, its newline included.
  function LineEnd(f: seq<byte>, i: nat): (e: nat)
    requires i < |f|
    ensures i < e <= |f|
    ensures f[e - 1] == NEWLINE || e == |f|
    ensures forall j :: i <= j < e - 1 ==> f[j] != NEWLINE
    decreases |f| - i
  {
    if f[i] == NEWLINE || i + 1 == |f| then i + 1 else LineEnd(f, i + 1)
  }

  // Length of the C string in a buffer.
  function StrLen(b: seq<byte>): (n: nat)
    ensures n <= |b|
    ensures n < |b| ==> b[n] == NUL
    ensures forall j :: 0 <= j < n ==> b[j] != NUL
  {
    if b == [] || b[0] == NUL then 0 else 1 + StrLen(b[1..])
  }

  function Chomp(b: seq<byte>): seq<byte> {
    if b != [] && b[|b| - 1] == NEWLINE then b[..|b| - 1] else b
  }

  function NonEmpty(line: seq<byte>): seq<seq<byte>> {
    if line == [] then [] else [line]
  }

  // The non-empty lines of a stretch of the file.
  function Lines(b: seq<byte>): seq<seq<byte>>
    decreases |b|
  {
    if b == [] then []
    else NonEmpty(Chomp(b[..LineEnd(b, 0)])) + Lines(b[LineEnd(b, 0)..])
  }

  // Reading on from i until max lines are out: the lines, where the file is now,
  // and the cursor moved by the string length of each line.
  function Read(f: seq<byte>, i: nat, pos: nat, max: nat): (r: (seq<seq<byte>>, nat, nat))
    requires i <= |f|
    ensures i <= r.1 <= |f|
    decreases |f| - i
  {
    if max == 0 || i == |f| then ([], i, pos)
    else
      var e := LineEnd(f, i);
      var str := f[i..e][..StrLen(f[i..e])];
      var line := NonEmpty(Chomp(str));
      var (lines, i1, pos1) := Read(f, e, pos + |str|, max - |line|);
      (line + lines, i1, pos1)
  }

  predicate Boundary(f: seq<byte>, i: nat) {
    i == 0 || (i <= |f| && f[i - 1] == NEWLINE)
  }

  predicate NulFree(f: seq<byte>) {
    NUL !in f
  }

  lemma NulFreeStr(b: seq<byte>)
    ensures NulFree(b) <==> StrLen(b) == |b|
  {
  }

  lemma NulFreeNone(f: seq<byte>, i: nat)
    requires i <= |f|
    ensures NulFree(f[i..i])
  {
  }

  lemma NulFreeJoin(f: seq<byte>, i: nat, e: nat, j: nat)
    requires i <= e <= j <= |f|
    ensures NulFree(f[i..j]) <==> NulFree(f[i..e]) && NulFree(f[e..j])
  {
    assert f[i..j] == f[i..e] + f[e..j];
  }

  // The cursor follows the file exactly when no line read holds a NUL.
  lemma {:induction false} ReadPosition(f: seq<byte>, i: nat, pos: nat, max: nat)
    requires i <= |f|
    ensures var (_, i1, pos1) := Read(f, i, pos, max);
            pos <= pos1 <= pos + (i1 - i) && (pos1 - pos == i1 - i <==> NulFree(f[i..i1]))
    decreases |f| - i
  {
    hide NulFree, StrLen, Chomp, LineEnd;
    if max == 0 || i == |f| {
      NulFreeNone(f, i);
    } else {
      var e := LineEnd(f, i);
      var str := f[i..e][..StrLen(f[i..e])];
      var m := max - |NonEmpty(Chomp(str))|;
      ReadPosition(f, e, pos + |str|, m);
      NulFreeStr(f[i..e]);
      NulFreeJoin(f, i, e, Read(f, e, pos + |str|, m).1);
    }
  }

  // Reading from a position of a file without NULs: the lines up to where the cursor then is.
  lemma ReadStretch(f: seq<byte>, from: nat, max: nat)
    requires from <= |f| && NulFree(f)
    ensures var (lines, _, pos) := Read(f, from, from, max);
            && from <= pos <= |f| && lines == Lines(f[from..pos]) && |lines| <= max
            && (pos == from || pos == |f| || Boundary(f, pos))
  {
    hide Read, Lines, NulFree, Boundary;
    var (_, i1, _) := Read(f, from, from, max);
    ReadPosition(f, from, from, max);
    ReadLines(f, from, from, max);
    NulFreePart(f, from, i1);
  }

  lemma NulFreePart(f: seq<byte>, i: nat, j: nat)
    requires i <= j <= |f| && NulFree(f)
    ensures NulFree(f[i..j])
  {
  }

  // Without NULs the lines read are those of the stretch read, and the read ends on a
  // line boundary or at the end of the file.
  lemma {:induction false} ReadLines(f: seq<byte>, i: nat, pos: nat, max: nat)
    requires i <= |f| && NulFree(f)
    ensures var (lines, i1, _) := Read(f, i, pos, max);
            && lines == Lines(f[i..i1]) && |lines| <= max
            && (i1 == i || i1 == |f| || Boundary(f, i1))
            && (|lines| < max ==> i1 == |f|)
    decreases |f| - i
  {
    hide NulFree, StrLen, Chomp, LineEnd, Lines;
    if max == 0 || i == |f| {
      LinesNone(f, i);
    } else {
      var e := LineEnd(f, i);
      NulFreeStr(f[i..e]);
      NulFreeJoin(f, 0, i, |f|);
      NulFreeJoin(f, i, e, |f|);
      WholeSlice(f, i, e);
      var m := max - |NonEmpty(Chomp(f[i..e]))|;
      ReadLines(f, e, pos + (e - i), m);
      LinesCons(f, i, Read(f, e, pos + (e - i), m).1);
    }
  }

  lemma WholeSlice(f: seq<byte>, i: nat, e: nat)
    requires i <= e <= |f|
    ensures f[i..e][..e - i] == f[i..e] && f[0..|f|] == f && f[i..|f|] == f[i..]
  {
  }

  lemma LinesNone(f: seq<byte>, i: nat)
    requires i <= |f|
    ensures Lines(f[i..i]) == []
  {
  }

  lemma CutInside(f: seq<byte>, i: nat, e: nat, j: nat)
    requires i <= e <= j <= |f|
    ensures f[i..j][..e - i] == f[i..e] && f[i..j][e - i..] == f[e..j]
  {
  }

  lemma LinesCons(f: seq<byte>, i: nat, j: nat)
    requires i < |f| && LineEnd(f, i) <= j <= |f|
    ensures Lines(f[i..j]) == NonEmpty(Chomp(f[i..LineEnd(f, i)])) + Lines(f[LineEnd(f, i)..j])
  {
    hide LineEnd, Chomp, NonEmpty;
    LineEndLocal(f, i, j);
    CutInside(f, i, LineEnd(f, i), j);
  }

  lemma {:induction false} LineEndUnique(f: seq<byte>, i: nat, e: nat)
    requires i < e <= |f| && (f[e - 1] == NEWLINE || e == |f|)
    requires forall j :: i <= j < e - 1 ==> f[j] != NEWLINE
    ensures LineEnd(f, i) == e
  {
    var d := LineEnd(f, i);
    assert d < e ==> d < |f|;
    assert e < d ==> e < |f|;
  }

  lemma LineEndLocal(f: seq<byte>, i: nat, i1: nat)
    requires i < |f| && LineEnd(f, i) <= i1 <= |f|
    ensures LineEnd(f[i..i1], 0) == LineEnd(f, i) - i
  {
    var b, e := f[i..i1], LineEnd(f, i);
    assert b[e - i - 1] == f[e - 1];
    assert forall j :: 0 <= j < e - i - 1 ==> b[j] == f[i + j];
    LineEndUnique(b, 0, e - i);
  }

  // Appending whole lines after a boundary keeps the lines before it.
  lemma {:induction false} LinesJoin(a: seq<byte>, b: seq<byte>)
    requires a == [] || a[|a| - 1] == NEWLINE
    ensures Lines(a + b) == Lines(a) + Lines(b)
    decreases |a|
  {
    hide LineEnd, Chomp, NonEmpty, Lines;
    if a == [] {
      assert a + b == b;
      NoLines();
    } else {
      var e := LineEnd(a, 0);
      LineEndBefore(a, b);
      CutBefore(a, b, e);
      LinesJoin(a[e..], b);
      LinesFirst(a);
      LinesFirst(a + b);
      var first := NonEmpty(Chomp(a[..e]));
      assert first + (Lines(a[e..]) + Lines(b)) == (first + Lines(a[e..])) + Lines(b);
    }
  }

  lemma NoLines()
    ensures Lines([]) == []
  {
  }

  lemma LinesFirst(s: seq<byte>)
    requires s != []
    ensures Lines(s) == NonEmpty(Chomp(s[..LineEnd(s, 0)])) + Lines(s[LineEnd(s, 0)..])
  {
    hide LineEnd, Chomp, NonEmpty;
  }

  lemma LineEndBefore(a: seq<byte>, b: seq<byte>)
    requires a != [] && a[|a| - 1] == NEWLINE
    ensures LineEnd(a + b, 0) == LineEnd(a, 0)
  {
    var e, s := LineEnd(a, 0), a + b;
    hide LineEnd;
    assert forall j :: 0 <= j < |a| ==> s[j] == a[j];
    LineEndUnique(s, 0, e);
  }

  lemma CutBefore(a: seq<byte>, b: seq<byte>, e: nat)
    requires e <= |a|
    ensures (a + b)[..e] == a[..e] && (a + b)[e..] == a[e..] + b
    ensures a[e..] != [] ==> a[e..][|a[e..]| - 1] == a[|a| - 1]
  {
  }

  // A single line without newline or NUL comes back as itself.
  lemma LinesOne(line: seq<byte>)
    requires line != [] && NEWLINE !in line
    ensures Lines(line + [NEWLINE]) == [line]
  {
    var b := line + [NEWLINE];
    LineEndUnique(b, 0, |b|);
    assert b[..|b|] == b && b[|b|..] == [];
    assert Chomp(b) == line;
  }
}
