/** The probe socket: cutting one connection's bytes into event lines, read by read. */
module SocketLines {
  import opened Machine
  import opened AlertLines
  import opened Chunks

  const PENDING_MAX := 0x10_0000
  const READ_MAX := 4096

  // What follows the last newline.
  function Tail(s: seq<byte>): seq<byte> {
    if s == [] || s[|s| - 1] == NEWLINE then [] else Tail(s[..|s| - 1]) + [s[|s| - 1]]
  }

  lemma {:induction false} TailFacts(s: seq<byte>)
    ensures |Tail(s)| <= |s| && NEWLINE !in Tail(s)
    ensures var h := |s| - |Tail(s)|; Tail(s) == s[h..] && (0 < h ==> s[h - 1] == NEWLINE)
  {
    if s != [] && s[|s| - 1] != NEWLINE {
      var p := s[..|s| - 1];
      TailFacts(p);
      assert s[|p| - |Tail(p)|..] == p[|p| - |Tail(p)|..] + [s[|s| - 1]];
    }
  }

  lemma {:induction false} TailTail(s: seq<byte>, t: seq<byte>)
    ensures Tail(s + t) == Tail(Tail(s) + t)
    decreases |t|
  {
    if t == [] {
      assert s + t == s && Tail(s) + t == Tail(s);
      TailFacts(s);
      TailAlone(Tail(s));
    } else {
      var t1 := t[..|t| - 1];
      TailTail(s, t1);
      assert (s + t)[..|s + t| - 1] == s + t1;
      assert (Tail(s) + t)[..|Tail(s) + t| - 1] == Tail(s) + t1;
    }
  }

  lemma {:induction false} TailAlone(t: seq<byte>)
    requires NEWLINE !in t
    ensures Tail(t) == t
  {
    if t != [] {
      assert t == t[..|t| - 1] + [t[|t| - 1]];
      TailAlone(t[..|t| - 1]);
    }
  }

  lemma LinesAlone(t: seq<byte>)
    requires NEWLINE !in t
    ensures Lines(t) == NonEmpty(t)
  {
    if t != [] {
      LineEndUnique(t, 0, |t|);
      assert t[..|t|] == t && Lines(t[|t|..]) == [];
    }
  }

  // Where the first newline is.
  method FindNewline(s: seq<byte>) returns (pos: Option<nat>)
    ensures pos.Some? ==> pos.value < |s| && s[pos.value] == NEWLINE && NEWLINE !in s[..pos.value]
    ensures pos == None ==> NEWLINE !in s
  {
    for i := 0 to |s|
      invariant NEWLINE !in s[..i]
    {
      if s[i] == NEWLINE {
        return Some(i);
      }
    }
    pos := None;
  }

  // Taking the first line off.
  lemma LineOff(s: seq<byte>, pos: nat)
    requires pos < |s| && s[pos] == NEWLINE && NEWLINE !in s[..pos]
    ensures Lines(s) == NonEmpty(s[..pos]) + Lines(s[pos + 1..])
  {
    hide NonEmpty, LineEnd, Chomp;
    LineEndUnique(s, 0, pos + 1);
    ChompLine(s, pos);
  }

  lemma ChompLine(s: seq<byte>, pos: nat)
    requires pos < |s| && s[pos] == NEWLINE
    ensures Chomp(s[..pos + 1]) == s[..pos]
  {
  }

  lemma TailOff(s: seq<byte>, pos: nat)
    requires pos < |s| && s[pos] == NEWLINE
    ensures Tail(s) == Tail(s[pos + 1..])
  {
    var line, rest := s[..pos + 1], s[pos + 1..];
    assert s == line + rest;
    assert Tail(line) == [];
    TailTail(line, rest);
    assert [] + rest == rest;
  }

  // Take the finished lines off the front; empty ones are dropped.
  method TakeLines(bytes: seq<byte>) returns (lines: seq<seq<byte>>, rest: seq<byte>)
    ensures rest == Tail(bytes) && Lines(bytes) == lines + NonEmpty(rest)
  {
    hide Lines, Tail, NonEmpty;
    lines, rest := [], bytes;
    assert lines + Lines(rest) == Lines(bytes);
    var pos: Option<nat> := FindNewline(rest);
    while pos.Some?
      invariant Tail(rest) == Tail(bytes) && lines + Lines(rest) == Lines(bytes)
      invariant pos.Some? ==> pos.value < |rest| && rest[pos.value] == NEWLINE && NEWLINE !in rest[..pos.value]
      invariant pos == None ==> NEWLINE !in rest
      decreases |rest|, pos.Some?
    {
      var line := rest[..pos.value];
      LineOff(rest, pos.value);
      TailOff(rest, pos.value);
      rest := rest[pos.value + 1..];
      assert lines + (NonEmpty(line) + Lines(rest)) == (lines + NonEmpty(line)) + Lines(rest);
      lines := lines + NonEmpty(line);
      pos := FindNewline(rest);
    }
    TailAlone(rest);
    LinesAlone(rest);
  }

  // The connection is given up after the read that leaves an unfinished line too long.
  function Cutoff(chunks: seq<seq<byte>>, i: nat): (k: nat)
    requires i <= |chunks|
    ensures i <= k <= |chunks|
    decreases |chunks| - i
  {
    if i == |chunks| then i
    else if |Tail(Join(chunks[..i + 1]))| > PENDING_MAX then i + 1
    else Cutoff(chunks, i + 1)
  }

  // One connection from its first read to its end: the lines delivered are the non-empty
  // lines of the bytes read, the last one with or without a newline.
  method HandleConnection(chunks: seq<seq<byte>>) returns (lines: seq<seq<byte>>, used: nat)
    ensures used == Cutoff(chunks, 0) && lines == Lines(Join(chunks[..used]))
  {
    hide Lines, Tail, NonEmpty, Join;
    var pending := [];
    lines, used := [], 0;
    NothingRead(chunks);
    var open := true;
    while open && used < |chunks|
      invariant used <= |chunks|
      invariant Cutoff(chunks, 0) == if open then Cutoff(chunks, used) else used
      invariant pending == Tail(Join(chunks[..used]))
      invariant Lines(Join(chunks[..used])) == lines + NonEmpty(pending)
      decreases |chunks| - used, open
    {
      var more;
      ghost var before, had := Join(chunks[..used]), lines;
      TailTail(before, chunks[used]);
      JoinNext(chunks, used);
      more, pending := TakeLines(pending + chunks[used]);
      LinesGrow(before, chunks[used], lines, more, pending);
      lines := lines + more;
      used := used + 1;
      open := |pending| <= PENDING_MAX;
    }
    lines := lines + NonEmpty(pending);
  }

  lemma NothingRead(chunks: seq<seq<byte>>)
    ensures Join(chunks[..0]) == [] && Tail([]) == [] && Lines([]) == [] && NonEmpty([]) == []
  {
  }

  // The lines of a stream are those up to its last newline and then those of its tail,
  // whatever is added to it.
  lemma LinesOfTail(s: seq<byte>, t: seq<byte>)
    ensures |Tail(s)| <= |s| && Lines(s + t) == Lines(s[..|s| - |Tail(s)|]) + Lines(Tail(s) + t)
  {
    hide Lines, Tail;
    TailFacts(s);
    var head := s[..|s| - |Tail(s)|];
    assert s + t == head + (Tail(s) + t);
    LinesJoin(head, Tail(s) + t);
  }

  lemma LinesGrow(s: seq<byte>, t: seq<byte>, lines: seq<seq<byte>>, more: seq<seq<byte>>, pending: seq<byte>)
    requires Lines(s) == lines + NonEmpty(Tail(s))
    requires Lines(Tail(s) + t) == more + NonEmpty(pending)
    ensures Lines(s + t) == (lines + more) + NonEmpty(pending)
  {
    hide Lines, Tail, NonEmpty;
    LinesOfTail(s, t);
    LinesOfTail(s, []);
    assert s + [] == s && Tail(s) + [] == Tail(s);
    TailFacts(s);
    LinesAlone(Tail(s));
    SameStart(Lines(s[..|s| - |Tail(s)|]), lines, NonEmpty(Tail(s)));
    assert lines + (more + NonEmpty(pending)) == (lines + more) + NonEmpty(pending);
  }

  lemma SameStart<T>(a: seq<T>, b: seq<T>, c: seq<T>)
    requires a + c == b + c
    ensures a == b
  {
    assert |a| == |b|;
    assert a == (a + c)[..|a|] && b == (b + c)[..|b|];
  }

  // ---- when everything is read

  // No unfinished line of the stream is longer than what may be pending.
  predicate ShortLines(s: seq<byte>) {
    forall i, j :: 0 <= i <= j < |s| && NEWLINE !in s[i..j] ==> j - i <= PENDING_MAX
  }

  // The stream as it may come out of the socket.
  predicate ReadsOf(chunks: seq<seq<byte>>, s: seq<byte>) {
    Join(chunks) == s && forall i :: 0 <= i < |chunks| ==> 0 < |chunks[i]| <= READ_MAX
  }

  function BytesRead(chunks: seq<seq<byte>>): seq<byte> {
    Join(chunks[..Cutoff(chunks, 0)])
  }

  lemma {:induction false} ReadToTheEnd(chunks: seq<seq<byte>>, i: nat)
    requires i <= |chunks| && ShortLines(Join(chunks))
    ensures Join(chunks[..Cutoff(chunks, i)]) == Join(chunks)
    decreases |chunks| - i
  {
    hide Tail, Join;
    assert chunks[..|chunks|] == chunks;
    if i < |chunks| {
      JoinPrefix(chunks, i + 1);
      var s, p := Join(chunks), Join(chunks[..i + 1]);
      TailFacts(p);
      assert Tail(p) == s[|p| - |Tail(p)|..|p|];
      ReadToTheEnd(chunks, i + 1);
    }
  }

  // The stream one byte at a time.
  function Singles(s: seq<byte>): (chunks: seq<seq<byte>>)
    ensures |chunks| == |s| && forall i :: 0 <= i < |s| ==> chunks[i] == [s[i]]
  {
    seq(|s|, i requires 0 <= i < |s| => [s[i]])
  }

  lemma {:induction false} JoinSingles(s: seq<byte>, k: nat)
    requires k <= |s|
    ensures Join(Singles(s)[..k]) == s[..k]
  {
    if 0 < k {
      JoinSingles(s, k - 1);
      JoinNext(Singles(s), k - 1);
    }
  }

  // A stretch without newline is part of the tail of what ends with it.
  lemma StretchInTail(s: seq<byte>, i: nat, j: nat)
    requires i <= j <= |s| && NEWLINE !in s[i..j]
    ensures j - i <= |Tail(s[..j])|
  {
    var p := s[..j];
    TailFacts(p);
    var h := |p| - |Tail(p)|;
    assert forall x :: i <= x < j ==> p[x] == s[i..j][x - i] && s[i..j][x - i] in s[i..j];
    assert h <= i;
  }

  lemma {:induction false} CutoffBy(chunks: seq<seq<byte>>, i: nat, k: nat)
    requires i < k <= |chunks| && |Tail(Join(chunks[..k]))| > PENDING_MAX
    ensures Cutoff(chunks, i) <= k
    decreases k - i
  {
    hide Tail, Join;
    if i + 1 < k {
      CutoffBy(chunks, i + 1, k);
    }
  }

  lemma LongLineLosesRest(s: seq<byte>, i: nat, j: nat)
    requires i <= j < |s| && NEWLINE !in s[i..j] && PENDING_MAX < j - i
    ensures ReadsOf(Singles(s), s) && BytesRead(Singles(s)) != s
  {
    hide Tail, Join, Cutoff;
    var chunks := Singles(s);
    JoinSingles(s, |s|);
    assert chunks[..|s|] == chunks && s[..|s|] == s;
    JoinSingles(s, j);
    StretchInTail(s, i, j);
    CutoffBy(chunks, 0, j);
    JoinSingles(s, Cutoff(chunks, 0));
  }

  // All of the stream is read, however it is cut into reads, exactly when no line in it
  // grows too long; then the lines delivered are those of the stream.
  lemma AllReadIff(s: seq<byte>)
    ensures ShortLines(s) <==> forall chunks :: ReadsOf(chunks, s) ==> BytesRead(chunks) == s
  {
    if ShortLines(s) {
      forall chunks | ReadsOf(chunks, s) ensures BytesRead(chunks) == s {
        ReadToTheEnd(chunks, 0);
      }
    } else {
      var i, j :| 0 <= i <= j < |s| && NEWLINE !in s[i..j] && j - i > PENDING_MAX;
      LongLineLosesRest(s, i, j);
    }
  }
}
