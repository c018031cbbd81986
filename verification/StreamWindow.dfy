/** What rule matching and DoIP framing see of a reassembled stream that comes in chunks. */
module StreamWindow {
  import opened Machine
  import opened Chunks
  import opened RuleMatch

  function Last(s: seq<byte>, n: nat): seq<byte> {
    if |s| <= n then s else s[|s| - n..]
  }

  lemma LastOfWindow(s: seq<byte>, d: seq<byte>, keep: nat)
    ensures Last(Last(s, keep) + d, keep) == Last(s + d, keep)
  {
  }

  // The retained bytes of one direction of a flow.
  class RuleTail {
    const maxPattern: nat
    var tail: seq<byte>
    ghost var stream: seq<byte>

    ghost predicate Valid()
      reads this
    {
      tail == Last(stream, Keep(maxPattern))
    }

    constructor (maxPattern: nat)
      ensures Valid() && stream == [] && this.maxPattern == maxPattern
    {
      this.maxPattern, tail, stream := maxPattern, [], [];
    }

    // The bytes the rules are matched on: what was retained and what is new.
    method Push(data: seq<byte>) returns (window: seq<byte>)
      requires Valid()
      modifies this
      ensures Valid() && stream == old(stream) + data
      ensures window == Last(old(stream), Keep(maxPattern)) + data
    {
      window := tail + data;
      LastOfWindow(stream, data, Keep(maxPattern));
      var keep := if maxPattern > 0 then maxPattern - 1 else 0;
      if |window| > keep {
        tail := window[|window| - keep..];
      } else {
        tail := window;
      }
      stream := stream + data;
    }
  }

  // Feeding chunks one after the other.
  method Windows(maxPattern: nat, chunks: seq<seq<byte>>) returns (windows: seq<seq<byte>>)
    ensures |windows| == |chunks|
    ensures forall k :: 0 <= k < |chunks| ==> windows[k] == Window(chunks, Keep(maxPattern), k)
  {
    hide Last, Keep;
    var t := new RuleTail(maxPattern);
    windows := [];
    var i := 0;
    while i < |chunks|
      invariant 0 <= i <= |chunks| && fresh(t)
      invariant t.Valid() && t.maxPattern == maxPattern && t.stream == Join(chunks[..i])
      invariant |windows| == i
      invariant forall k :: 0 <= k < i ==> windows[k] == Window(chunks, Keep(maxPattern), k)
    {
      JoinNext(chunks, i);
      var w := t.Push(chunks[i]);
      windows := windows + [w];
      i := i + 1;
    }
  }

  function Keep(maxPattern: nat): nat {
    if maxPattern > 0 then maxPattern - 1 else 0
  }

  function Window(chunks: seq<seq<byte>>, keep: nat, k: nat): seq<byte>
    requires k < |chunks|
  {
    Last(Join(chunks[..k]), keep) + chunks[k]
  }

  // Where window k lies in the stream: from First up to the end of chunk k.
  function First(chunks: seq<seq<byte>>, keep: nat, k: nat): (f: nat)
    requires k <= |chunks|
    ensures f == Max(0, |Join(chunks[..k])| - keep)
  {
    if |Join(chunks[..k])| <= keep then 0 else |Join(chunks[..k])| - keep
  }

  lemma WindowIsSlice(chunks: seq<seq<byte>>, keep: nat, k: nat)
    requires k < |chunks|
    ensures First(chunks, keep, k) <= |Join(chunks[..k + 1])| <= |Join(chunks)|
    ensures Window(chunks, keep, k) == Join(chunks)[First(chunks, keep, k)..|Join(chunks[..k + 1])|]
  {
    JoinNext(chunks, k);
    JoinPrefix(chunks, k + 1);
    var s := Join(chunks[..k]);
    assert Last(s, keep) == s[First(chunks, keep, k)..];
    assert Join(chunks[..k + 1]) == Join(chunks)[..|Join(chunks[..k + 1])|];
  }

  // The chunk whose arrival completes the first e bytes.
  lemma {:induction false} Completes(chunks: seq<seq<byte>>, e: nat) returns (k: nat)
    requires 0 < e <= |Join(chunks)|
    ensures k < |chunks| && |Join(chunks[..k])| < e <= |Join(chunks[..k + 1])|
  {
    var n := |chunks| - 1;
    if |Join(chunks[..n])| < e {
      assert chunks[..n + 1] == chunks;
      k := n;
    } else {
      k := Completes(chunks[..n], e);
      assert chunks[..n][..k] == chunks[..k] && chunks[..n][..k + 1] == chunks[..k + 1];
    }
  }

  // Every match of the stream is seen in the window that completes it.
  lemma MatchIsSeen(chunks: seq<seq<byte>>, keep: nat, i: nat, needle: seq<byte>, nocase: bool) returns (k: nat)
    requires needle != [] && |needle| <= keep + 1 && MatchAt(Join(chunks), i, needle, nocase)
    ensures k < |chunks| && First(chunks, keep, k) <= i
    ensures MatchAt(Window(chunks, keep, k), i - First(chunks, keep, k), needle, nocase)
  {
    hide Join, Window, Last;
    k := Completes(chunks, i + |needle|);
    WindowIsSlice(chunks, keep, k);
    var first := First(chunks, keep, k);
    MatchInSlice(Join(chunks), first, |Join(chunks[..k + 1])|, i - first, needle, nocase);
  }

  lemma SeenIsMatch(chunks: seq<seq<byte>>, keep: nat, k: nat, j: nat, needle: seq<byte>, nocase: bool)
    requires k < |chunks| && MatchAt(Window(chunks, keep, k), j, needle, nocase)
    ensures MatchAt(Join(chunks), First(chunks, keep, k) + j, needle, nocase)
  {
    hide Join, Window, Last;
    WindowIsSlice(chunks, keep, k);
    MatchInSlice(Join(chunks), First(chunks, keep, k), |Join(chunks[..k + 1])|, j, needle, nocase);
  }

  predicate Plain(c: Content) {
    c.pattern != [] && c.buffer == Raw && c.offset == None && c.distance == None && c.depth == None && c.within == None
  }

  function OnlyRaw(s: seq<byte>): Buffers {
    b => if b == Raw then Some(s) else None
  }

  lemma PlainContent(c: Content, s: seq<byte>)
    requires Plain(c)
    ensures Satisfiable([c], OnlyRaw(s), _ => 0) <==> exists i: nat :: MatchAt(s, i, c.pattern, c.nocase)
  {
    hide MatchAt;
    var bufs, zero: Ends := OnlyRaw(s), _ => 0;
    assert [c][1..] == [];
    if i: nat :| MatchAt(s, i, c.pattern, c.nocase) {
      MatchEnds(s, i, c.pattern, c.nocase);
      assert Fits(c, s, 0, i);
      assert [i][1..] == [];
      assert Placed([c], bufs, zero, [i]);
    }
    if pos: seq<nat> :| |pos| == 1 && Placed([c], bufs, zero, pos) {
      assert MatchAt(s, pos[0], c.pattern, c.nocase);
    }
  }

  lemma MatchEnds(s: seq<byte>, i: nat, needle: seq<byte>, nocase: bool)
    requires MatchAt(s, i, needle, nocase)
    ensures i + |needle| <= |s|
  {
  }

  // A rule with one content anywhere hits some window exactly when it hits the whole
  // stream, however the stream was cut, if no rule's pattern is longer than maxPattern.
  lemma WindowsSeeStream(chunks: seq<seq<byte>>, maxPattern: nat, c: Content)
    requires Plain(c) && |c.pattern| <= maxPattern
    ensures (exists k :: 0 <= k < |chunks| && Satisfiable([c], OnlyRaw(Window(chunks, Keep(maxPattern), k)), _ => 0))
       <==> Satisfiable([c], OnlyRaw(Join(chunks)), _ => 0)
  {
    hide Window, Join, Satisfiable, MatchAt;
    var keep := Keep(maxPattern);
    PlainContent(c, Join(chunks));
    if i: nat :| MatchAt(Join(chunks), i, c.pattern, c.nocase) {
      var k := MatchIsSeen(chunks, keep, i, c.pattern, c.nocase);
      PlainContent(c, Window(chunks, keep, k));
    }
    if k :| 0 <= k < |chunks| && Satisfiable([c], OnlyRaw(Window(chunks, keep, k)), _ => 0) {
      PlainContent(c, Window(chunks, keep, k));
      var j: nat :| MatchAt(Window(chunks, keep, k), j, c.pattern, c.nocase);
      SeenIsMatch(chunks, keep, k, j, c.pattern, c.nocase);
    }
  }

  // A match of the longest pattern lies in one window only, so it is reported once.
  lemma LongestSeenOnce(chunks: seq<seq<byte>>, maxPattern: nat, i: nat, j: nat, k: nat)
    requires 0 < maxPattern && j < k < |chunks|
    requires i + maxPattern <= |Join(chunks[..j + 1])|
    ensures i < First(chunks, Keep(maxPattern), k)
  {
    JoinPrefix(chunks[..k], j + 1);
    assert chunks[..k][..j + 1] == chunks[..j + 1];
  }
}
