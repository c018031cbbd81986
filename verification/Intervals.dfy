/** The set of half-open intervals that records which bytes of a datagram have arrived. */
module Intervals {
  import opened Machine

  datatype Range = Range(begin: nat, end: nat)

  // Ordered, non-empty, and neither overlapping nor touching.
  ghost predicate Separated(cov: seq<Range>) {
    && (forall i :: 0 <= i < |cov| ==> cov[i].begin < cov[i].end)
    && (forall i, j :: 0 <= i < j < |cov| ==> cov[i].end < cov[j].begin)
  }

  ghost predicate Covers(cov: seq<Range>, x: int) {
    exists i :: 0 <= i < |cov| && cov[i].begin <= x < cov[i].end
  }

  // First interval that begins at or after b.
  function LowerBound(cov: seq<Range>, b: nat): (i: nat)
    ensures i <= |cov|
    ensures forall j :: 0 <= j < i ==> cov[j].begin < b
    ensures i < |cov| ==> b <= cov[i].begin
  {
    if cov == [] || b <= cov[0].begin then 0 else 1 + LowerBound(cov[1..], b)
  }

  // The interval that a range beginning at b may meet first.
  function FirstMeeting(cov: seq<Range>, b: nat): (i: nat)
    ensures i <= |cov|
  {
    var i := LowerBound(cov, b);
    if 0 < i && b <= cov[i - 1].end then i - 1 else i
  }

  lemma FirstMeetingSplits(cov: seq<Range>, b: nat)
    requires Separated(cov)
    ensures var i := FirstMeeting(cov, b);
            && (forall j :: 0 <= j < i ==> cov[j].end < b)
            && (forall j :: i <= j < |cov| ==> b <= cov[j].end)
  {
    var k := LowerBound(cov, b);
    forall j | 0 <= j < FirstMeeting(cov, b) ensures cov[j].end < b {
      if j < k - 1 {
        assert cov[j].end < cov[k - 1].begin;
      }
    }
    forall j | k <= j < |cov| ensures b <= cov[j].end {
      if k < j {
        assert cov[k].end < cov[j].begin;
      }
    }
  }

  // buf with the bytes of frag, placed at off, where cov has none yet.
  ghost function Fill(buf: seq<byte>, cov: seq<Range>, frag: seq<byte>, off: nat): (r: seq<byte>) {
    seq(|buf|, x requires 0 <= x < |buf| =>
          if off <= x < off + |frag| && !Covers(cov, x) then frag[x - off] else buf[x])
  }

  // memcpy into a buffer.
  function Write(buf: seq<byte>, at: nat, data: seq<byte>): (r: seq<byte>)
    requires at + |data| <= |buf|
    ensures |r| == |buf|
    ensures forall x :: 0 <= x < |buf| ==> r[x] == if at <= x < at + |data| then data[x - at] else buf[x]
  {
    buf[..at] + data + buf[at + |data|..]
  }

  // Only the ranges not yet covered are copied: the first byte seen at an offset stays.
  method CopyUncovered(buf: seq<byte>, cov: seq<Range>, frag: seq<byte>, off: nat) returns (out: seq<byte>)
    requires Separated(cov) && off + |frag| <= |buf|
    ensures out == Fill(buf, cov, frag, off)
  {
    hide Covers, Separated, Fill;
    FillAt(buf, cov, frag, off);
    var begin, end := off, off + |frag|;
    var it := FirstMeeting(cov, begin);
    FirstMeetingSplits(cov, begin);
    var cursor := begin;
    out := buf;
    while it < |cov| && cov[it].begin < end
      invariant begin <= cursor && it <= |cov| && |out| == |buf|
      invariant forall j :: 0 <= j < it ==> cov[j].end <= cursor
      invariant forall x :: 0 <= x < |buf| ==> out[x] == if x < cursor then Fill(buf, cov, frag, off)[x] else buf[x]
    {
      if cursor < cov[it].begin {
        forall x | cursor <= x < cov[it].begin ensures !Covers(cov, x) {
          GapFree(cov, it, x);
        }
        out := Write(out, cursor, frag[cursor - off..cov[it].begin - off]);
      }
      cursor := Max(cursor, cov[it].end);
      InsideCovered(cov, it);
      it := it + 1;
    }
    if cursor < end {
      forall x | cursor <= x < end ensures !Covers(cov, x) {
        GapFree(cov, it, x);
      }
      out := Write(out, cursor, frag[cursor - off..]);
    }
  }

  lemma FillAt(buf: seq<byte>, cov: seq<Range>, frag: seq<byte>, off: nat)
    ensures |Fill(buf, cov, frag, off)| == |buf|
    ensures forall x :: 0 <= x < |buf| ==>
              Fill(buf, cov, frag, off)[x] ==
                if off <= x < off + |frag| && !Covers(cov, x) then frag[x - off] else buf[x]
  {
  }

  lemma InsideCovered(cov: seq<Range>, it: nat)
    requires Separated(cov) && it < |cov|
    ensures cov[it].begin < cov[it].end
    ensures forall x :: cov[it].begin <= x < cov[it].end ==> Covers(cov, x)
  {
  }

  lemma GapFree(cov: seq<Range>, it: nat, x: int)
    requires Separated(cov) && it <= |cov|
    requires forall j :: 0 <= j < it ==> cov[j].end <= x
    requires it < |cov| ==> x < cov[it].begin
    ensures !Covers(cov, x)
  {
    forall j | it <= j < |cov| ensures x < cov[j].begin {
      if it < j {
        assert cov[it].end < cov[j].begin;
      }
    }
  }

  // cov with the intervals it..h taken out.
  function Cut(cov: seq<Range>, it: nat, h: nat): (r: seq<Range>)
    requires it <= h <= |cov|
  {
    cov[..it] + cov[h..]
  }

  lemma CutNone(cov: seq<Range>, it: nat)
    requires it <= |cov|
    ensures Cut(cov, it, it) == cov
  {
  }

  lemma CutNext(cov: seq<Range>, it: nat, h: nat)
    requires it <= h < |cov|
    ensures var r := Cut(cov, it, h); it < |r| && r[it] == cov[h] && r[..it] + r[it + 1..] == Cut(cov, it, h + 1)
  {
  }

  lemma CutInsert(cov: seq<Range>, it: nat, h: nat, x: Range)
    requires it <= h <= |cov|
    ensures var r := Cut(cov, it, h); |r| == |cov| - (h - it) && Replaced(r[..it] + [x] + r[it..], cov, it, h, x)
  {
  }

  // cov with it..h removed is ready to receive [mb, me) in their place.
  ghost predicate Swallowing(cov: seq<Range>, it: nat, h: nat, mb: nat, me: nat, begin: nat, end: nat) {
    && it <= h <= |cov| && mb <= begin < end <= me
    && (forall j :: 0 <= j < it ==> cov[j].end < mb)
    && (forall j :: it <= j < h ==> mb <= cov[j].begin && cov[j].end <= me)
    && (forall j :: h <= j < |cov| ==> mb <= cov[j].begin)
    && (forall x: int :: mb <= x < me && !(begin <= x < end) ==> Covers(cov, x))
  }

  // Insert [begin, end), swallowing every interval it overlaps or touches.
  method Merge(cov: seq<Range>, begin: nat, end: nat) returns (out: seq<Range>)
    requires Separated(cov) && begin < end
    ensures Separated(out)
    ensures forall x :: Covers(out, x) <==> Covers(cov, x) || begin <= x < end
  {
    hide Separated, Covers, Swallowing;
    var mb: nat, me: nat := begin, end;
    out := cov;
    var it := FirstMeeting(cov, begin);
    ghost var h := it;
    CutNone(cov, it);
    SwallowNone(cov, it, begin, end);
    if it < LowerBound(cov, begin) {
      CutNext(cov, it, h);
      SwallowPrevious(cov, it, h, begin, end);
      mb, me := Min(mb, out[it].begin), Max(me, out[it].end);
      out := out[..it] + out[it + 1..];
      h := it + 1;
    }
    while it < |out| && out[it].begin <= me
      invariant it <= h <= |cov| && Swallowing(cov, it, h, mb, me, begin, end)
      invariant out == Cut(cov, it, h)
      decreases |cov| - h
    {
      CutNext(cov, it, h);
      SwallowNext(cov, it, h, mb, me, begin, end);
      me := Max(me, out[it].end);
      out := out[..it] + out[it + 1..];
      h := h + 1;
    }
    if h < |cov| {
      CutNext(cov, it, h);
    }
    CutInsert(cov, it, h, Range(mb, me));
    out := out[..it] + [Range(mb, me)] + out[it..];
    SwallowDone(out, cov, it, h, mb, me, begin, end);
  }

  lemma SwallowNone(cov: seq<Range>, it: nat, begin: nat, end: nat)
    requires Separated(cov) && it == FirstMeeting(cov, begin) && begin < end
    ensures it == LowerBound(cov, begin) ==> Swallowing(cov, it, it, begin, end, begin, end)
  {
    FirstMeetingSplits(cov, begin);
    forall j | LowerBound(cov, begin) <= j < |cov| ensures begin <= cov[j].begin {
      assert LowerBound(cov, begin) < j ==> cov[LowerBound(cov, begin)].end < cov[j].begin;
    }
  }

  lemma SwallowPrevious(cov: seq<Range>, it: nat, h: nat, begin: nat, end: nat)
    requires Separated(cov) && it == h < |cov| && begin < end
    requires it == FirstMeeting(cov, begin) < LowerBound(cov, begin)
    ensures Swallowing(cov, it, h + 1, Min(begin, cov[h].begin), Max(end, cov[h].end), begin, end)
  {
    FirstMeetingSplits(cov, begin);
    forall x: int | cov[h].begin <= x < cov[h].end ensures Covers(cov, x) {
      assert cov[h].begin <= x < cov[h].end;
    }
  }

  lemma SwallowNext(cov: seq<Range>, it: nat, h: nat, mb: nat, me: nat, begin: nat, end: nat)
    requires Separated(cov) && Swallowing(cov, it, h, mb, me, begin, end)
    requires h < |cov| && cov[h].begin <= me
    ensures Swallowing(cov, it, h + 1, mb, Max(me, cov[h].end), begin, end)
  {
    forall x: int | me <= x < cov[h].end ensures Covers(cov, x) {
      assert cov[h].begin <= x < cov[h].end;
    }
  }

  lemma SwallowDone(out: seq<Range>, cov: seq<Range>, it: nat, h: nat, mb: nat, me: nat, begin: nat, end: nat)
    requires Separated(cov) && Swallowing(cov, it, h, mb, me, begin, end)
    requires Replaced(out, cov, it, h, Range(mb, me))
    requires h < |cov| ==> me < cov[h].begin
    ensures Separated(out)
    ensures forall x: int :: Covers(out, x) <==> Covers(cov, x) || begin <= x < end
  {
    forall j | h <= j < |cov| ensures me < cov[j].begin {
      assert h < j ==> cov[h].end < cov[j].begin;
    }
    ReplacedSeparated(out, cov, it, h, mb, me);
    forall x: int ensures Covers(out, x) <==> Covers(cov, x) || begin <= x < end {
      ReplacedCovers(out, cov, it, h, mb, me, x);
    }
  }

  // The intervals it..h of cov are exactly those that [mb, me) replaces.
  ghost predicate Swallows(cov: seq<Range>, it: nat, h: nat, mb: nat, me: nat) {
    && it <= h <= |cov| && mb < me
    && (forall j :: 0 <= j < it ==> cov[j].end < mb)
    && (forall j :: it <= j < h ==> mb <= cov[j].begin && cov[j].end <= me)
    && (forall j :: h <= j < |cov| ==> me < cov[j].begin)
  }

  // out is cov with the intervals it..h replaced by r.
  ghost predicate Replaced(out: seq<Range>, cov: seq<Range>, it: nat, h: nat, r: Range) {
    && it <= h <= |cov| && |out| == |cov| - (h - it) + 1
    && (forall k :: 0 <= k < it ==> out[k] == cov[k])
    && out[it] == r
    && (forall k :: it < k < |out| ==> out[k] == cov[k - it - 1 + h])
  }

  lemma ReplacedSeparated(out: seq<Range>, cov: seq<Range>, it: nat, h: nat, mb: nat, me: nat)
    requires Separated(cov) && Swallows(cov, it, h, mb, me)
    requires Replaced(out, cov, it, h, Range(mb, me))
    ensures Separated(out)
  {
  }

  lemma ReplacedCovers(out: seq<Range>, cov: seq<Range>, it: nat, h: nat, mb: nat, me: nat, x: int)
    requires Separated(cov) && Swallows(cov, it, h, mb, me)
    requires Replaced(out, cov, it, h, Range(mb, me))
    ensures Covers(out, x) <==> Covers(cov, x) || mb <= x < me
  {
    if Covers(cov, x) {
      var j :| 0 <= j < |cov| && cov[j].begin <= x < cov[j].end;
      var k := if j < it then j else if j < h then it else j - h + it + 1;
      assert out[k].begin <= x < out[k].end;
    }
    if mb <= x < me {
      assert out[it].begin <= x < out[it].end;
    }
  }

  // One interval starting at zero is the same as covering exactly [0, n) for some n.
  lemma SingleFromZero(cov: seq<Range>, n: nat)
    requires Separated(cov) && 0 < n
    ensures (|cov| == 1 && cov[0] == Range(0, n)) <==> (forall x: int :: Covers(cov, x) <==> 0 <= x < n)
  {
    if |cov| == 1 && cov[0] == Range(0, n) {
      forall x: int | 0 <= x < n ensures Covers(cov, x) {
        assert cov[0].begin <= x < cov[0].end;
      }
    }
    if forall x: int :: Covers(cov, x) <==> 0 <= x < n {
      assert Covers(cov, 0);
      var i :| 0 <= i < |cov| && cov[i].begin <= 0 < cov[i].end;
      assert Covers(cov, cov[i].end - 1);
      assert forall j :: 0 < j < |cov| ==> cov[0].end < cov[j].begin;
      assert i == 0;
      if cov[0].end < n {
        GapFreeAfter(cov);
      }
      if 1 < |cov| {
        assert cov[1].begin <= cov[1].begin < cov[1].end;
        assert Covers(cov, cov[1].begin);
        GapFreeAfter(cov);
        assert !Covers(cov, cov[0].end);
      }
    }
  }

  lemma GapFreeAfter(cov: seq<Range>)
    requires Separated(cov) && cov != []
    ensures !Covers(cov, cov[0].end)
  {
    GapFree(cov, 1, cov[0].end);
  }
}
