/** Text of newline-terminated lines, decimal numbers, and sorted lists of lines. */
module CanonicalText {

  function JoinLines(lines: seq<string>): string {
    if lines == [] then "" else lines[0] + "\n" + JoinLines(lines[1..])
  }

  predicate OneLine(s: string) {
    '\n' !in s
  }

  predicate AllOneLine(lines: seq<string>) {
    forall i :: 0 <= i < |lines| ==> OneLine(lines[i])
  }

  predicate StartsWith(s: string, tag: string) {
    |tag| <= |s| && s[..|tag|] == tag
  }

  // A line ends at the first newline: whatever else the same text can be cut into,
  // the first piece is the line, or the line with more behind its newline.
  lemma FirstLine(line: string, rest: string, piece: string, behind: string)
    requires OneLine(line) && line + "\n" + rest == piece + "\n" + behind
    ensures OneLine(piece) ==> piece == line && behind == rest
    ensures !OneLine(piece) ==>
      |line| < |piece| && piece[..|line|] == line && rest == piece[|line| + 1..] + "\n" + behind
  {
    var t := line + "\n" + rest;
    assert t[|line|] == '\n' && t[|piece|] == '\n';
    assert forall j :: 0 <= j < |line| ==> t[j] == line[j];
    assert forall j :: 0 <= j < |piece| ==> t[j] == piece[j];
    assert t[..|line|] == line && t[|line| + 1..] == rest;
    if |piece| == |line| {
      assert t[..|piece|] == piece && t[|piece| + 1..] == behind;
    } else {
      assert |line| < |piece| && piece[|line|] == '\n';
      assert (piece + "\n" + behind)[|line| + 1..] == piece[|line| + 1..] + "\n" + behind;
    }
  }

  lemma {:induction false} JoinSame(xs: seq<string>, ys: seq<string>)
    requires AllOneLine(xs) && AllOneLine(ys) && JoinLines(xs) == JoinLines(ys)
    ensures xs == ys
  {
    if xs == [] || ys == [] {
    } else {
      FirstLine(xs[0], JoinLines(xs[1..]), ys[0], JoinLines(ys[1..]));
      JoinSame(xs[1..], ys[1..]);
    }
  }

  // Where a tag begins the text, it begins the first line.
  lemma TagAtStart(lines: seq<string>, tag: string, tail: string)
    requires AllOneLine(lines) && OneLine(tag) && tag != "" && JoinLines(lines) == tag + tail
    ensures lines != [] && StartsWith(lines[0], tag)
  {
    var t := JoinLines(lines);
    assert |t| > 0;
    assert forall j :: 0 <= j < |tag| ==> t[j] == tag[j];
    assert t[|lines[0]|] == '\n';
    assert forall j :: 0 <= j < |lines[0]| ==> t[j] == lines[0][j];
  }

  // A piece cannot reach over the end of its line when the tag that must follow it
  // begins no later line.
  lemma {:induction false} NoLongerPiece(lines: seq<string>, piece: string, tag: string, tail: string)
    requires AllOneLine(lines) && OneLine(tag) && tag != ""
    requires forall k :: 1 <= k < |lines| ==> !StartsWith(lines[k], tag)
    ensures JoinLines(lines) != piece + "\n" + (tag + tail)
  {
    if JoinLines(lines) == piece + "\n" + (tag + tail) {
      assert lines != [];
      var more := lines[1..];
      assert forall k :: 0 <= k < |more| ==> more[k] == lines[k + 1];
      FirstLine(lines[0], JoinLines(more), piece, tag + tail);
      if OneLine(piece) {
        TagAtStart(more, tag, tail);
      } else {
        NoLongerPiece(more, piece[|lines[0]| + 1..], tag, tail);
      }
    }
  }

  lemma TailLines(lines: seq<string>)
    requires lines != [] && AllOneLine(lines)
    ensures OneLine(lines[0]) && AllOneLine(lines[1..])
  {
  }

  // One step of reading tagged lines: the piece before the next tag is the first line.
  lemma TaggedPiece(lines: seq<string>, piece: string, tag: string, tail: string)
    requires lines != [] && AllOneLine(lines) && OneLine(tag) && tag != ""
    requires forall k :: 2 <= k < |lines| ==> !StartsWith(lines[k], tag)
    requires JoinLines(lines) == piece + "\n" + (tag + tail)
    ensures piece == lines[0] && JoinLines(lines[1..]) == tag + tail
  {
    hide StartsWith, OneLine, AllOneLine;
    TailLines(lines);
    var more := lines[1..];
    assert forall k :: 0 <= k < |more| ==> more[k] == lines[k + 1];
    FirstLine(lines[0], JoinLines(more), piece, tag + tail);
    if !OneLine(piece) {
      NoLongerPiece(more, piece[|lines[0]| + 1..], tag, tail);
    }
  }

  // ---- decimal numbers

  function Digit(d: nat): char
    requires d < 10
  {
    '0' + d as char
  }

  function DecNat(n: nat): (s: string)
    ensures s != ""
    ensures forall i :: 0 <= i < |s| ==> '0' <= s[i] <= '9'
  {
    if n < 10 then [Digit(n)] else DecNat(n / 10) + [Digit(n % 10)]
  }

  function Dec(n: int): (s: string)
    ensures forall i :: 0 <= i < |s| ==> s[i] == '-' || '0' <= s[i] <= '9'
  {
    if n < 0 then "-" + DecNat(-n) else DecNat(n)
  }

  lemma {:induction false} DecNatInjective(m: nat, n: nat)
    requires DecNat(m) == DecNat(n)
    ensures m == n
  {
    var s, t := DecNat(m), DecNat(n);
    assert s[|s| - 1] == Digit(m % 10) && t[|t| - 1] == Digit(n % 10);
    if 10 <= m && 10 <= n {
      assert s[..|s| - 1] == DecNat(m / 10) && t[..|t| - 1] == DecNat(n / 10);
      DecNatInjective(m / 10, n / 10);
    }
  }

  lemma DecInjective(m: int, n: int)
    requires Dec(m) == Dec(n)
    ensures m == n
  {
    var s, t := Dec(m), Dec(n);
    assert m >= 0 ==> '0' <= s[0];
    assert n >= 0 ==> '0' <= t[0];
    if m < 0 {
      assert s[1..] == DecNat(-m) && t[1..] == DecNat(-n);
      DecNatInjective(-m, -n);
    } else {
      DecNatInjective(m, n);
    }
  }

  // The number that digits stand for.
  function Reading(s: string): int {
    if s == "" then 0 else 10 * Reading(s[..|s| - 1]) + (s[|s| - 1] as int - '0' as int)
  }

  // Decimal text reads as its number and has no leading zero.
  lemma {:induction false} DecNatReads(n: nat)
    ensures Reading(DecNat(n)) == n && (DecNat(n)[0] == '0' <==> n == 0)
  {
    var s := DecNat(n);
    if 10 <= n {
      DecNatReads(n / 10);
      assert s[..|s| - 1] == DecNat(n / 10) && s[0] == DecNat(n / 10)[0];
    } else {
      assert s[..0] == "";
    }
  }

  lemma DecReads(n: int)
    ensures 0 <= n ==> Reading(Dec(n)) == n && (Dec(n)[0] == '0' <==> n == 0)
    ensures n < 0 ==> Dec(n)[0] == '-' && Reading(Dec(n)[1..]) == -n && Dec(n)[1] != '0'
  {
    if n < 0 {
      DecNatReads(-n);
      assert Dec(n)[1..] == DecNat(-n);
    } else {
      DecNatReads(n);
    }
  }

  // ---- sorting, as std::sort orders strings

  predicate Leq(a: string, b: string) {
    a == "" || (b != "" && (a[0] < b[0] || (a[0] == b[0] && Leq(a[1..], b[1..]))))
  }

  predicate LowerAt(a: string, b: string, k: nat) {
    k < |a| && k < |b| && a[k] < b[k] && forall i :: 0 <= i < k ==> a[i] == b[i]
  }

  predicate Begins(a: string, b: string) {
    |a| <= |b| && forall i :: 0 <= i < |a| ==> a[i] == b[i]
  }

  // A string comes before another when it begins it, or has the lower character where the
  // two first differ.
  lemma {:induction false} LeqIff(a: string, b: string)
    ensures Leq(a, b) <==> Begins(a, b) || exists k: nat :: LowerAt(a, b, k)
  {
    if a != "" && b != "" {
      if a[0] == b[0] {
        LeqIff(a[1..], b[1..]);
        SameHead(a, b);
      } else if a[0] < b[0] {
        assert LowerAt(a, b, 0);
      } else {
        assert forall k :: LowerAt(a, b, k) ==> k == 0;
      }
    }
  }

  lemma SameHead(a: string, b: string)
    requires a != "" && b != "" && a[0] == b[0]
    ensures Begins(a, b) <==> Begins(a[1..], b[1..])
    ensures (exists k: nat :: LowerAt(a, b, k)) <==> exists k: nat :: LowerAt(a[1..], b[1..], k)
  {
    assert a == [a[0]] + a[1..] && b == [b[0]] + b[1..];
    forall k: nat | LowerAt(a, b, k) ensures exists j: nat :: LowerAt(a[1..], b[1..], j) {
      LowerMoves(a, b, k - 1);
      assert LowerAt(a[1..], b[1..], k - 1);
    }
    forall k: nat | LowerAt(a[1..], b[1..], k) ensures exists j: nat :: LowerAt(a, b, j) {
      LowerMoves(a, b, k);
      assert LowerAt(a, b, k + 1);
    }
  }

  lemma LowerMoves(a: string, b: string, k: nat)
    requires a != "" && b != "" && a[0] == b[0]
    ensures LowerAt(a, b, k + 1) <==> LowerAt(a[1..], b[1..], k)
  {
    assert a == [a[0]] + a[1..] && b == [b[0]] + b[1..];
  }

  lemma {:induction false} LeqTotal(a: string, b: string)
    ensures Leq(a, b) || Leq(b, a)
    ensures Leq(a, b) && Leq(b, a) ==> a == b
  {
    if a != "" && b != "" && a[0] == b[0] {
      LeqTotal(a[1..], b[1..]);
      assert a == [a[0]] + a[1..] && b == [b[0]] + b[1..];
    }
  }

  lemma {:induction false} LeqTransitive(a: string, b: string, c: string)
    requires Leq(a, b) && Leq(b, c)
    ensures Leq(a, c)
  {
    if a != "" && a[0] == b[0] && b[0] == c[0] {
      LeqTransitive(a[1..], b[1..], c[1..]);
    }
  }

  predicate Sorted(xs: seq<string>) {
    forall i, j :: 0 <= i < j < |xs| ==> Leq(xs[i], xs[j])
  }

  function Insert(x: string, xs: seq<string>): (r: seq<string>)
    ensures multiset(r) == multiset(xs) + multiset{x}
  {
    if xs == [] || Leq(x, xs[0]) then [x] + xs
    else
      assert xs == [xs[0]] + xs[1..];
      [xs[0]] + Insert(x, xs[1..])
  }

  function Sort(xs: seq<string>): (r: seq<string>)
    ensures multiset(r) == multiset(xs)
  {
    if xs == [] then []
    else
      assert xs == [xs[0]] + xs[1..];
      Insert(xs[0], Sort(xs[1..]))
  }

  lemma {:induction false} InsertSorted(x: string, xs: seq<string>)
    requires Sorted(xs)
    ensures Sorted(Insert(x, xs))
  {
    if xs == [] {
    } else if Leq(x, xs[0]) {
      forall j | 0 <= j < |xs| ensures Leq(x, xs[j]) {
        if 0 < j {
          LeqTransitive(x, xs[0], xs[j]);
        }
      }
    } else {
      LeqTotal(x, xs[0]);
      var rest := Insert(x, xs[1..]);
      InsertSorted(x, xs[1..]);
      forall j | 0 <= j < |rest| ensures Leq(xs[0], rest[j]) {
        assert rest[j] in multiset(rest);
        assert rest[j] == x || rest[j] in xs[1..];
      }
    }
  }

  lemma {:induction false} SortSorts(xs: seq<string>)
    ensures Sorted(Sort(xs))
  {
    if xs != [] {
      SortSorts(xs[1..]);
      InsertSorted(xs[0], Sort(xs[1..]));
    }
  }

  // There is only one sorted arrangement, so any sorting algorithm gives Sort's.
  lemma {:induction false} SortedUnique(a: seq<string>, b: seq<string>)
    requires Sorted(a) && Sorted(b) && multiset(a) == multiset(b)
    ensures a == b
    decreases |a|
  {
    hide Leq, Sorted;
    assert |multiset(a)| == |a| && |multiset(b)| == |b|;
    if a != [] {
      assert a[0] in multiset(b) && b[0] in multiset(a);
      HeadLeast(a, b[0]);
      HeadLeast(b, a[0]);
      LeqTotal(a[0], b[0]);
      Rest(a);
      Rest(b);
      SortedUnique(a[1..], b[1..]);
    }
  }

  lemma HeadLeast(a: seq<string>, x: string)
    requires Sorted(a) && x in a
    ensures Leq(a[0], x)
  {
    hide Leq;
    var j :| 0 <= j < |a| && a[j] == x;
    LeqTotal(a[0], a[0]);
  }

  lemma Rest(a: seq<string>)
    requires a != []
    ensures a == [a[0]] + a[1..] && multiset(a[1..]) == multiset(a) - multiset{a[0]}
    ensures Sorted(a) ==> Sorted(a[1..])
  {
    hide Leq;
    assert a == [a[0]] + a[1..];
  }
}
