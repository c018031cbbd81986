/** Content matching of one rule: byte search, and a chain of contents matched greedily. */
module RuleMatch {
  import opened Machine

  datatype Buffer = Raw | HttpMethod | HttpUri | HttpHeader | DnsQuery

  datatype Content = Content(pattern: seq<byte>, buffer: Buffer, nocase: bool, offset: Option<uint32>,
                             distance: Option<uint32>, depth: Option<uint32>, within: Option<uint32>)

  // A buffer may be absent, which is not the same as empty.
  type Buffers = Buffer -> Option<seq<byte>>

  // Where the last content of each buffer ended.
  type Ends = Buffer -> nat

  function Fold(b: byte, nocase: bool): byte {
    if nocase && 65 <= b <= 90 then b + 32 else b
  }

  predicate MatchAt(hay: seq<byte>, i: nat, needle: seq<byte>, nocase: bool) {
    && i + |needle| <= |hay|
    && forall j :: 0 <= j < |needle| ==> Fold(hay[i + j], nocase) == Fold(needle[j], nocase)
  }

  // What a search over n bytes of a buffer comes to: it can be told to look at more bytes
  // than there are.
  datatype Outcome = Hit(at: nat) | Miss | Astray

  predicate MatchWithin(hay: seq<byte>, n: nat, i: nat, needle: seq<byte>, nocase: bool) {
    i + |needle| <= n && MatchAt(hay, i, needle, nocase)
  }

  // Leftmost match of the needle: two nested loops over n bytes.
  method MemFind(hay: seq<byte>, n: nat, needle: seq<byte>, nocase: bool) returns (r: Outcome)
    requires n <= |hay| || |hay| + |needle| <= n
    ensures needle == [] ==> r == Miss
    ensures r.Hit? ==> MatchWithin(hay, n, r.at, needle, nocase)
    ensures needle != [] ==> forall i: nat | MatchWithin(hay, n, i, needle, nocase) :: r.Hit? && r.at <= i
    ensures r == Astray <==> needle != [] && |hay| < n && forall i: nat :: !MatchWithin(hay, n, i, needle, nocase)
  {
    hide Fold;
    if |needle| == 0 || n < |needle| {
      return Miss;
    }
    var i := 0;
    while i + |needle| <= n
      invariant i <= |hay|
      invariant forall k: nat :: k < i ==> !MatchWithin(hay, n, k, needle, nocase)
    {
      var j := 0;
      while j < |needle|
        invariant 0 <= j <= |needle| && i + j <= |hay|
        invariant forall k :: 0 <= k < j ==> Fold(hay[i + k], nocase) == Fold(needle[k], nocase)
      {
        if i + j == |hay| {
          return Astray;
        }
        if Fold(hay[i + j], nocase) != Fold(needle[j], nocase) {
          break;
        }
        j := j + 1;
      }
      if j == |needle| {
        return Hit(i);
      }
      i := i + 1;
    }
    r := Miss;
  }

  // ---- what a rule asks for

  // The least position a content may begin at, given where the last one ended.
  function Start(c: Content, prevEnd: nat): nat {
    if c.distance.Some? then prevEnd + c.distance.value
    else if c.offset.Some? then c.offset.value
    else prevEnd
  }

  // The bytes beyond this are not looked at.
  function Limit(c: Content, len: nat, prevEnd: nat): nat {
    var limit := if c.within.Some? then Min(len, prevEnd + c.within.value) else len;
    if c.depth.Some? then Min(limit, (if c.offset.Some? then c.offset.value else 0) + c.depth.value) else limit
  }

  predicate Fits(c: Content, buf: seq<byte>, prevEnd: nat, pos: nat) {
    && Start(c, prevEnd) <= pos && pos + |c.pattern| <= Limit(c, |buf|, prevEnd)
    && MatchAt(buf, pos, c.pattern, c.nocase)
  }

  function Ended(ends: Ends, c: Content, pos: nat): Ends {
    b => if b == c.buffer then pos + |c.pattern| else ends(b)
  }

  // Positions for all contents, in order, each respecting the one before in its buffer.
  predicate Placed(cs: seq<Content>, bufs: Buffers, ends: Ends, pos: seq<nat>)
    requires |pos| == |cs|
  {
    cs != [] ==>
      && bufs(cs[0].buffer).Some?
      && Fits(cs[0], bufs(cs[0].buffer).value, ends(cs[0].buffer), pos[0])
      && Placed(cs[1..], bufs, Ended(ends, cs[0], pos[0]), pos[1..])
  }

  ghost predicate Satisfiable(cs: seq<Content>, bufs: Buffers, ends: Ends) {
    exists pos: seq<nat> :: |pos| == |cs| && Placed(cs, bufs, ends, pos)
  }

  // ---- how it is matched

  function LeftmostFrom(c: Content, buf: seq<byte>, prevEnd: nat, pos: nat): (r: Option<nat>)
    ensures r.Some? ==> pos <= r.value && Fits(c, buf, prevEnd, r.value)
    ensures forall k: nat :: pos <= k && Fits(c, buf, prevEnd, k) ==> r.Some? && r.value <= k
    decreases |buf| - pos
  {
    if pos > |buf| then None
    else if Fits(c, buf, prevEnd, pos) then Some(pos)
    else LeftmostFrom(c, buf, prevEnd, pos + 1)
  }

  // Every content in turn, as far left as it fits.
  predicate Greedy(cs: seq<Content>, bufs: Buffers, ends: Ends) {
    if cs == [] then true
    else if bufs(cs[0].buffer) == None then false
    else
      match LeftmostFrom(cs[0], bufs(cs[0].buffer).value, ends(cs[0].buffer), 0)
      case None => false
      case Some(pos) => Greedy(cs[1..], bufs, Ended(ends, cs[0], pos))
  }

  lemma MatchInSlice(buf: seq<byte>, start: nat, limit: nat, i: nat, needle: seq<byte>, nocase: bool)
    requires start <= limit <= |buf|
    ensures MatchAt(buf[start..limit], i, needle, nocase) <==>
            start + i + |needle| <= limit && MatchAt(buf, start + i, needle, nocase)
  {
    if start + i + |needle| <= limit {
      forall j | 0 <= j < |needle|
        ensures Fold(buf[start..limit][i + j], nocase) == Fold(needle[j], nocase) <==>
                Fold(buf[start + i + j], nocase) == Fold(needle[j], nocase)
      {
        assert buf[start..limit][i + j] == buf[start + i + j];
      }
    }
  }

  // ---- where the limit lies before the start

  // What the unsigned difference of two sizes is on a 64-bit machine.
  function Difference(a: nat, b: nat): nat {
    (a - b) % TWO_64
  }

  // The search begins inside the buffer and is to end before it begins.
  predicate Overruns(c: Content, len: nat, prevEnd: nat) {
    Start(c, prevEnd) <= len && |c.pattern| <= Limit(c, len, prevEnd) < Start(c, prevEnd)
  }

  // The content without its limits, to be found at start or later.
  function Unlimited(c: Content): Content {
    c.(depth := None, within := None)
  }

  // What looking for one content comes to: the leftmost fit; or, where the limit lies
  // before the start, the leftmost match beyond all limits, or reads beyond the buffer.
  function Look(c: Content, buf: seq<byte>, prevEnd: nat): Outcome {
    if Overruns(c, |buf|, prevEnd) then
      match LeftmostFrom(Unlimited(c), buf, prevEnd, 0)
      case None => Astray
      case Some(pos) => Hit(pos)
    else
      match LeftmostFrom(c, buf, prevEnd, 0)
      case None => Miss
      case Some(pos) => Hit(pos)
  }

  // The outcome is what the content means exactly when the limit does not lie before the
  // start; there it is never a miss although nothing fits.
  lemma LookRightIff(c: Content, buf: seq<byte>, prevEnd: nat)
    ensures
      var meant := match LeftmostFrom(c, buf, prevEnd, 0) case None => Miss case Some(pos) => Hit(pos);
      Look(c, buf, prevEnd) == meant <==> !Overruns(c, |buf|, prevEnd)
  {
    if Overruns(c, |buf|, prevEnd) {
      assert forall k: nat :: !Fits(c, buf, prevEnd, k);
    }
  }

  // The bytes searched reach past the buffer exactly when the limit lies before the start.
  lemma OverrunIff(c: Content, len: nat, prevEnd: nat)
    requires len < TWO_64 / 2 && prevEnd <= len && |c.pattern| < TWO_64 / 2
    ensures
      var (start, n) := (Start(c, prevEnd), Difference(Limit(c, len, prevEnd), Start(c, prevEnd)));
      (start <= len && |c.pattern| <= Limit(c, len, prevEnd) && |c.pattern| <= n && len < start + n)
      <==> Overruns(c, len, prevEnd)
  {
  }

  // The contents whose limit can lie before their start.
  predicate CanOverrun(c: Content) {
    var reach := (if c.offset.Some? then c.offset.value else 0) + if c.depth.Some? then c.depth.value else 0;
    if c.distance.Some? then
      if c.depth.Some? then |c.pattern| <= reach else c.within.Some? && c.within.value < c.distance.value
    else if c.offset.Some? then
      c.within.Some? && c.within.value < c.offset.value && |c.pattern| < c.offset.value
    else c.depth.Some? && |c.pattern| <= c.depth.value
  }

  // A rule's author can tell: a content overruns some buffer after some match exactly when
  // depth is given without offset, or within or depth fall short of distance or offset.
  lemma CanOverrunIff(c: Content)
    ensures (exists len: nat, prevEnd: nat :: prevEnd <= len && Overruns(c, len, prevEnd)) <==> CanOverrun(c)
  {
    if CanOverrun(c) {
      var reach := (if c.offset.Some? then c.offset.value else 0) + if c.depth.Some? then c.depth.value else 0;
      var prevEnd := if c.distance == None && c.offset.Some? then c.offset.value - 1 - c.within.value
                     else reach + |c.pattern| + 1;
      var len := Max(Start(c, prevEnd), prevEnd);
      assert Overruns(c, len, prevEnd);
    }
  }

  // `depth:5` alone, after a content of the same buffer that ended at 11: the search is to
  // end six bytes before it begins. It finds a later match all the same, or leaves the buffer.
  lemma DepthAlone()
    ensures
      var c := Content([7], Raw, false, None, None, Some(5), None);
      && Start(c, 11) == 11 && Limit(c, 20, 11) == 5 && Overruns(c, 20, 11)
      && Look(c, seq(20, _ => 0), 11) == Astray
      && Look(c, seq(19, _ => 0) + [7], 11) == Hit(19)
  {
    var c := Content([7], Raw, false, None, None, Some(5), None);
    var none, one: seq<byte> := seq(20, _ => 0), seq(19, _ => 0) + [7];
    forall k: nat ensures !MatchAt(none, k, [7], false) && (MatchAt(one, k, [7], false) <==> k == 19) {
      MatchOfOne(none, k, 7);
      MatchOfOne(one, k, 7);
    }
    assert Fits(Unlimited(c), one, 11, 19);
    assert forall k: nat :: k < 19 ==> !Fits(Unlimited(c), one, 11, k);
  }

  lemma MatchOfOne(hay: seq<byte>, k: nat, x: byte)
    ensures MatchAt(hay, k, [x], false) <==> k < |hay| && hay[k] == x
  {
    if MatchAt(hay, k, [x], false) {
      assert Fold(hay[k + 0], false) == Fold([x][0], false);
    }
  }

  // ---- the search itself

  // One content: search its buffer from start on.
  method ContentMatches(buf: seq<byte>, c: Content, prevEnd: nat) returns (r: Outcome)
    requires c.pattern != [] && prevEnd <= |buf| && |buf| < TWO_64 / 2 && |c.pattern| < TWO_64 / 2
    ensures r == Look(c, buf, prevEnd)
  {
    hide MatchAt, LeftmostFrom;
    var start := Start(c, prevEnd);
    var limit := Limit(c, |buf|, prevEnd);
    if start > |buf| || |c.pattern| > limit || Difference(limit, start) < |c.pattern| {
      NoFit(c, buf, prevEnd);
      return Miss;
    }
    var n := Difference(limit, start);
    DifferenceIs(limit, start);
    var found := MemFind(buf[start..], n, c.pattern, c.nocase);
    FoundIsLook(c, buf, prevEnd, found);
    r := if found.Hit? then Hit(start + found.at) else found;
  }

  lemma DifferenceIs(limit: nat, start: nat)
    requires limit < TWO_64 && start < TWO_64
    ensures Difference(limit, start) == if start <= limit then limit - start else TWO_64 + limit - start
  {
  }

  lemma NoFit(c: Content, buf: seq<byte>, prevEnd: nat)
    requires c.pattern != [] && |buf| < TWO_64 / 2 && |c.pattern| < TWO_64 / 2
    requires var (start, limit) := (Start(c, prevEnd), Limit(c, |buf|, prevEnd));
             start > |buf| || |c.pattern| > limit || Difference(limit, start) < |c.pattern|
    ensures Look(c, buf, prevEnd) == Miss
  {
    hide MatchAt;
    var start, limit := Start(c, prevEnd), Limit(c, |buf|, prevEnd);
    if start < TWO_64 {
      DifferenceIs(limit, start);
    }
    assert forall k: nat :: !Fits(c, buf, prevEnd, k);
  }

  // What the byte search finds is what looking for the content comes to.
  lemma FoundIsLook(c: Content, buf: seq<byte>, prevEnd: nat, found: Outcome)
    requires c.pattern != [] && Start(c, prevEnd) <= |buf| < TWO_64 / 2 && |c.pattern| <= Limit(c, |buf|, prevEnd)
    requires
      var (hay, n) := (buf[Start(c, prevEnd)..], Difference(Limit(c, |buf|, prevEnd), Start(c, prevEnd)));
      && (found.Hit? ==> MatchWithin(hay, n, found.at, c.pattern, c.nocase))
      && (forall i: nat | MatchWithin(hay, n, i, c.pattern, c.nocase) :: found.Hit? && found.at <= i)
      && (found == Astray <==> |hay| < n && forall i: nat :: !MatchWithin(hay, n, i, c.pattern, c.nocase))
    ensures Look(c, buf, prevEnd) == if found.Hit? then Hit(Start(c, prevEnd) + found.at) else found
  {
    hide MatchAt, LeftmostFrom;
    var start, limit := Start(c, prevEnd), Limit(c, |buf|, prevEnd);
    var n, d := Difference(limit, start), if Overruns(c, |buf|, prevEnd) then Unlimited(c) else c;
    DifferenceIs(limit, start);
    forall pos: nat
      ensures Fits(d, buf, prevEnd, pos) <==>
                start <= pos && MatchWithin(buf[start..], n, pos - start, c.pattern, c.nocase)
    {
      if start <= pos {
        MatchBehind(buf, start, pos - start, c.pattern, c.nocase);
      }
    }
    var leftmost := LeftmostFrom(d, buf, prevEnd, 0);
    if found.Hit? {
      assert Fits(d, buf, prevEnd, start + found.at);
    }
  }

  lemma MatchBehind(buf: seq<byte>, start: nat, i: nat, needle: seq<byte>, nocase: bool)
    requires start <= |buf|
    ensures MatchAt(buf[start..], i, needle, nocase) <==> MatchAt(buf, start + i, needle, nocase)
    ensures MatchAt(buf, start + i, needle, nocase) ==> start + i + |needle| <= |buf|
  {
    MatchInSlice(buf, start, |buf|, i, needle, nocase);
    assert buf[start..|buf|] == buf[start..];
  }

  // ---- all contents of a rule

  datatype Verdict = All | NotAll | Lost

  // Every content in turn, as it is looked for.
  function Chain(cs: seq<Content>, bufs: Buffers, ends: Ends): Verdict {
    if cs == [] then All
    else if bufs(cs[0].buffer) == None then NotAll
    else
      match Look(cs[0], bufs(cs[0].buffer).value, ends(cs[0].buffer))
      case Miss => NotAll
      case Astray => Lost
      case Hit(pos) => Chain(cs[1..], bufs, Ended(ends, cs[0], pos))
  }

  // No content has its limit before its start where greedy matching comes to it.
  predicate NoOverrun(cs: seq<Content>, bufs: Buffers, ends: Ends) {
    cs == [] || bufs(cs[0].buffer) == None ||
    var (buf, end) := (bufs(cs[0].buffer).value, ends(cs[0].buffer));
    && !Overruns(cs[0], |buf|, end)
    && match LeftmostFrom(cs[0], buf, end, 0)
       case None => true
       case Some(pos) => NoOverrun(cs[1..], bufs, Ended(ends, cs[0], pos))
  }

  lemma {:induction false} ChainIsGreedy(cs: seq<Content>, bufs: Buffers, ends: Ends)
    requires NoOverrun(cs, bufs, ends)
    ensures Chain(cs, bufs, ends) == if Greedy(cs, bufs, ends) then All else NotAll
  {
    hide LeftmostFrom, Overruns;
    if cs != [] && bufs(cs[0].buffer).Some? {
      var first := LeftmostFrom(cs[0], bufs(cs[0].buffer).value, ends(cs[0].buffer), 0);
      if first.Some? {
        ChainIsGreedy(cs[1..], bufs, Ended(ends, cs[0], first.value));
      }
    }
  }

  // Contents that can never overrun do not.
  lemma {:induction false} SafeContents(cs: seq<Content>, bufs: Buffers, ends: Ends)
    requires forall i :: 0 <= i < |cs| ==> !CanOverrun(cs[i])
    requires forall b: Buffer :: bufs(b).Some? ==> ends(b) <= |bufs(b).value|
    ensures NoOverrun(cs, bufs, ends)
  {
    hide LeftmostFrom, Overruns, CanOverrun, Fits;
    if cs != [] && bufs(cs[0].buffer).Some? {
      var (buf, end) := (bufs(cs[0].buffer).value, ends(cs[0].buffer));
      CanOverrunIff(cs[0]);
      assert !Overruns(cs[0], |buf|, end);
      var first := LeftmostFrom(cs[0], buf, end, 0);
      if first.Some? {
        LookInside(cs[0], buf, end);
        SafeContents(cs[1..], bufs, Ended(ends, cs[0], first.value));
      }
    }
  }

  predicate Sizes(cs: seq<Content>, bufs: Buffers) {
    && (forall i :: 0 <= i < |cs| ==> 0 < |cs[i].pattern| < TWO_64 / 2)
    && (forall b: Buffer :: bufs(b).Some? ==> |bufs(b).value| < TWO_64 / 2)
  }

  lemma LookInside(c: Content, buf: seq<byte>, prevEnd: nat)
    requires Look(c, buf, prevEnd).Hit?
    ensures Look(c, buf, prevEnd).at + |c.pattern| <= |buf|
  {
  }

  // The contents of a rule, one by one. The parser accepts no empty pattern.
  method ContentsMatch(cs: seq<Content>, bufs: Buffers) returns (r: Verdict)
    requires Sizes(cs, bufs)
    ensures r == Chain(cs, bufs, _ => 0)
  {
    hide Look;
    var ends: Ends := _ => 0;
    var i := 0;
    assert cs[0..] == cs;
    while i < |cs|
      invariant 0 <= i <= |cs|
      invariant forall b: Buffer :: bufs(b).Some? ==> ends(b) <= |bufs(b).value|
      invariant Chain(cs[i..], bufs, ends) == Chain(cs, bufs, _ => 0)
    {
      var c := cs[i];
      var buf := bufs(c.buffer);
      if buf == None {
        return NotAll;
      }
      var found := ContentMatches(buf.value, c, ends(c.buffer));
      if found == Miss {
        return NotAll;
      }
      if found == Astray {
        return Lost;
      }
      LookInside(c, buf.value, ends(c.buffer));
      ends := Ended(ends, c, found.at);
      assert cs[i..][1..] == cs[i + 1..];
      i := i + 1;
    }
    r := All;
  }

  // ---- leftmost loses nothing

  ghost predicate NoLater(p: Ends, q: Ends) {
    forall b: Buffer :: p(b) <= q(b)
  }

  // No `within` after an earlier content of the same buffer.
  predicate NoLateWithin(cs: seq<Content>) {
    forall i, j :: 0 <= i < j < |cs| && cs[i].buffer == cs[j].buffer ==> cs[j].within == None
  }

  // The two agree where a `within` counts from.
  ghost predicate SameForWithin(cs: seq<Content>, p: Ends, q: Ends) {
    forall i :: 0 <= i < |cs| && cs[i].within.Some? ==> p(cs[i].buffer) == q(cs[i].buffer)
  }

  // Ending no later never loses a way to place the rest.
  lemma {:induction false} EarlierIsNoWorse(cs: seq<Content>, bufs: Buffers, p: Ends, q: Ends, pos: seq<nat>)
    requires NoLater(p, q) && SameForWithin(cs, p, q) && |pos| == |cs| && Placed(cs, bufs, q, pos)
    ensures Placed(cs, bufs, p, pos)
  {
    if cs != [] {
      assert cs[0].within.Some? ==> p(cs[0].buffer) == q(cs[0].buffer);
      assert forall i :: 0 <= i < |cs[1..]| ==> cs[1..][i] == cs[i + 1];
      EarlierIsNoWorse(cs[1..], bufs, Ended(p, cs[0], pos[0]), Ended(q, cs[0], pos[0]), pos[1..]);
    }
  }

  // Greedy matching finds positions when there are any.
  lemma {:induction false} GreedyComplete(cs: seq<Content>, bufs: Buffers, ends: Ends)
    requires NoLateWithin(cs)
    ensures Greedy(cs, bufs, ends) <==> Satisfiable(cs, bufs, ends)
  {
    hide Fits, LeftmostFrom;
    if cs == [] {
      assert Placed(cs, bufs, ends, []);
    } else if bufs(cs[0].buffer).Some? {
      var first := LeftmostFrom(cs[0], bufs(cs[0].buffer).value, ends(cs[0].buffer), 0);
      if first.Some? {
        GreedyComplete(cs[1..], bufs, Ended(ends, cs[0], first.value));
        LeftmostKeeps(cs, bufs, ends, first.value);
      }
    }
  }

  // Taking the leftmost fit for the first content, the rest can be placed if anything could.
  lemma LeftmostKeeps(cs: seq<Content>, bufs: Buffers, ends: Ends, first: nat)
    requires NoLateWithin(cs) && cs != [] && bufs(cs[0].buffer).Some?
    requires LeftmostFrom(cs[0], bufs(cs[0].buffer).value, ends(cs[0].buffer), 0) == Some(first)
    ensures Satisfiable(cs, bufs, ends) <==> Satisfiable(cs[1..], bufs, Ended(ends, cs[0], first))
  {
    hide Fits, LeftmostFrom;
    if pos: seq<nat> :| |pos| == |cs| && Placed(cs, bufs, ends, pos) {
      assert forall i :: 0 <= i < |cs[1..]| ==> cs[1..][i] == cs[i + 1];
      EarlierIsNoWorse(cs[1..], bufs, Ended(ends, cs[0], first), Ended(ends, cs[0], pos[0]), pos[1..]);
      assert |pos[1..]| == |cs[1..]|;
    }
    if rest: seq<nat> :| |rest| == |cs[1..]| && Placed(cs[1..], bufs, Ended(ends, cs[0], first), rest) {
      assert ([first] + rest)[1..] == rest;
      assert Placed(cs, bufs, ends, [first] + rest);
    }
  }

  // What greedy matching finds is always a way to place the contents, `within` or not.
  lemma {:induction false} GreedySound(cs: seq<Content>, bufs: Buffers, ends: Ends)
    requires Greedy(cs, bufs, ends)
    ensures Satisfiable(cs, bufs, ends)
  {
    hide Fits, LeftmostFrom;
    if cs == [] {
      assert Placed(cs, bufs, ends, []);
    } else {
      var first := LeftmostFrom(cs[0], bufs(cs[0].buffer).value, ends(cs[0].buffer), 0).value;
      GreedySound(cs[1..], bufs, Ended(ends, cs[0], first));
      var rest: seq<nat> :| |rest| == |cs[1..]| && Placed(cs[1..], bufs, Ended(ends, cs[0], first), rest);
      assert ([first] + rest)[1..] == rest;
      assert Placed(cs, bufs, ends, [first] + rest);
    }
  }

  // With `within` it can fail where positions exist: the leftmost first content may leave
  // the second out of reach.
  lemma LeftmostCanFail()
    ensures
      var a := Content([1], Raw, false, None, None, None, None);
      var b := Content([2], Raw, false, None, None, None, Some(1));
      var bufs: Buffers := _ => Some([1, 0, 1, 2]);
      Satisfiable([a, b], bufs, _ => 0) && NoOverrun([a, b], bufs, _ => 0) && !Greedy([a, b], bufs, _ => 0)
  {
    var a := Content([1], Raw, false, None, None, None, None);
    var b := Content([2], Raw, false, None, None, None, Some(1));
    var buf: seq<byte> := [1, 0, 1, 2];
    var bufs: Buffers := _ => Some(buf);
    var zero: Ends := _ => 0;
    assert Fits(a, buf, 0, 2) && Fits(b, buf, 3, 3);
    assert [a, b][1..] == [b] && [2, 3][1..] == [3] && [b][1..] == [] && [3][1..] == [];
    assert Placed([b], bufs, Ended(zero, a, 2), [3]);
    assert Placed([a, b], bufs, zero, [2, 3]);
    assert Fits(a, buf, 0, 0) && LeftmostFrom(a, buf, 0, 0) == Some(0);
    assert forall k: nat :: Fits(b, buf, 1, k) ==> k == 1 && buf[k + 0] == 2;
    assert LeftmostFrom(b, buf, 1, 0) == None;
    assert Ended(zero, a, 0)(Raw) == 1;
    assert !Greedy([b], bufs, Ended(zero, a, 0));
  }

  // ---- what a content asks for, option by option

  // The same letter in either case, of the 26 that have cases, or the same byte.
  predicate SameButCase(x: byte, y: byte) {
    x == y || (65 <= x <= 90 && y as int == x as int + 32) || (65 <= y <= 90 && x as int == y as int + 32)
  }

  // With nocase a pattern stands wherever the bytes differ from it in the case of letters only,
  // without it wherever they are the same.
  lemma MatchIff(hay: seq<byte>, i: nat, needle: seq<byte>, nocase: bool)
    requires i + |needle| <= |hay|
    ensures !nocase ==> (MatchAt(hay, i, needle, nocase) <==> hay[i..i + |needle|] == needle)
    ensures nocase ==> (MatchAt(hay, i, needle, nocase) <==>
              forall j :: 0 <= j < |needle| ==> SameButCase(hay[i..i + |needle|][j], needle[j]))
  {
    var part := hay[i..i + |needle|];
    assert forall j :: 0 <= j < |needle| ==> part[j] == hay[i + j];
    forall j | 0 <= j < |needle|
      ensures Fold(part[j], true) == Fold(needle[j], true) <==> SameButCase(part[j], needle[j])
    {
    }
  }

  // Where a content may stand: not before distance behind the last content of its buffer, or
  // else not before offset, or else not before the last content's end; it ends within `within`
  // of that end, within depth of offset, and within the buffer.
  lemma FitsIff(c: Content, buf: seq<byte>, prevEnd: nat, pos: nat)
    ensures Fits(c, buf, prevEnd, pos) <==>
              && MatchAt(buf, pos, c.pattern, c.nocase)
              && (c.distance.Some? ==> prevEnd + c.distance.value <= pos)
              && (c.distance == None && c.offset.Some? ==> c.offset.value <= pos)
              && (c.distance == None && c.offset == None ==> prevEnd <= pos)
              && (c.within.Some? ==> pos + |c.pattern| <= prevEnd + c.within.value)
              && (c.depth.Some? && c.offset.Some? ==> pos + |c.pattern| <= c.offset.value + c.depth.value)
              && (c.depth.Some? && c.offset == None ==> pos + |c.pattern| <= c.depth.value)
  {
  }
}
