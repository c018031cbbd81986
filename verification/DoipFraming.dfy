/** Cutting DoIP messages out of a TCP stream by the length in their headers. */
module DoipFraming {
  import opened Machine
  import opened Chunks
  import opened StreamWindow

  const HEADER := 8
  const MAX_PAYLOAD := 16 * 1024 * 1024

  function PayloadLength(m: seq<byte>): nat
    requires HEADER <= |m|
  {
    m[4] as int * 0x100_0000 + m[5] as int * 0x1_0000 + m[6] as int * 0x100 + m[7]
  }

  // The messages at the front of the bytes, what is left behind them, and whether a
  // header with an implausible length made the rest worthless.
  datatype Frames = Frames(msgs: seq<seq<byte>>, rest: seq<byte>, bad: bool)

  function Cut(s: seq<byte>): (f: Frames)
    ensures f.bad ==> f.rest == []
    decreases |s|
  {
    if |s| < HEADER then Frames([], s, false)
    else if MAX_PAYLOAD < PayloadLength(s) then Frames([], [], true)
    else
      var n := HEADER + PayloadLength(s);
      if |s| < n then Frames([], s, false)
      else Then([s[..n]], Cut(s[n..]))
  }

  function Then(msgs: seq<seq<byte>>, f: Frames): (r: Frames)
    ensures r.rest == f.rest && r.bad == f.bad && r.msgs == msgs + f.msgs
  {
    f.(msgs := msgs + f.msgs)
  }

  lemma ThenThen(a: seq<seq<byte>>, b: seq<seq<byte>>, f: Frames)
    ensures Then(a, Then(b, f)) == Then(a + b, f) && Then([], f) == f
  {
    assert a + (b + f.msgs) == (a + b) + f.msgs && [] + f.msgs == f.msgs;
  }

  // Every header met while cutting announces a message that fits the accumulator.
  predicate AllFit(s: seq<byte>, cap: nat)
    decreases |s|
  {
    HEADER <= |s| ==>
      var n := HEADER + PayloadLength(s);
      PayloadLength(s) <= MAX_PAYLOAD && n <= cap && (n <= |s| ==> AllFit(s[n..], cap))
  }

  // The accumulator of one direction.
  class DoipStream {
    const cap: nat
    var acc: seq<byte>

    constructor (cap: nat)
      ensures acc == [] && this.cap == cap
    {
      this.cap, acc := cap, [];
    }

    // Append the new bytes, inspect every message that is complete, keep at most cap bytes.
    method Feed(data: seq<byte>) returns (msgs: seq<seq<byte>>, bad: bool)
      modifies this
      ensures (msgs, bad) == (Cut(old(acc) + data).msgs, Cut(old(acc) + data).bad)
      ensures acc == Last(Cut(old(acc) + data).rest, cap)
    {
      acc := acc + data;
      var off;
      msgs, off, bad := Extract(acc);
      acc := acc[off..];
      if |acc| > cap {
        acc := acc[|acc| - cap..];
      }
    }
  }

  // The framing loop over the accumulated bytes.
  method Extract(acc: seq<byte>) returns (msgs: seq<seq<byte>>, off: nat, bad: bool)
    ensures off <= |acc| && Cut(acc) == Frames(msgs, acc[off..], bad)
  {
    hide PayloadLength, Then;
    msgs, off, bad := [], 0, false;
    assert acc[0..] == acc;
    ThenThen([], [], Cut(acc));
    while |acc| - off >= HEADER
      invariant off <= |acc| && !bad
      invariant Cut(acc) == Then(msgs, Cut(acc[off..]))
    {
      var m := acc[off..];
      var len := PayloadLength(m);
      if len > MAX_PAYLOAD {
        ThenEmpty(msgs, [], true);
        return msgs, |acc|, true;
      }
      if |acc| - off < HEADER + len {
        ThenEmpty(msgs, m, false);
        return;
      }
      assert m[HEADER + len..] == acc[off + HEADER + len..];
      ThenThen(msgs, [m[..HEADER + len]], Cut(m[HEADER + len..]));
      msgs := msgs + [m[..HEADER + len]];
      off := off + HEADER + len;
    }
    ThenEmpty(msgs, acc[off..], false);
  }

  lemma ThenEmpty(msgs: seq<seq<byte>>, rest: seq<byte>, bad: bool)
    ensures Then(msgs, Frames([], rest, bad)) == Frames(msgs, rest, bad)
  {
    assert msgs + [] == msgs;
  }

  // ---- chunks do not matter

  lemma {:induction false} FitPrefix(s: seq<byte>, t: seq<byte>, cap: nat)
    requires AllFit(s + t, cap)
    ensures AllFit(s, cap) && !Cut(s).bad && (HEADER <= cap ==> |Cut(s).rest| <= cap)
    decreases |s|
  {
    if HEADER <= |s| {
      var n := HEADER + PayloadLength(s);
      assert PayloadLength(s + t) == PayloadLength(s);
      if n <= |s| {
        assert (s + t)[n..] == s[n..] + t;
        FitPrefix(s[n..], t, cap);
      }
    }
  }

  lemma HeadStays(s: seq<byte>, t: seq<byte>)
    requires HEADER <= |s|
    ensures PayloadLength(s + t) == PayloadLength(s)
    ensures HEADER + PayloadLength(s) <= |s| ==>
      var n := HEADER + PayloadLength(s);
      (s + t)[n..] == s[n..] + t && (s + t)[..n] == s[..n]
  {
    hide PayloadLength;
    SameHeader(s, t);
  }

  lemma SameHeader(s: seq<byte>, t: seq<byte>)
    requires HEADER <= |s|
    ensures PayloadLength(s + t) == PayloadLength(s)
  {
  }

  // Cutting what is left together with what comes next continues the cut.
  lemma {:induction false} CutContinues(s: seq<byte>, t: seq<byte>)
    requires !Cut(s).bad
    ensures Cut(s + t) == Then(Cut(s).msgs, Cut(Cut(s).rest + t))
    decreases |s|
  {
    hide PayloadLength, Then;
    if |s| < HEADER || |s| < HEADER + PayloadLength(s) {
      ThenThen([], [], Cut(s + t));
    } else {
      var n := HEADER + PayloadLength(s);
      HeadStays(s, t);
      CutContinues(s[n..], t);
      ThenThen([s[..n]], Cut(s[n..]).msgs, Cut(Cut(s).rest + t));
    }
  }

  // Feeding a stream in chunks: however it is cut, the messages inspected are those of
  // the whole stream, when each fits the accumulator.
  method FeedAll(cap: nat, chunks: seq<seq<byte>>) returns (msgs: seq<seq<byte>>, acc: seq<byte>)
    requires HEADER <= cap && AllFit(Join(chunks), cap)
    ensures msgs == Cut(Join(chunks)).msgs && acc == Cut(Join(chunks)).rest
  {
    hide Cut, AllFit, Last;
    var d := new DoipStream(cap);
    msgs := [];
    var i := 0;
    CutNothing();
    while i < |chunks|
      invariant 0 <= i <= |chunks| && fresh(d) && d.cap == cap
      invariant msgs == Cut(Join(chunks[..i])).msgs && d.acc == Cut(Join(chunks[..i])).rest
    {
      FedSoFar(chunks, i, cap);
      var more, bad := d.Feed(chunks[i]);
      msgs := msgs + more;
      i := i + 1;
    }
    assert chunks[..i] == chunks;
    acc := d.acc;
  }

  lemma CutNothing()
    ensures Cut([]) == Frames([], [], false)
  {
  }

  lemma FedSoFar(chunks: seq<seq<byte>>, i: nat, cap: nat)
    requires HEADER <= cap && AllFit(Join(chunks), cap) && i < |chunks|
    ensures
      var (s, t) := (Join(chunks[..i]), chunks[i]);
      var g := Cut(Cut(s).rest + t);
      && Cut(Join(chunks[..i + 1])) == Then(Cut(s).msgs, g)
      && Last(g.rest, cap) == g.rest && !g.bad
  {
    hide Cut, AllFit, Join;
    var s, t := Join(chunks[..i]), chunks[i];
    JoinNext(chunks, i);
    JoinPrefix(chunks, i);
    JoinPrefix(chunks, i + 1);
    var whole := Join(chunks);
    assert whole == s + whole[|s|..] && whole == (s + t) + whole[|s + t|..];
    FitPrefix(s, whole[|s|..], cap);
    FitPrefix(s + t, whole[|s + t|..], cap);
    CutContinues(s, t);
  }

  // ---- messages as they are sent

  // Version, inverse version and payload type, the payload's length, and the payload.
  datatype Message = Message(head: seq<byte>, payload: seq<byte>)

  predicate Sendable(m: Message) {
    |m.head| == 4 && |m.payload| <= 16 * 1024 * 1024
  }

  function Sent(m: Message): (s: seq<byte>)
    requires Sendable(m)
    ensures |s| == 8 + |m.payload|
  {
    m.head + Be32(|m.payload|) + m.payload
  }

  function SentAll(ms: seq<Message>): (msgs: seq<seq<byte>>)
    requires forall i :: 0 <= i < |ms| ==> Sendable(ms[i])
    ensures |msgs| == |ms|
  {
    seq(|ms|, i requires 0 <= i < |ms| => Sent(ms[i]))
  }

  lemma SentLength(m: Message, behind: seq<byte>)
    requires Sendable(m)
    ensures PayloadLength(Sent(m) + behind) == |m.payload|
  {
    var s, n := Sent(m) + behind, |m.payload|;
    assert s[4..8] == Be32(n);
    assert s[4] == s[4..8][0] && s[5] == s[4..8][1] && s[6] == s[4..8][2] && s[7] == s[4..8][3];
    assert n == n / 0x1_0000 * 0x1_0000 + n % 0x1_0000;
  }

  // Messages sent one behind the other are cut apart again, and an unfinished one is left.
  lemma {:induction false} FramesSent(ms: seq<Message>, last: Message, k: nat)
    requires (forall i :: 0 <= i < |ms| ==> Sendable(ms[i])) && Sendable(last) && k < |Sent(last)|
    ensures Cut(Together(ms) + Sent(last)[..k]) == Frames(SentAll(ms), Sent(last)[..k], false)
  {
    hide PayloadLength, Sent, Sendable;
    if ms == [] {
      assert Together(ms) + Sent(last)[..k] == Sent(last)[..k];
      Unfinished(last, k);
    } else {
      var rest := Together(ms[1..]) + Sent(last)[..k];
      FramesSent(ms[1..], last, k);
      assert Together(ms) + Sent(last)[..k] == Sent(ms[0]) + rest;
      CutOne(ms[0], rest);
      assert SentAll(ms) == [Sent(ms[0])] + SentAll(ms[1..]);
    }
  }

  function Together(ms: seq<Message>): seq<byte>
    requires forall i :: 0 <= i < |ms| ==> Sendable(ms[i])
  {
    if ms == [] then [] else Sent(ms[0]) + Together(ms[1..])
  }

  lemma CutOne(m: Message, rest: seq<byte>)
    requires Sendable(m)
    ensures Cut(Sent(m) + rest) == Then([Sent(m)], Cut(rest))
  {
    hide PayloadLength, Then, Sent;
    SentLength(m, rest);
    var s := Sent(m) + rest;
    assert s[..|Sent(m)|] == Sent(m) && s[|Sent(m)|..] == rest;
  }

  lemma Unfinished(m: Message, k: nat)
    requires Sendable(m) && k < |Sent(m)|
    ensures Cut(Sent(m)[..k]) == Frames([], Sent(m)[..k], false)
  {
    hide PayloadLength, Sent;
    if HEADER <= k {
      assert Sent(m) + [] == Sent(m);
      SentLength(m, []);
      var s := Sent(m)[..k];
      assert Sent(m) == s + Sent(m)[k..];
      SameHeader(s, Sent(m)[k..]);
    }
  }

  // A header that announces more than 16 MiB ends the framing.
  lemma Implausible(head: seq<byte>, length: uint32, behind: seq<byte>)
    requires |head| == 4 && 16 * 1024 * 1024 < length
    ensures Cut(head + Be32(length) + behind) == Frames([], [], true)
  {
    var s := head + Be32(length) + behind;
    assert s[4..8] == Be32(length);
    assert s[4] == s[4..8][0] && s[5] == s[4..8][1] && s[6] == s[4..8][2] && s[7] == s[4..8][3];
    assert length == length / 0x1_0000 * 0x1_0000 + length % 0x1_0000;
  }
}
