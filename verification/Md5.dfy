/** MD5 as RFC 1321 defines it, and the streaming computation of it. */
module Md5 {
  import opened Machine
  import opened BlockHash
  import opened Chunks

  // The registers of section 3.3.
  datatype State = State(a: bv32, b: bv32, c: bv32, d: bv32)

  const INITIAL := State(0x67452301, 0xefcdab89, 0x98badcfe, 0x10325476)

  // Section 3.4: the table T, and the shift of every step.
  const T: seq<bv32> := T0 + T1 + T2 + T3

  const T0: seq<bv32> := [
    0xd76aa478, 0xe8c7b756, 0x242070db, 0xc1bdceee, 0xf57c0faf, 0x4787c62a, 0xa8304613, 0xfd469501,
    0x698098d8, 0x8b44f7af, 0xffff5bb1, 0x895cd7be, 0x6b901122, 0xfd987193, 0xa679438e, 0x49b40821]

  const T1: seq<bv32> := [
    0xf61e2562, 0xc040b340, 0x265e5a51, 0xe9b6c7aa, 0xd62f105d, 0x02441453, 0xd8a1e681, 0xe7d3fbc8,
    0x21e1cde6, 0xc33707d6, 0xf4d50d87, 0x455a14ed, 0xa9e3e905, 0xfcefa3f8, 0x676f02d9, 0x8d2a4c8a]

  const T2: seq<bv32> := [
    0xfffa3942, 0x8771f681, 0x6d9d6122, 0xfde5380c, 0xa4beea44, 0x4bdecfa9, 0xf6bb4b60, 0xbebfbc70,
    0x289b7ec6, 0xeaa127fa, 0xd4ef3085, 0x04881d05, 0xd9d4d039, 0xe6db99e5, 0x1fa27cf8, 0xc4ac5665]

  const T3: seq<bv32> := [
    0xf4292244, 0x432aff97, 0xab9423a7, 0xfc93a039, 0x655b59c3, 0x8f0ccc92, 0xffeff47d, 0x85845dd1,
    0x6fa87e4f, 0xfe2ce6e0, 0xa3014314, 0x4e0811a1, 0xf7537e82, 0xbd3af235, 0x2ad7d2bb, 0xeb86d391]

  lemma SixtyFourConstants()
    ensures |T| == 64
  {
  }

  function Shift(i: nat): bv6
    requires i < 64
    ensures 0 < Shift(i) < 32
  {
    if i < 16 then Of4(i, 7, 12, 17, 22)
    else if i < 32 then Of4(i, 5, 9, 14, 20)
    else if i < 48 then Of4(i, 4, 11, 16, 23)
    else Of4(i, 6, 10, 15, 21)
  }

  function Of4(i: nat, w: bv6, x: bv6, y: bv6, z: bv6): (r: bv6)
    ensures r == w || r == x || r == y || r == z
  {
    if i % 4 == 0 then w else if i % 4 == 1 then x else if i % 4 == 2 then y else z
  }

  function Add(x: bv32, y: bv32): bv32 { x + y }

  function Rotl(x: bv32, n: bv6): bv32
    requires 0 < n < 32
  {
    (x << n) | (x >> (32 - n))
  }

  // The auxiliary functions of the four rounds.
  function F(x: bv32, y: bv32, z: bv32): bv32 { (x & y) | (!x & z) }
  function G(x: bv32, y: bv32, z: bv32): bv32 { (x & z) | (y & !z) }
  function H(x: bv32, y: bv32, z: bv32): bv32 { x ^ y ^ z }
  function I(x: bv32, y: bv32, z: bv32): bv32 { y ^ (x | !z) }

  function Aux(i: nat, x: bv32, y: bv32, z: bv32): bv32 {
    if i < 16 then F(x, y, z) else if i < 32 then G(x, y, z) else if i < 48 then H(x, y, z) else I(x, y, z)
  }

  // Which word of the block a step uses.
  function Index(i: nat): (k: nat)
    ensures k < 16
  {
    if i < 16 then i else if i < 32 then (5 * i + 1) % 16 else if i < 48 then (3 * i + 5) % 16 else 7 * i % 16
  }

  function Word(block: seq<octet>, k: nat): bv32
    requires |block| == BLOCK && k < 16
  {
    block[4 * k] as bv32 | (block[4 * k + 1] as bv32 << 8) | (block[4 * k + 2] as bv32 << 16)
    | (block[4 * k + 3] as bv32 << 24)
  }

  // One operation of the RFC, [abcd k s i]: the new value of the first register named.
  function Operation(a: bv32, b: bv32, c: bv32, d: bv32, block: seq<octet>, i: nat): bv32
    requires |block| == BLOCK && i < 64
  {
    SixtyFourConstants();
    Add(b, Rotl(Add(Add(Add(a, Aux(i, b, c, d)), T[i]), Word(block, Index(i))), Shift(i)))
  }

  // The RFC leaves the registers in place and names them in turn: [ABCD], [DABC], [CDAB], [BCDA].
  function Step(s: State, block: seq<octet>, i: nat): State
    requires |block| == BLOCK && i < 64
  {
    StepOn(s, block, i, i % 4)
  }

  function StepOn(s: State, block: seq<octet>, i: nat, r: nat): State
    requires |block| == BLOCK && i < 64
  {
    if r == 0 then s.(a := Operation(s.a, s.b, s.c, s.d, block, i))
    else if r == 1 then s.(d := Operation(s.d, s.a, s.b, s.c, block, i))
    else if r == 2 then s.(c := Operation(s.c, s.d, s.a, s.b, block, i))
    else s.(b := Operation(s.b, s.c, s.d, s.a, block, i))
  }

  function Steps(s: State, block: seq<octet>, i: nat): State
    requires |block| == BLOCK && i <= 64
  {
    if i == 0 then s else Step(Steps(s, block, i - 1), block, i - 1)
  }

  function NextHash(s: State, block: seq<octet>): State {
    if |block| != BLOCK then s
    else
      var t := Steps(s, block, 64);
      State(Add(s.a, t.a), Add(s.b, t.b), Add(s.c, t.c), Add(s.d, t.d))
  }

  function Bytes(w: bv32): seq<octet> {
    [(w & 0xFF) as octet, ((w >> 8) & 0xFF) as octet, ((w >> 16) & 0xFF) as octet, (w >> 24) as octet]
  }

  function Output(s: State): seq<octet> {
    Bytes(s.a) + Bytes(s.b) + Bytes(s.c) + Bytes(s.d)
  }

  function LengthByte(bits: bv64, i: nat): octet
    requires i < 8
  {
    ((bits >> ((8 * i) as bv7)) & 0xFF) as octet
  }

  // The 64-bit length, the least significant byte first.
  function LittleEndian(bits: bv64): (b: seq<octet>)
    ensures |b| == 8
  {
    seq(8, i requires 0 <= i < 8 => LengthByte(bits, i))
  }

  // The number of bits, as it ends the padded message.
  function LengthOf(m: seq<octet>): (b: seq<octet>)
    ensures |b| == 8
  {
    LittleEndian(BitLength(|m|) as bv64)
  }

  function Digest(m: seq<octet>): seq<octet> {
    Output(Fold(NextHash, INITIAL, Pad(m, LengthOf(m))))
  }

  // ---- one block

  // The program names the registers the same in every step and moves the values instead:
  // before step i they are moved on by i.
  function Moved(s: State, i: nat): State {
    Turned(s, i % 4)
  }

  function Turned(s: State, r: nat): State {
    if r == 0 then s
    else if r == 1 then State(s.d, s.a, s.b, s.c)
    else if r == 2 then State(s.c, s.d, s.a, s.b)
    else State(s.b, s.c, s.d, s.a)
  }

  lemma GSwapped(x: bv32, y: bv32, z: bv32)
    ensures (z & x) | (!z & y) == G(x, y, z)
  {
  }

  method AuxOf(i: nat, b: bv32, c: bv32, d: bv32) returns (f: bv32)
    ensures f == Aux(i, b, c, d)
  {
    hide F, G, H, I;
    GSwapped(b, c, d);
    if i < 16 {
      f := F(b, c, d);
    } else if i < 32 {
      f := (d & b) | (!d & c);
    } else if i < 48 {
      f := H(b, c, d);
    } else {
      f := I(b, c, d);
    }
  }

  lemma MovedStep(s: State, block: seq<octet>, i: nat)
    requires |block| == BLOCK && i < 64
    ensures
      var m := Moved(s, i);
      Moved(Step(s, block, i), i + 1) == State(m.d, Operation(m.a, m.b, m.c, m.d, block, i), m.b, m.c)
  {
    hide Turned, StepOn, Operation;
    TurnedStep(s, block, i, i % 4);
    assert (i + 1) % 4 == if i % 4 == 3 then 0 else i % 4 + 1;
  }

  lemma TurnedStep(s: State, block: seq<octet>, i: nat, r: nat)
    requires |block| == BLOCK && i < 64 && r < 4
    ensures
      var m := Turned(s, r);
      Turned(StepOn(s, block, i, r), if r == 3 then 0 else r + 1)
      == State(m.d, Operation(m.a, m.b, m.c, m.d, block, i), m.b, m.c)
  {
    hide Operation;
    if r == 0 {
      assert Turned(s, r) == s;
    } else if r == 1 {
      assert Turned(s, r) == State(s.d, s.a, s.b, s.c);
    } else if r == 2 {
      assert Turned(s, r) == State(s.c, s.d, s.a, s.b);
    } else {
      assert Turned(s, r) == State(s.b, s.c, s.d, s.a);
    }
  }

  method OneStep(m: State, block: seq<octet>, i: nat) returns (r: State)
    requires |block| == BLOCK && i < 64
    ensures r == State(m.d, Operation(m.a, m.b, m.c, m.d, block, i), m.b, m.c)
  {
    hide Aux, Add, Rotl, Word, Shift, Index, T;
    SixtyFourConstants();
    var a, b, c, d := m.a, m.b, m.c, m.d;
    var f := AuxOf(i, b, c, d);
    var tmp := d;
    d := c;
    c := b;
    b := Add(b, Rotl(Add(Add(Add(a, f), T[i]), Word(block, Index(i))), Shift(i)));
    a := tmp;
    r := State(a, b, c, d);
  }

  method Transform(s: State, block: seq<octet>) returns (r: State)
    requires |block| == BLOCK
    ensures r == NextHash(s, block)
  {
    hide Step, Add, Operation;
    r := s;
    var i := 0;
    while i < 64
      invariant 0 <= i <= 64 && r == Moved(Steps(s, block, i), i)
    {
      MovedStep(Steps(s, block, i), block, i);
      r := OneStep(r, block, i);
      i := i + 1;
    }
    r := State(Add(s.a, r.a), Add(s.b, r.b), Add(s.c, r.c), Add(s.d, r.d));
  }

  // ---- streaming

  class Context {
    var state: State
    var buf: array<octet>
    var bufLen: nat
    var bits: uint64
    // What has been fed so far.
    ghost var msg: seq<octet>

    ghost predicate Valid()
      reads this, buf
    {
      && buf.Length == BLOCK && bufLen < BLOCK
      && Holds(NextHash, INITIAL, msg, state, buf[..bufLen])
      && bits == BitLength(|msg|)
    }

    constructor ()
      ensures Valid() && fresh(buf) && msg == []
    {
      hide NextHash, Holds, INITIAL;
      state, bufLen, bits, msg := INITIAL, 0, 0, [];
      buf := new octet[BLOCK];
      new;
      HoldsNothing(NextHash, INITIAL);
      assert buf[..0] == [];
    }

    method Update(data: seq<octet>)
      requires Valid()
      modifies this, buf
      ensures Valid() && buf == old(buf) && msg == old(msg) + data
    {
      hide NextHash, Holds;
      bits := (bits + 8 * |data| % TWO_64) % TWO_64;
      BitsAdd(|msg|, |data|);
      var i := 0;
      assert msg + data[..0] == msg;
      while i < |data|
        invariant 0 <= i <= |data| && buf == old(buf)
        invariant buf.Length == BLOCK && bufLen < BLOCK && msg == old(msg) + data[..i]
        invariant Holds(NextHash, INITIAL, msg, state, buf[..bufLen])
        invariant bits == BitLength(|old(msg)| + |data|)
      {
        i := Take(data, i);
      }
      assert data[..i] == data;
    }

    method Take(data: seq<octet>, i: nat) returns (j: nat)
      requires buf.Length == BLOCK && bufLen < BLOCK && i < |data|
      requires Holds(NextHash, INITIAL, msg, state, buf[..bufLen])
      modifies this`state, this`bufLen, this`msg, buf
      ensures i < j <= |data| && msg == old(msg) + data[i..j]
      ensures bufLen < BLOCK && Holds(NextHash, INITIAL, msg, state, buf[..bufLen])
    {
      hide NextHash, Holds;
      var take := if BLOCK - bufLen < |data| - i then BLOCK - bufLen else |data| - i;
      j := i + take;
      ghost var held := buf[..bufLen];
      forall k | 0 <= k < take {
        buf[bufLen + k] := data[i + k];
      }
      bufLen := bufLen + take;
      assert buf[..bufLen] == held + data[i..j];
      if bufLen == BLOCK {
        HoldsBlock(NextHash, INITIAL, msg, state, held, data[i..j]);
        state := Transform(state, buf[..]);
        bufLen := 0;
        assert buf[..BLOCK] == buf[..] && buf[..0] == [];
      } else {
        HoldsMore(NextHash, INITIAL, msg, state, held, data[i..j]);
      }
      msg := msg + data[i..j];
    }

    // Pad; the length goes straight into the buffer, which it fills.
    method Final() returns (out: seq<octet>)
      requires Valid()
      modifies this, buf
      ensures out == Digest(old(msg))
    {
      hide NextHash, LengthOf, Output, Context.Valid, Padding, Pad, ZeroCount, INITIAL, Fold;
      ghost var m := msg;
      var length := LengthBytes();
      PadZeros();
      PadIs(m, length);
      LastBlock(length);
      out := Output(state);
    }

    method LengthBytes() returns (length: seq<octet>)
      requires Valid()
      ensures length == LengthOf(msg)
    {
      hide LittleEndian;
      length := LittleEndian(bits as bv64);
    }

    method LastBlock(length: seq<octet>)
      requires Valid() && |length| == 8 && bufLen == BLOCK - 8
      modifies this, buf
      ensures |old(msg) + length| % BLOCK == 0 && state == Fold(NextHash, INITIAL, old(msg) + length)
    {
      hide NextHash, Holds;
      ghost var held := buf[..bufLen];
      forall k | 0 <= k < 8 {
        buf[bufLen + k] := length[k];
      }
      assert buf[..] == held + length;
      HoldsBlock(NextHash, INITIAL, msg, state, held, length);
      state := Transform(state, buf[..]);
      bufLen := 0;
      HoldsAll(NextHash, INITIAL, msg + length, state);
    }

    method PadZeros()
      requires Valid()
      modifies this, buf
      ensures Valid() && buf == old(buf) && bufLen == BLOCK - 8
      ensures msg == Padding(old(msg), ZeroCount(|old(msg)|))
    {
      hide Context.Valid, Padding, ZeroCount;
      ghost var m := msg;
      Update([0x80]);
      ghost var k := 0;
      PaddingStart(m);
      BufLenIs();
      PaddingDone(|m|, k);
      while bufLen != BLOCK - 8
        invariant Valid() && buf == old(buf) && k <= ZeroCount(|m|)
        invariant msg == Padding(m, k) && bufLen == |msg| % BLOCK
        invariant bufLen == BLOCK - 8 <==> k == ZeroCount(|m|)
        decreases ZeroCount(|m|) - k
      {
        PaddingMore(m, k);
        Update([0]);
        k := k + 1;
        BufLenIs();
        PaddingDone(|m|, k);
      }
    }

    lemma BufLenIs()
      requires Valid()
      ensures bufLen == |msg| % BLOCK
    {
    }
  }

  // However the message is cut into update calls, the digest is that of the message.
  method HashChunks(chunks: seq<seq<octet>>) returns (out: seq<octet>)
    ensures out == Digest(Join(chunks))
  {
    hide Digest;
    var c := new Context();
    var i := 0;
    while i < |chunks|
      invariant 0 <= i <= |chunks| && fresh(c) && fresh(c.buf) && c.Valid()
      invariant c.msg == Join(chunks[..i])
    {
      JoinNext(chunks, i);
      c.Update(chunks[i]);
      i := i + 1;
    }
    assert chunks[..i] == chunks;
    out := c.Final();
  }
}
