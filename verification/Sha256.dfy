/** SHA-256 as FIPS 180-4 defines it, and the streaming computation of it. */
module Sha256 {
  import opened Machine
  import opened BlockHash
  import opened Chunks

  datatype State = State(a: bv32, b: bv32, c: bv32, d: bv32, e: bv32, f: bv32, g: bv32, h: bv32)

  // Section 5.3.3.
  const INITIAL := State(0x6a09e667, 0xbb67ae85, 0x3c6ef372, 0xa54ff53a,
                         0x510e527f, 0x9b05688c, 0x1f83d9ab, 0x5be0cd19)

  // Section 4.2.2.
  const K: seq<bv32> := K0 + K1 + K2 + K3

  const K0: seq<bv32> := [
    0x428a2f98, 0x71374491, 0xb5c0fbcf, 0xe9b5dba5, 0x3956c25b, 0x59f111f1, 0x923f82a4, 0xab1c5ed5,
    0xd807aa98, 0x12835b01, 0x243185be, 0x550c7dc3, 0x72be5d74, 0x80deb1fe, 0x9bdc06a7, 0xc19bf174]

  const K1: seq<bv32> := [
    0xe49b69c1, 0xefbe4786, 0x0fc19dc6, 0x240ca1cc, 0x2de92c6f, 0x4a7484aa, 0x5cb0a9dc, 0x76f988da,
    0x983e5152, 0xa831c66d, 0xb00327c8, 0xbf597fc7, 0xc6e00bf3, 0xd5a79147, 0x06ca6351, 0x14292967]

  const K2: seq<bv32> := [
    0x27b70a85, 0x2e1b2138, 0x4d2c6dfc, 0x53380d13, 0x650a7354, 0x766a0abb, 0x81c2c92e, 0x92722c85,
    0xa2bfe8a1, 0xa81a664b, 0xc24b8b70, 0xc76c51a3, 0xd192e819, 0xd6990624, 0xf40e3585, 0x106aa070]

  const K3: seq<bv32> := [
    0x19a4c116, 0x1e376c08, 0x2748774c, 0x34b0bcb5, 0x391c0cb3, 0x4ed8aa4a, 0x5b9cca4f, 0x682e6ff3,
    0x748f82ee, 0x78a5636f, 0x84c87814, 0x8cc70208, 0x90befffa, 0xa4506ceb, 0xbef9a3f7, 0xc67178f2]

  lemma SixtyFourConstants()
    ensures |K| == 64
  {
  }

  // Addition modulo 2^32.
  function Add(x: bv32, y: bv32): bv32 { x + y }

  // Section 4.1.2.
  function Rotr(x: bv32, n: bv6): bv32
    requires 0 < n < 32
  {
    (x >> n) | (x << (32 - n))
  }

  function Ch(x: bv32, y: bv32, z: bv32): bv32 { (x & y) ^ (!x & z) }
  function Maj(x: bv32, y: bv32, z: bv32): bv32 { (x & y) ^ (x & z) ^ (y & z) }
  function BigSigma0(x: bv32): bv32 { Rotr(x, 2) ^ Rotr(x, 13) ^ Rotr(x, 22) }
  function BigSigma1(x: bv32): bv32 { Rotr(x, 6) ^ Rotr(x, 11) ^ Rotr(x, 25) }
  function SmallSigma0(x: bv32): bv32 { Rotr(x, 7) ^ Rotr(x, 18) ^ (x >> 3) }
  function SmallSigma1(x: bv32): bv32 { Rotr(x, 17) ^ Rotr(x, 19) ^ (x >> 10) }

  function Word(block: seq<octet>, i: nat): bv32
    requires |block| == BLOCK && i < 16
  {
    (block[4 * i] as bv32 << 24) | (block[4 * i + 1] as bv32 << 16) | (block[4 * i + 2] as bv32 << 8)
    | block[4 * i + 3] as bv32
  }

  // Section 6.2.2: the message schedule, the rounds, and the next hash value.
  function W(block: seq<octet>, t: nat): bv32
    requires |block| == BLOCK && t < 64
  {
    if t < 16 then Word(block, t)
    else Mix(W(block, t - 2), W(block, t - 7), W(block, t - 15), W(block, t - 16))
  }

  // The standard sums the four terms in the opposite order.
  function Mix(w2: bv32, w7: bv32, w15: bv32, w16: bv32): bv32 {
    Add(Add(Add(w16, SmallSigma0(w15)), w7), SmallSigma1(w2))
  }

  function T1(e: bv32, f: bv32, g: bv32, h: bv32, k: bv32, w: bv32): bv32 {
    Add(Add(Add(Add(h, BigSigma1(e)), Ch(e, f, g)), k), w)
  }

  function T2(a: bv32, b: bv32, c: bv32): bv32 {
    Add(BigSigma0(a), Maj(a, b, c))
  }

  function Round(s: State, k: bv32, w: bv32): State {
    var t1, t2 := T1(s.e, s.f, s.g, s.h, k, w), T2(s.a, s.b, s.c);
    State(Add(t1, t2), s.a, s.b, s.c, Add(s.d, t1), s.e, s.f, s.g)
  }

  function Rounds(s: State, block: seq<octet>, t: nat): State
    requires |block| == BLOCK && t <= 64
  {
    SixtyFourConstants();
    if t == 0 then s else Round(Rounds(s, block, t - 1), K[t - 1], W(block, t - 1))
  }

  function Plus(x: State, y: State): State {
    State(Add(x.a, y.a), Add(x.b, y.b), Add(x.c, y.c), Add(x.d, y.d),
          Add(x.e, y.e), Add(x.f, y.f), Add(x.g, y.g), Add(x.h, y.h))
  }

  function NextHash(s: State, block: seq<octet>): State {
    if |block| == BLOCK then Plus(Rounds(s, block, 64), s) else s
  }

  // Section 6.2: the digest of a message is the words of the hash value after its last block.
  function Bytes(w: bv32): seq<octet> {
    [(w >> 24) as octet, ((w >> 16) & 0xFF) as octet, ((w >> 8) & 0xFF) as octet, (w & 0xFF) as octet]
  }

  function Output(s: State): seq<octet> {
    Bytes(s.a) + Bytes(s.b) + Bytes(s.c) + Bytes(s.d) + Bytes(s.e) + Bytes(s.f) + Bytes(s.g) + Bytes(s.h)
  }

  function LengthByte(bits: bv64, i: nat): octet
    requires i < 8
  {
    ((bits >> ((56 - 8 * i) as bv7)) & 0xFF) as octet
  }

  // The 64-bit length, the most significant byte first.
  function BigEndian(bits: bv64): (b: seq<octet>)
    ensures |b| == 8
  {
    seq(8, i requires 0 <= i < 8 => LengthByte(bits, i))
  }

  // The number of bits, as it ends the padded message.
  function LengthOf(m: seq<octet>): (b: seq<octet>)
    ensures |b| == 8
  {
    BigEndian(BitLength(|m|) as bv64)
  }

  function Digest(m: seq<octet>): seq<octet> {
    Output(Fold(NextHash, INITIAL, Pad(m, LengthOf(m))))
  }

  // ---- one block

  method NextWord(w2: bv32, w7: bv32, w15: bv32, w16: bv32) returns (w: bv32)
    ensures w == Mix(w2, w7, w15, w16)
  {
    hide SmallSigma0, SmallSigma1, Add;
    var s0 := SmallSigma0(w15);
    var s1 := SmallSigma1(w2);
    w := Add(Add(Add(w16, s0), w7), s1);
  }

  method Schedule(block: seq<octet>) returns (w: array<bv32>)
    requires |block| == BLOCK
    ensures fresh(w) && w.Length == 64 && forall i :: 0 <= i < 64 ==> w[i] == W(block, i)
  {
    hide Word, Mix;
    w := new bv32[64];
    var i := 0;
    while i < 16
      invariant 0 <= i <= 16 && forall k :: 0 <= k < i ==> w[k] == W(block, k)
    {
      w[i] := Word(block, i);
      i := i + 1;
    }
    while i < 64
      invariant 16 <= i <= 64 && forall k :: 0 <= k < i ==> w[k] == W(block, k)
    {
      w[i] := NextWord(w[i - 2], w[i - 7], w[i - 15], w[i - 16]);
      i := i + 1;
    }
  }

  method OneRound(s: State, k: bv32, w: bv32) returns (r: State)
    ensures r == Round(s, k, w)
  {
    hide BigSigma0, BigSigma1, Ch, Maj, Add;
    var a, b, c, d := s.a, s.b, s.c, s.d;
    var e, f, g, hh := s.e, s.f, s.g, s.h;
    var t1 := Add(Add(Add(Add(hh, BigSigma1(e)), Ch(e, f, g)), k), w);
    var t2 := Add(BigSigma0(a), Maj(a, b, c));
    hh := g;
    g := f;
    f := e;
    e := Add(d, t1);
    d := c;
    c := b;
    b := a;
    a := Add(t1, t2);
    r := State(a, b, c, d, e, f, g, hh);
  }

  method Compress(s: State, block: seq<octet>) returns (r: State)
    requires |block| == BLOCK
    ensures r == NextHash(s, block)
  {
    hide W, Round, K, Plus;
    SixtyFourConstants();
    var w := Schedule(block);
    r := s;
    var i := 0;
    while i < 64
      invariant 0 <= i <= 64 && r == Rounds(s, block, i)
      invariant forall k :: 0 <= k < 64 ==> w[k] == W(block, k)
    {
      r := OneRound(r, K[i], w[i]);
      i := i + 1;
    }
    r := Plus(r, s);
  }

  // ---- streaming

  class Context {
    var hash: State
    var buf: array<octet>
    var bufLen: nat
    var total: uint64
    // What has been fed so far.
    ghost var msg: seq<octet>

    ghost predicate Valid()
      reads this, buf
    {
      && buf.Length == BLOCK && bufLen < BLOCK
      && Holds(NextHash, INITIAL, msg, hash, buf[..bufLen])
      && total == |msg| % TWO_64
    }

    constructor ()
      ensures Valid() && fresh(buf) && msg == []
    {
      hide NextHash, Holds, INITIAL;
      hash, bufLen, total, msg := INITIAL, 0, 0, [];
      buf := new octet[BLOCK];
      new;
      HoldsNothing(NextHash, INITIAL);
      assert buf[..0] == [];
    }

    // Copy to the buffer, compress whenever it is full.
    method Update(data: seq<octet>)
      requires Valid()
      modifies this, buf
      ensures Valid() && buf == old(buf) && msg == old(msg) + data
    {
      hide NextHash, Holds;
      total := (total + |data|) % TWO_64;
      var i := 0;
      assert msg + data[..0] == msg;
      while i < |data|
        invariant 0 <= i <= |data| && buf == old(buf)
        invariant buf.Length == BLOCK && bufLen < BLOCK && msg == old(msg) + data[..i]
        invariant Holds(NextHash, INITIAL, msg, hash, buf[..bufLen])
        invariant total == (|old(msg)| + |data|) % TWO_64
      {
        i := Take(data, i);
      }
      assert data[..i] == data;
    }

    // One round of the loop: as many bytes as there is room for.
    method Take(data: seq<octet>, i: nat) returns (j: nat)
      requires buf.Length == BLOCK && bufLen < BLOCK && i < |data|
      requires Holds(NextHash, INITIAL, msg, hash, buf[..bufLen])
      modifies this`hash, this`bufLen, this`msg, buf
      ensures i < j <= |data| && msg == old(msg) + data[i..j]
      ensures bufLen < BLOCK && Holds(NextHash, INITIAL, msg, hash, buf[..bufLen])
    {
      hide NextHash, Holds;
      var space := BLOCK - bufLen;
      var take := if |data| - i < space then |data| - i else space;
      j := i + take;
      ghost var held := buf[..bufLen];
      forall k | 0 <= k < take {
        buf[bufLen + k] := data[i + k];
      }
      bufLen := bufLen + take;
      assert buf[..bufLen] == held + data[i..j];
      if bufLen == BLOCK {
        HoldsBlock(NextHash, INITIAL, msg, hash, held, data[i..j]);
        hash := Compress(hash, buf[..]);
        bufLen := 0;
        assert buf[..BLOCK] == buf[..] && buf[..0] == [];
      } else {
        HoldsMore(NextHash, INITIAL, msg, hash, held, data[i..j]);
      }
      msg := msg + data[i..j];
    }

    // Pad, and put out the hash value.
    method Final() returns (out: seq<octet>)
      requires Valid()
      modifies this, buf
      ensures out == Digest(old(msg))
    {
      hide NextHash, LengthOf, Output, Context.Valid, Padding, Pad, ZeroCount, INITIAL, Fold;
      ghost var m := msg;
      var length := LengthBytes();
      PadZeros();
      PadIs(m, length);
      Update(length);
      Filled();
      out := Output(hash);
    }

    method LengthBytes() returns (length: seq<octet>)
      requires Valid()
      ensures length == LengthOf(msg)
    {
      hide NextHash, Holds, BigEndian;
      var bits: uint64 := 8 * total % TWO_64;
      BitsOfWrapped(|msg|);
      length := BigEndian(bits as bv64);
    }

    method PadZeros()
      requires Valid()
      modifies this, buf
      ensures Valid() && buf == old(buf) && msg == Padding(old(msg), ZeroCount(|old(msg)|))
    {
      hide Context.Valid, Padding, ZeroCount;
      ghost var m := msg;
      Update([0x80]);
      ghost var k := 0;
      PaddingStart(m);
      BufLenIs();
      PaddingDone(|m|, k);
      while bufLen != BLOCK - 8
        invariant Valid() && buf == old(buf) && k <= ZeroCount(|m|)
        invariant msg == Padding(m, k) && bufLen == |msg| % BLOCK
        invariant bufLen == BLOCK - 8 <==> k == ZeroCount(|m|)
        decreases ZeroCount(|m|) - k
      {
        PaddingMore(m, k);
        Update([0]);
        k := k + 1;
        BufLenIs();
        PaddingDone(|m|, k);
      }
    }

    lemma BufLenIs()
      requires Valid()
      ensures bufLen == |msg| % BLOCK
    {
    }

    lemma Filled()
      requires Valid() && |msg| % BLOCK == 0
      ensures hash == Fold(NextHash, INITIAL, msg)
    {
      hide NextHash;
      assert buf[..0] == [];
      HoldsAll(NextHash, INITIAL, msg, hash);
    }
  }

  method HashBuffer(data: seq<octet>) returns (out: seq<octet>)
    ensures out == Digest(data)
  {
    hide Digest;
    var c := new Context();
    c.Update(data);
    assert [] + data == data;
    out := c.Final();
  }

  // A file read in pieces; a read error gives no digest.
  method HashFile(chunks: seq<seq<octet>>, readError: bool) returns (ok: bool, out: seq<octet>)
    ensures ok == !readError
    ensures ok ==> out == Digest(Join(chunks))
  {
    hide Digest;
    var c := new Context();
    var i := 0;
    while i < |chunks|
      invariant 0 <= i <= |chunks| && fresh(c) && fresh(c.buf) && c.Valid()
      invariant c.msg == Join(chunks[..i])
    {
      JoinNext(chunks, i);
      c.Update(chunks[i]);
      i := i + 1;
    }
    assert chunks[..i] == chunks;
    if readError {
      return false, [];
    }
    out := c.Final();
    ok := true;
  }
}
