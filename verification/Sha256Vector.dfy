/** SHA-256 of "abc", word by word and round by round, as the examples to FIPS 180-4 give it. */
module Sha256Vector {
  import opened Machine
  import opened BlockHash
  import opened Sha256

  const ABC: seq<octet> := [97, 98, 99]

  // The bytes, the bit that ends them, zeros, and their length of 24 bits.
  const PADDED: seq<octet> := ABC + [0x80] + Zeros(52) + [0, 0, 0, 0, 0, 0, 0, 24]

  lemma Padded()
    ensures |PADDED| == BLOCK && Pad(ABC, LengthOf(ABC)) == PADDED
  {
    hide LengthOf, Zeros;
    LengthIs();
  }

  lemma PaddedBytes()
    ensures |PADDED| == BLOCK && PADDED[63] == 24
    ensures PADDED[0] == 97 && PADDED[1] == 98 && PADDED[2] == 99 && PADDED[3] == 0x80
    ensures forall i :: 4 <= i < 63 ==> PADDED[i] == 0
  {
    var head, tail: seq<octet> := [97, 98, 99, 0x80], [0, 0, 0, 0, 0, 0, 0, 24];
    assert ABC + [0x80] == head;
    SpreadOut(head, tail);
  }

  lemma SpreadOut(head: seq<octet>, tail: seq<octet>)
    requires |head| == 4 && |tail| == 8 && forall i :: 0 <= i < 7 ==> tail[i] == 0
    ensures
      var s := head + Zeros(52) + tail;
      && |s| == 64 && s[0] == head[0] && s[1] == head[1] && s[2] == head[2] && s[3] == head[3]
      && s[63] == tail[7] && forall i :: 4 <= i < 63 ==> s[i] == 0
  {
  }

  lemma LengthIs()
    ensures LengthOf(ABC) == [0, 0, 0, 0, 0, 0, 0, 24]
  {
    hide LengthByte, BitLength;
    EarlyBytes();
    LateBytes();
    BitsOfAbc();
  }

  lemma BitsOfAbc()
    ensures BitLength(3) as bv64 == 24
  {
    hide BitLength;
    ThreeBytes();
  }

  lemma ThreeBytes()
    ensures BitLength(3) == 24
  {
  }

  lemma EarlyBytes()
    ensures LengthByte(24, 0) == 0 && LengthByte(24, 1) == 0 && LengthByte(24, 2) == 0 && LengthByte(24, 3) == 0
  {
  }

  lemma LateBytes()
    ensures LengthByte(24, 4) == 0 && LengthByte(24, 5) == 0 && LengthByte(24, 6) == 0 && LengthByte(24, 7) == 24
  {
  }

  // ---- the message schedule

  predicate WordIs(t: nat, w: bv32) {
    t < 64 && |PADDED| == BLOCK && W(PADDED, t) == w
  }

  lemma NextWordIs(t: nat, w2: bv32, w7: bv32, w15: bv32, w16: bv32, s0: bv32, s1: bv32, w: bv32)
    requires 16 <= t < 64 && WordIs(t - 2, w2) && WordIs(t - 7, w7) && WordIs(t - 15, w15) && WordIs(t - 16, w16)
    requires SmallSigma0(w15) == s0 && SmallSigma1(w2) == s1 && Add(Add(Add(w16, s0), w7), s1) == w
    ensures WordIs(t, w)
  {
    hide Word, PADDED, SmallSigma0, SmallSigma1, Add;
  }

  lemma WordOfBytes(t: nat, b0: octet, b1: octet, b2: octet, b3: octet)
    requires t < 16 && |PADDED| == BLOCK
    requires PADDED[4 * t] == b0 && PADDED[4 * t + 1] == b1 && PADDED[4 * t + 2] == b2 && PADDED[4 * t + 3] == b3
    ensures WordIs(t, (b0 as bv32 << 24) | (b1 as bv32 << 16) | (b2 as bv32 << 8) | b3 as bv32)
  {
    hide PADDED;
  }

  lemma ZeroWord(t: nat)
    requires 1 <= t < 15
    ensures WordIs(t, 0)
  {
    hide PADDED, W;
    PaddedBytes();
    WordOfBytes(t, 0, 0, 0, 0);
  }

  lemma Words0()
    ensures WordIs(0, 0x61626380) && WordIs(15, 0x00000018)
    ensures forall t :: 1 <= t < 15 ==> WordIs(t, 0)
  {
    hide PADDED, W;
    PaddedBytes();
    WordOfBytes(0, 97, 98, 99, 0x80);
    WordOfBytes(15, 0, 0, 0, 24);
    forall t | 1 <= t < 15 ensures WordIs(t, 0) {
      ZeroWord(t);
    }
  }

  lemma Words16()
    ensures WordIs(16, 0x61626380) && WordIs(17, 0x000f0000) && WordIs(18, 0x7da86405) && WordIs(19, 0x600003c6)
    ensures WordIs(20, 0x3e9d7b78) && WordIs(21, 0x0183fc00) && WordIs(22, 0x12dcbfdb) && WordIs(23, 0xe2e2c38e)
    ensures WordIs(24, 0xc8215c1a) && WordIs(25, 0xb73679a2) && WordIs(26, 0xe5bc3909) && WordIs(27, 0x32663c5b)
    ensures WordIs(28, 0x9d209d67) && WordIs(29, 0xec8726cb) && WordIs(30, 0x702138a4) && WordIs(31, 0xd3b7973b)
  {
    hide WordIs;
    Words0();
    NextWordIs(16, 0x00000000, 0x00000000, 0x00000000, 0x61626380,
               0x00000000, 0x00000000, 0x61626380);
    NextWordIs(17, 0x00000018, 0x00000000, 0x00000000, 0x00000000,
               0x00000000, 0x000f0000, 0x000f0000);
    NextWordIs(18, 0x61626380, 0x00000000, 0x00000000, 0x00000000,
               0x00000000, 0x7da86405, 0x7da86405);
    NextWordIs(19, 0x000f0000, 0x00000000, 0x00000000, 0x00000000,
               0x00000000, 0x600003c6, 0x600003c6);
    NextWordIs(20, 0x7da86405, 0x00000000, 0x00000000, 0x00000000,
               0x00000000, 0x3e9d7b78, 0x3e9d7b78);
    NextWordIs(21, 0x600003c6, 0x00000000, 0x00000000, 0x00000000,
               0x00000000, 0x0183fc00, 0x0183fc00);
    NextWordIs(22, 0x3e9d7b78, 0x00000018, 0x00000000, 0x00000000,
               0x00000000, 0x12dcbfc3, 0x12dcbfdb);
    NextWordIs(23, 0x0183fc00, 0x61626380, 0x00000000, 0x00000000,
               0x00000000, 0x8180600e, 0xe2e2c38e);
    NextWordIs(24, 0x12dcbfdb, 0x000f0000, 0x00000000, 0x00000000,
               0x00000000, 0xc8125c1a, 0xc8215c1a);
    NextWordIs(25, 0xe2e2c38e, 0x7da86405, 0x00000000, 0x00000000,
               0x00000000, 0x398e159d, 0xb73679a2);
    NextWordIs(26, 0xc8215c1a, 0x600003c6, 0x00000000, 0x00000000,
               0x00000000, 0x85bc3543, 0xe5bc3909);
    NextWordIs(27, 0xb73679a2, 0x3e9d7b78, 0x00000000, 0x00000000,
               0x00000000, 0xf3c8c0e3, 0x32663c5b);
    NextWordIs(28, 0xe5bc3909, 0x0183fc00, 0x00000000, 0x00000000,
               0x00000000, 0x9b9ca167, 0x9d209d67);
    NextWordIs(29, 0x32663c5b, 0x12dcbfdb, 0x00000000, 0x00000000,
               0x00000000, 0xd9aa66f0, 0xec8726cb);
    NextWordIs(30, 0x9d209d67, 0xe2e2c38e, 0x00000018, 0x00000000,
               0x30060003, 0x5d387513, 0x702138a4);
    NextWordIs(31, 0xec8726cb, 0xc8215c1a, 0x61626380, 0x00000018,
               0x940e90ef, 0x7787aa1a, 0xd3b7973b);
  }

  lemma Words32()
    ensures WordIs(32, 0x93f5997f) && WordIs(33, 0x3b68ba73) && WordIs(34, 0xaff4ffc1) && WordIs(35, 0xf10a5c62)
    ensures WordIs(36, 0x0a8b3996) && WordIs(37, 0x72af830a) && WordIs(38, 0x9409e33e) && WordIs(39, 0x24641522)
    ensures WordIs(40, 0x9f47bf94) && WordIs(41, 0xf0a64f5a) && WordIs(42, 0x3e246a79) && WordIs(43, 0x27333ba3)
    ensures WordIs(44, 0x0c4763f2) && WordIs(45, 0x840abf27) && WordIs(46, 0x7a290d5d) && WordIs(47, 0x065c43da)
  {
    hide WordIs;
    Words16();
    NextWordIs(32, 0x702138a4, 0xb73679a2, 0x000f0000, 0x61626380,
               0xc001fe03, 0xbb5abe5a, 0x93f5997f);
    NextWordIs(33, 0xd3b7973b, 0xe5bc3909, 0x7da86405, 0x000f0000,
               0x1c4f0322, 0x394e7e48, 0x3b68ba73);
    NextWordIs(34, 0x93f5997f, 0x32663c5b, 0x600003c6, 0x7da86405,
               0x8031987f, 0x7fb4c6e2, 0xaff4ffc1);
    NextWordIs(35, 0x3b68ba73, 0x9d209d67, 0x3e9d7b78, 0x600003c6,
               0xa9709a3e, 0x4a7920f7, 0xf10a5c62);
    NextWordIs(36, 0xaff4ffc1, 0xec8726cb, 0x0183fc00, 0x3e9d7b78,
               0xff337818, 0xe0331f3b, 0x0a8b3996);
    NextWordIs(37, 0xf10a5c62, 0x702138a4, 0x12dcbfdb, 0x0183fc00,
               0x9b88ea33, 0x65816433, 0x72af830a);
    NextWordIs(38, 0x0a8b3996, 0xd3b7973b, 0xe2e2c38e, 0x12dcbfdb,
               0xb17a254e, 0xfbfb66da, 0x9409e33e);
    NextWordIs(39, 0x72af830a, 0x93f5997f, 0xc8215c1a, 0xe2e2c38e,
               0x7b92db33, 0x31f8dce2, 0x24641522);
    NextWordIs(40, 0x9409e33e, 0x3b68ba73, 0xb73679a2, 0xc8215c1a,
               0xcde00e0a, 0xcddd9afd, 0x9f47bf94);
    NextWordIs(41, 0x24641522, 0xaff4ffc1, 0xe5bc3909, 0xb73679a2,
               0x013e863c, 0x883c4fbb, 0xf0a64f5a);
    NextWordIs(42, 0x9f47bf94, 0xf10a5c62, 0x32663c5b, 0xe5bc3909,
               0x3f3ec76a, 0x281f0da4, 0x3e246a79);
    NextWordIs(43, 0xf0a64f5a, 0x0a8b3996, 0x9d209d67, 0x32663c5b,
               0xfbc7b5de, 0xee7a0fd4, 0x27333ba3);
    NextWordIs(44, 0x3e246a79, 0x72af830a, 0xec8726cb, 0x9d209d67,
               0x43fb11b5, 0xb87c31cc, 0x0c4763f2);
    NextWordIs(45, 0x27333ba3, 0x9409e33e, 0x702138a4, 0xec8726cb,
               0x08cd796d, 0xfaac3bb1, 0x840abf27);
    NextWordIs(46, 0x0c4763f2, 0x24641522, 0xd3b7973b, 0x702138a4,
               0x881f6924, 0x5d845673, 0x7a290d5d);
    NextWordIs(47, 0x840abf27, 0x9f47bf94, 0x93f5997f, 0xd3b7973b,
               0x8b06bce0, 0x0856302b, 0x065c43da);
  }

  lemma Words48()
    ensures WordIs(48, 0xfb3e89cb) && WordIs(49, 0xcc7617db) && WordIs(50, 0xb9e66c34) && WordIs(51, 0xa9993667)
    ensures WordIs(52, 0x84badedd) && WordIs(53, 0xc21462bc) && WordIs(54, 0x1487472c) && WordIs(55, 0xb20f7a99)
    ensures WordIs(56, 0xef57b9cd) && WordIs(57, 0xebe6b238) && WordIs(58, 0x9fe3095e) && WordIs(59, 0x78bc8d4b)
    ensures WordIs(60, 0xa43fcf15) && WordIs(61, 0x668b2ff8) && WordIs(62, 0xeeaba2cc) && WordIs(63, 0x12b1edeb)
  {
    hide WordIs;
    Words16();
    Words32();
    NextWordIs(48, 0x7a290d5d, 0xf0a64f5a, 0x3b68ba73, 0x93f5997f,
               0xcf8708e0, 0xa71b9812, 0xfb3e89cb);
    NextWordIs(49, 0x065c43da, 0x3e246a79, 0xaff4ffc1, 0x3b68ba73,
               0xa9511dfa, 0xa997d4f5, 0xcc7617db);
    NextWordIs(50, 0xfb3e89cb, 0x27333ba3, 0xf10a5c62, 0xaff4ffc1,
               0x4cdbe376, 0x95e24d5a, 0xb9e66c34);
    NextWordIs(51, 0xcc7617db, 0x0c4763f2, 0x0a8b3996, 0xf10a5c62,
               0xe321f3e3, 0xc9258230, 0xa9993667);
    NextWordIs(52, 0xb9e66c34, 0x840abf27, 0x72af830a, 0x0a8b3996,
               0xfa7233cc, 0xfbb2b254, 0x84badedd);
    NextWordIs(53, 0xa9993667, 0x7a290d5d, 0x9409e33e, 0x72af830a,
               0x17668aa3, 0xbdd547b2, 0xc21462bc);
    NextWordIs(54, 0x84badedd, 0x065c43da, 0x24641522, 0x9409e33e,
               0x458cc397, 0x34945c7d, 0x1487472c);
    NextWordIs(55, 0xc21462bc, 0xfb3e89cb, 0x9f47bf94, 0x24641522,
               0xd5335f5c, 0xbd397c50, 0xb20f7a99);
    NextWordIs(56, 0x1487472c, 0xcc7617db, 0xf0a64f5a, 0x9f47bf94,
               0x3823395c, 0x4b76a902, 0xef57b9cd);
    NextWordIs(57, 0xb20f7a99, 0xb9e66c34, 0x3e246a79, 0xf0a64f5a,
               0xef268a12, 0x52336c98, 0xebe6b238);
    NextWordIs(58, 0xef57b9cd, 0xa9993667, 0x27333ba3, 0x3e246a79,
               0x8c40c8cf, 0x2be49faf, 0x9fe3095e);
    NextWordIs(59, 0xebe6b238, 0x84badedd, 0x0c4763f2, 0x27333ba3,
               0x3d6ce1a8, 0x8f619123, 0x78bc8d4b);
    NextWordIs(60, 0x9fe3095e, 0xc21462bc, 0x840abf27, 0x0c4763f2,
               0xf040a398, 0xe5a364cf, 0xa43fcf15);
    NextWordIs(61, 0x78bc8d4b, 0x1487472c, 0x7a290d5d, 0x840abf27,
               0xf6e62d3b, 0xd712fc6a, 0x668b2ff8);
    NextWordIs(62, 0xa43fcf15, 0xb20f7a99, 0x065c43da, 0x7a290d5d,
               0xa431b16b, 0x1e41696b, 0xeeaba2cc);
    NextWordIs(63, 0x668b2ff8, 0xef57b9cd, 0xfb3e89cb, 0x065c43da,
               0x2ae352e5, 0xf21a9d5f, 0x12b1edeb);
  }

  // ---- the constants

  predicate KIs(t: nat, k: bv32) {
    t < |K| && K[t] == k
  }

  lemma RowLengths()
    ensures |K0| == |K1| == |K2| == |K3| == 16
  {
  }

  lemma ConstantAt(t: nat)
    requires t < 16
    ensures |K| == 64 && |K0| == |K1| == |K2| == |K3| == 16
    ensures K[t] == K0[t] && K[16 + t] == K1[t] && K[32 + t] == K2[t] && K[48 + t] == K3[t]
  {
    hide K0, K1, K2, K3;
    RowLengths();
  }

  lemma Constants0()
    ensures KIs(0, 0x428a2f98) && KIs(1, 0x71374491) && KIs(2, 0xb5c0fbcf) && KIs(3, 0xe9b5dba5)
    ensures KIs(4, 0x3956c25b) && KIs(5, 0x59f111f1) && KIs(6, 0x923f82a4) && KIs(7, 0xab1c5ed5)
    ensures KIs(8, 0xd807aa98) && KIs(9, 0x12835b01) && KIs(10, 0x243185be) && KIs(11, 0x550c7dc3)
    ensures KIs(12, 0x72be5d74) && KIs(13, 0x80deb1fe) && KIs(14, 0x9bdc06a7) && KIs(15, 0xc19bf174)
  {
    hide K;
    ConstantAt(0);
    ConstantAt(1);
    ConstantAt(2);
    ConstantAt(3);
    ConstantAt(4);
    ConstantAt(5);
    ConstantAt(6);
    ConstantAt(7);
    ConstantAt(8);
    ConstantAt(9);
    ConstantAt(10);
    ConstantAt(11);
    ConstantAt(12);
    ConstantAt(13);
    ConstantAt(14);
    ConstantAt(15);
  }

  lemma Constants16()
    ensures KIs(16, 0xe49b69c1) && KIs(17, 0xefbe4786) && KIs(18, 0x0fc19dc6) && KIs(19, 0x240ca1cc)
    ensures KIs(20, 0x2de92c6f) && KIs(21, 0x4a7484aa) && KIs(22, 0x5cb0a9dc) && KIs(23, 0x76f988da)
    ensures KIs(24, 0x983e5152) && KIs(25, 0xa831c66d) && KIs(26, 0xb00327c8) && KIs(27, 0xbf597fc7)
    ensures KIs(28, 0xc6e00bf3) && KIs(29, 0xd5a79147) && KIs(30, 0x06ca6351) && KIs(31, 0x14292967)
  {
    hide K;
    ConstantAt(0);
    ConstantAt(1);
    ConstantAt(2);
    ConstantAt(3);
    ConstantAt(4);
    ConstantAt(5);
    ConstantAt(6);
    ConstantAt(7);
    ConstantAt(8);
    ConstantAt(9);
    ConstantAt(10);
    ConstantAt(11);
    ConstantAt(12);
    ConstantAt(13);
    ConstantAt(14);
    ConstantAt(15);
  }

  lemma Constants32()
    ensures KIs(32, 0x27b70a85) && KIs(33, 0x2e1b2138) && KIs(34, 0x4d2c6dfc) && KIs(35, 0x53380d13)
    ensures KIs(36, 0x650a7354) && KIs(37, 0x766a0abb) && KIs(38, 0x81c2c92e) && KIs(39, 0x92722c85)
    ensures KIs(40, 0xa2bfe8a1) && KIs(41, 0xa81a664b) && KIs(42, 0xc24b8b70) && KIs(43, 0xc76c51a3)
    ensures KIs(44, 0xd192e819) && KIs(45, 0xd6990624) && KIs(46, 0xf40e3585) && KIs(47, 0x106aa070)
  {
    hide K;
    ConstantAt(0);
    ConstantAt(1);
    ConstantAt(2);
    ConstantAt(3);
    ConstantAt(4);
    ConstantAt(5);
    ConstantAt(6);
    ConstantAt(7);
    ConstantAt(8);
    ConstantAt(9);
    ConstantAt(10);
    ConstantAt(11);
    ConstantAt(12);
    ConstantAt(13);
    ConstantAt(14);
    ConstantAt(15);
  }

  lemma Constants48()
    ensures KIs(48, 0x19a4c116) && KIs(49, 0x1e376c08) && KIs(50, 0x2748774c) && KIs(51, 0x34b0bcb5)
    ensures KIs(52, 0x391c0cb3) && KIs(53, 0x4ed8aa4a) && KIs(54, 0x5b9cca4f) && KIs(55, 0x682e6ff3)
    ensures KIs(56, 0x748f82ee) && KIs(57, 0x78a5636f) && KIs(58, 0x84c87814) && KIs(59, 0x8cc70208)
    ensures KIs(60, 0x90befffa) && KIs(61, 0xa4506ceb) && KIs(62, 0xbef9a3f7) && KIs(63, 0xc67178f2)
  {
    hide K;
    ConstantAt(0);
    ConstantAt(1);
    ConstantAt(2);
    ConstantAt(3);
    ConstantAt(4);
    ConstantAt(5);
    ConstantAt(6);
    ConstantAt(7);
    ConstantAt(8);
    ConstantAt(9);
    ConstantAt(10);
    ConstantAt(11);
    ConstantAt(12);
    ConstantAt(13);
    ConstantAt(14);
    ConstantAt(15);
  }

  // ---- the rounds

  predicate HashIs(t: nat, s: State) {
    t <= 64 && |PADDED| == BLOCK && Rounds(INITIAL, PADDED, t) == s
  }

  // Round t moves every word on and makes two new ones.
  lemma After(
      t: nat, a: bv32, b: bv32, c: bv32, d: bv32, e: bv32, f: bv32, g: bv32, h: bv32, k: bv32, w: bv32,
      s0: bv32, s1: bv32, ch: bv32, maj: bv32, t1: bv32)
    requires t < 64 && HashIs(t, State(a, b, c, d, e, f, g, h)) && WordIs(t, w) && KIs(t, k)
    requires BigSigma0(a) == s0 && BigSigma1(e) == s1 && Ch(e, f, g) == ch && Maj(a, b, c) == maj
    requires Add(Add(Add(Add(h, s1), ch), k), w) == t1
    ensures HashIs(t + 1, State(Add(t1, Add(s0, maj)), a, b, c, Add(d, t1), e, f, g))
  {
    hide PADDED, K, W, INITIAL, BigSigma0, BigSigma1, Ch, Maj, Add;
  }

  lemma HashStarts()
    ensures HashIs(0, State(0x6a09e667, 0xbb67ae85, 0x3c6ef372, 0xa54ff53a,
                            0x510e527f, 0x9b05688c, 0x1f83d9ab, 0x5be0cd19))
  {
    Padded();
  }

  lemma Rounds16()
    ensures HashIs(16, State(0xb0fa238e, 0xc0645fde, 0xd932eb16, 0x87912990,
                         0x07590dcd, 0x0b92f20c, 0x745a48de, 0x1e578218))
  {
    hide HashIs, WordIs, KIs;
    Words0();
    Constants0();
    HashStarts();
    After(0, 0x6a09e667, 0xbb67ae85, 0x3c6ef372, 0xa54ff53a, 0x510e527f, 0x9b05688c, 0x1f83d9ab, 0x5be0cd19,
          0x428a2f98, 0x61626380, 0xce20b47e, 0x3587272b, 0x1f85c98c, 0x3a6fe667, 0x54da50e8);
    After(1, 0x5d6aebcd, 0x6a09e667, 0xbb67ae85, 0x3c6ef372, 0xfa2a4622, 0x510e527f, 0x9b05688c, 0x1f83d9ab,
          0x71374491, 0x00000000, 0xa29f64d1, 0x5a94fd2d, 0x510f6aae, 0x7b6beec5, 0x3c5f8617);
    After(2, 0x5a6ad9ad, 0x5d6aebcd, 0x6a09e667, 0xbb67ae85, 0x78ce7989, 0xfa2a4622, 0x510e527f, 0x9b05688c,
          0xb5c0fbcf, 0x00000000, 0x3096d054, 0x73f0e495, 0x790a4276, 0x5a6aebed, 0x3dc18b66);
    After(3, 0xc8c347a7, 0x5a6ad9ad, 0x5d6aebcd, 0x6a09e667, 0xf92939eb, 0x78ce7989, 0xfa2a4622, 0x510e527f,
          0xe9b5dba5, 0x00000000, 0xc21008d0, 0x0607743c, 0x7a0a7f89, 0x586acbad, 0xbad621e9);
    After(4, 0xd550f666, 0xc8c347a7, 0x5a6ad9ad, 0x5d6aebcd, 0x24e00850, 0xf92939eb, 0x78ce7989, 0xfa2a4622,
          0x3956c25b, 0x00000000, 0x45bb0c4b, 0x3a933432, 0x782e79c9, 0xd842d7a7, 0xe642b678);
    After(5, 0x04409a6a, 0xd550f666, 0xc8c347a7, 0x5a6ad9ad, 0x43ada245, 0x24e00850, 0xf92939eb, 0x78ce7989,
          0x59f111f1, 0x00000000, 0x5029ac8f, 0x8b77e19c, 0xb8a019ea, 0xc440d666, 0x16d78700);
    After(6, 0x2b4209f5, 0x04409a6a, 0xd550f666, 0xc8c347a7, 0x714260ad, 0x43ada245, 0x24e00850, 0xf92939eb,
          0x923f82a4, 0x00000000, 0x0d5e0cc0, 0x015b7776, 0x45a02855, 0x05409a66, 0xd2645c5a);
    After(7, 0xe5030380, 0x2b4209f5, 0x04409a6a, 0xd550f666, 0x9b27a401, 0x714260ad, 0x43ada245, 0x24e00850,
          0xab1c5ed5, 0x00000000, 0x2949eb6c, 0x158dfaa9, 0x518a2245, 0x25420be0, 0x37148413);
    After(8, 0x85a07b5f, 0xe5030380, 0x2b4209f5, 0x04409a6a, 0x0c657a79, 0x9b27a401, 0x714260ad, 0x43ada245,
          0xd807aa98, 0x00000000, 0xba794dc2, 0x99ad25c0, 0x79272085, 0xa5020bd5, 0x2e899322);
    After(9, 0x8e04ecb9, 0x85a07b5f, 0xe5030380, 0x2b4209f5, 0x32ca2d8c, 0x0c657a79, 0x9b27a401, 0x714260ad,
          0x12835b01, 0x00000000, 0x15ffad31, 0xe45bb7ea, 0x8965a809, 0x85006b99, 0xf1871ba1);
    After(10, 0x8c87346b, 0x8e04ecb9, 0x85a07b5f, 0xe5030380, 0x1cc92596, 0x32ca2d8c, 0x0c657a79, 0x9b27a401,
          0x243185be, 0x00000000, 0x5cac0711, 0x8e2276bc, 0x10ec7fed, 0x8c847c7b, 0x5e682068);
    After(11, 0x4798a3f4, 0x8c87346b, 0x8e04ecb9, 0x85a07b5f, 0x436b23e8, 0x1cc92596, 0x32ca2d8c, 0x0c657a79,
          0x550c7dc3, 0x00000000, 0x6ccbc526, 0x699435ca, 0x30c92d84, 0x8e84a4f9, 0xfbcf5b8a);
    After(12, 0xf71fc5a9, 0x4798a3f4, 0x8c87346b, 0x8e04ecb9, 0x816fd6e9, 0x436b23e8, 0x1cc92596, 0x32ca2d8c,
          0x72be5d74, 0x00000000, 0x2f9eee48, 0xccdee661, 0x1deb23fe, 0xc79fa5e9, 0x9052955f);
    After(13, 0x87912990, 0xf71fc5a9, 0x4798a3f4, 0x8c87346b, 0x1e578218, 0x816fd6e9, 0x436b23e8, 0x1cc92596,
          0x80deb1fe, 0x00000000, 0x29c634f3, 0x08bb98f7, 0x416fa3e8, 0xc799a1b0, 0xe7d31473);
    After(14, 0xd932eb16, 0x87912990, 0xf71fc5a9, 0x4798a3f4, 0x745a48de, 0x1e578218, 0x816fd6e9, 0x436b23e8,
          0x9bdc06a7, 0x00000000, 0x25562836, 0x4f3b8d50, 0x95779639, 0xd713e990, 0xc3fa4e18);
    After(15, 0xc0645fde, 0xd932eb16, 0x87912990, 0xf71fc5a9, 0x0b92f20c, 0x745a48de, 0x1e578218, 0x816fd6e9,
          0xc19bf174, 0x00000018, 0xdf906fd4, 0xb8d63f93, 0x1457401c, 0xc1306b96, 0x10394824);
  }

  lemma Rounds32()
    ensures HashIs(32, State(0x73b33bf5, 0xea992a22, 0xa0060b30, 0x363482c9,
                         0xba591112, 0x0109ab3a, 0xade79437, 0x6112a3b7))
  {
    hide HashIs, WordIs, KIs;
    Words16();
    Constants16();
    Rounds16();
    After(16, 0xb0fa238e, 0xc0645fde, 0xd932eb16, 0x87912990, 0x07590dcd, 0x0b92f20c, 0x745a48de, 0x1e578218,
          0xe49b69c1, 0x61626380, 0x58c535f1, 0x213b6995, 0x7312401e, 0xd0726b9e, 0xf8a2f90c);
    After(17, 0x21da9a9b, 0xb0fa238e, 0xc0645fde, 0xd932eb16, 0x8034229c, 0x07590dcd, 0x0b92f20c, 0x745a48de,
          0xefbe4786, 0x000f0000, 0x76c5c4f5, 0x3b81984e, 0x0b92d08c, 0xa0fa1b9e, 0xab3bf93e);
    After(18, 0xc2fbd9d1, 0x21da9a9b, 0xb0fa238e, 0xc0645fde, 0x846ee454, 0x8034229c, 0x07590dcd, 0x0b92f20c,
          0x0fc19dc6, 0x7da86405, 0x5157a6a1, 0xeff31c0f, 0x8335299d, 0xa0fa9b9b, 0x0c253983);
    After(19, 0xfe777bbf, 0xc2fbd9d1, 0x21da9a9b, 0xb0fa238e, 0xcc899961, 0x846ee454, 0x8034229c, 0x07590dcd,
          0x240ca1cc, 0x600003c6, 0xff8cd2ad, 0xefc707b0, 0x843ca2dc, 0xe2fbdb9b, 0xff695deb);
    After(20, 0xe1f20c33, 0xfe777bbf, 0xc2fbd9d1, 0x21da9a9b, 0xb0638179, 0xcc899961, 0x846ee454, 0x8034229c,
          0x2de92c6f, 0x3e9d7b78, 0x51d3431b, 0xf8373ead, 0x840de565, 0xe2f359b3, 0x68ffee95);
    After(21, 0x9dc68b63, 0xe1f20c33, 0xfe777bbf, 0xc2fbd9d1, 0x8ada8930, 0xb0638179, 0xcc899961, 0x846ee454,
          0x4a7484aa, 0x0183fc00, 0xa640c29b, 0x897ea930, 0xc4439171, 0xfdf60b33, 0x1e299f9f);
    After(22, 0xc2606d6d, 0x9dc68b63, 0xe1f20c33, 0xfe777bbf, 0xe1257970, 0x8ada8930, 0xb0638179, 0xcc899961,
          0x5cb0a9dc, 0x12dcbfdb, 0x9a43bf51, 0x7f24093a, 0x90428939, 0xc1e20d63, 0x4b7d958b);
    After(23, 0xa7a3623f, 0xc2606d6d, 0x9dc68b63, 0xe1f20c33, 0x49f5114a, 0xe1257970, 0x8ada8930, 0xb0638179,
          0x76f988da, 0xe2e2c38e, 0x759d1b0a, 0xfae64fc3, 0xc32f9970, 0x87e26b6f, 0xc855b714);
    After(24, 0xc5d53d8d, 0xa7a3623f, 0xc2606d6d, 0x9dc68b63, 0xaa47c347, 0x49f5114a, 0xe1257970, 0x8ada8930,
          0x983e5152, 0xc8215c1a, 0xc9ed56dd, 0x55bdf420, 0x49653972, 0xc7e16d2d, 0x8a5d642e);
    After(25, 0x1c2c2838, 0xc5d53d8d, 0xa7a3623f, 0xc2606d6d, 0x2823ef91, 0xaa47c347, 0x49f5114a, 0xe1257970,
          0xa831c66d, 0xb73679a2, 0xf66b0b1f, 0xa7724357, 0x69d7d34b, 0x85a5283d, 0x51d7d021);
    After(26, 0xcde8037d, 0x1c2c2838, 0xc5d53d8d, 0xa7a3623f, 0x14383d8e, 0x2823ef91, 0xaa47c347, 0x49f5114a,
          0xb00327c8, 0xe5bc3909, 0xc89998a8, 0x958ca0fb, 0xaa67efc1, 0xcdec293d, 0x1fa902d7);
    After(27, 0xb62ec4bc, 0xcde8037d, 0x1c2c2838, 0xc5d53d8d, 0xc74c6516, 0x14383d8e, 0x2823ef91, 0xaa47c347,
          0xbf597fc7, 0x32663c5b, 0xb37cf281, 0x5ff7537b, 0x2c2baf87, 0x9c2c003c, 0x282a826b);
    After(28, 0x77d37528, 0xb62ec4bc, 0xcde8037d, 0x1c2c2838, 0xedffbff8, 0xc74c6516, 0x14383d8e, 0x2823ef91,
          0xc6e00bf3, 0x9d209d67, 0xf963c20e, 0xe375bd7e, 0xd54c2516, 0xf7ea453c, 0x44e67b7f);
    After(29, 0x363482c9, 0x77d37528, 0xb62ec4bc, 0xcde8037d, 0x6112a3b7, 0xedffbff8, 0xc74c6516, 0x14383d8e,
          0xd5a79147, 0xec8726cb, 0x89cfb5ce, 0x2239b36a, 0xe75ee7b0, 0x3636c4a8, 0xdfff90ba);
    After(30, 0xa0060b30, 0x363482c9, 0x77d37528, 0xb62ec4bc, 0xade79437, 0x6112a3b7, 0xedffbff8, 0xc74c6516,
          0x06ca6351, 0x702138a4, 0x69a8407c, 0xab883974, 0x611aabff, 0x36160328, 0x4adae67e);
    After(31, 0xea992a22, 0xa0060b30, 0x363482c9, 0x77d37528, 0x0109ab3a, 0xade79437, 0x6112a3b7, 0xedffbff8,
          0x14292967, 0xd3b7973b, 0x8f1995eb, 0x0b919a99, 0x611380b7, 0xa2140a20, 0x42859bea);
  }

  lemma Rounds48()
    ensures HashIs(48, State(0x4172328d, 0xa14c14b0, 0x72ab4b91, 0x26628815,
                         0xfecf0bc6, 0xd57b94a9, 0xb7755da1, 0xa80f11f0))
  {
    hide HashIs, WordIs, KIs;
    Words32();
    Constants32();
    Rounds32();
    After(32, 0x73b33bf5, 0xea992a22, 0xa0060b30, 0x363482c9, 0xba591112, 0x0109ab3a, 0xade79437, 0x6112a3b7,
          0x27b70a85, 0x93f5997f, 0x4fa886aa, 0x4436a63b, 0x05af8537, 0xe2932b30, 0x66a5732d);
    After(33, 0x98e12507, 0x73b33bf5, 0xea992a22, 0xa0060b30, 0x9cd9f5f6, 0xba591112, 0x0109ab3a, 0xade79437,
          0x2e1b2138, 0x3b68ba73, 0x4a90902b, 0x085a07a7, 0x99591b1a, 0xfab12b27, 0xb91e92a3);
    After(34, 0xfe604df5, 0x98e12507, 0x73b33bf5, 0xea992a22, 0x59249dd3, 0x9cd9f5f6, 0xba591112, 0x0109ab3a,
          0x4d2c6dfc, 0xaff4ffc1, 0x91003786, 0x65415f48, 0xba5995d2, 0xfae12df5, 0x1dc60e11);
    After(35, 0xa9a7738c, 0xfe604df5, 0x98e12507, 0x73b33bf5, 0x085f3833, 0x59249dd3, 0x9cd9f5f6, 0xba591112,
          0x53380d13, 0xf10a5c62, 0x2bc2a37e, 0xe5dc6e83, 0x9c84ddd7, 0xb8e16585, 0x80fcc6e1);
    After(36, 0x65a0cfe4, 0xa9a7738c, 0xfe604df5, 0x98e12507, 0xf4b002d6, 0x085f3833, 0x59249dd3, 0x9cd9f5f6,
          0x650a7354, 0x0a8b3996, 0xe5748f69, 0x590d3d71, 0x09149d13, 0xeda04fe4, 0x6e917d64);
    After(37, 0x41a65cb1, 0x65a0cfe4, 0xa9a7738c, 0xfe604df5, 0x0772a26b, 0xf4b002d6, 0x085f3833, 0x59249dd3,
          0x766a0abb, 0x72af830a, 0x2c915f18, 0x582c115e, 0x0c3d1a52, 0x61a65fa4, 0xa6a75748);
    After(38, 0x34df1604, 0x41a65cb1, 0x65a0cfe4, 0xa9a7738c, 0xa507a53d, 0x0772a26b, 0xf4b002d6, 0x085f3833,
          0x81c2c92e, 0x9409e33e, 0xc14e73aa, 0xd2f220b2, 0x55b2a2eb, 0x65a65ea4, 0x46d0a83c);
    After(39, 0x6dc57a8a, 0x34df1604, 0x41a65cb1, 0x65a0cfe4, 0xf0781bc8, 0xa507a53d, 0x0772a26b, 0xf4b002d6,
          0x92722c85, 0x24641522, 0x5ac8193e, 0x66d20b14, 0xa702a12b, 0x65c75e80, 0xb95af0bc);
    After(40, 0x79ea687a, 0x6dc57a8a, 0x34df1604, 0x41a65cb1, 0x1efbc0a0, 0xf0781bc8, 0xa507a53d, 0x0772a26b,
          0xa2bfe8a1, 0x9f47bf94, 0x7408bcaa, 0xe9986075, 0xb17c259d, 0x7dcf7a0a, 0xe48ed0b2);
    After(41, 0xd6670766, 0x79ea687a, 0x6dc57a8a, 0x34df1604, 0x26352d63, 0x1efbc0a0, 0xf0781bc8, 0xa507a53d,
          0xa81a664b, 0xf0a64f5a, 0x12b2e9b8, 0x3a6aa383, 0xd67912a8, 0x7de76a6a, 0x4eac110d);
    After(42, 0xdf46652f, 0xd6670766, 0x79ea687a, 0x6dc57a8a, 0x838b2711, 0x26352d63, 0x1efbc0a0, 0xf0781bc8,
          0xc24b8b70, 0x3e246a79, 0xc73bdc05, 0x61add539, 0x1e71e5a1, 0xdf66656e, 0x7107cc8b);
    After(43, 0x17aa0dfe, 0xdf46652f, 0xd6670766, 0x79ea687a, 0xdecd4715, 0x838b2711, 0x26352d63, 0x1efbc0a0,
          0xc76c51a3, 0x27333ba3, 0x422dc671, 0xd363665b, 0xa2b92f73, 0xd766056e, 0x83b7e3b4);
    After(44, 0x9d4baf93, 0x17aa0dfe, 0xdf46652f, 0xd6670766, 0xfda24c2e, 0xdecd4715, 0x838b2711, 0x26352d63,
          0xd192e819, 0x0c4763f2, 0xb5704fcc, 0xef0f2a07, 0xde896715, 0x9f4a2dbf, 0xd1a80a8a);
    After(45, 0x26628815, 0x9d4baf93, 0x17aa0dfe, 0xdf46652f, 0xa80f11f0, 0xfda24c2e, 0xdecd4715, 0x838b2711,
          0xd6990624, 0x840abf27, 0x8311c588, 0xfb3dc5f1, 0xfec24625, 0x176a8d97, 0xd82ef872);
    After(46, 0x72ab4b91, 0x26628815, 0x9d4baf93, 0x17aa0dfe, 0xb7755da1, 0xa80f11f0, 0xfda24c2e, 0xdecd4715,
          0xf40e3585, 0x7a290d5d, 0xad0f0274, 0x8845eb06, 0xe88711ae, 0x366b8b91, 0xbdd186ab);
    After(47, 0xa14c14b0, 0x72ab4b91, 0x26628815, 0x9d4baf93, 0xd57b94a9, 0xb7755da1, 0xa80f11f0, 0xfda24c2e,
          0x106aa070, 0x065c43da, 0xbd84cdc9, 0x8fa515ca, 0xbd7515f1, 0x226a0891, 0x61835c33);
  }

  lemma Rounds64()
    ensures HashIs(64, State(0x506e3058, 0xd39a2165, 0x04d24d6c, 0xb85e2ce9,
                         0x5ef50f24, 0xfb121210, 0x948d25b6, 0x961f4894))
  {
    hide HashIs, WordIs, KIs;
    Words48();
    Constants48();
    Rounds48();
    After(48, 0x4172328d, 0xa14c14b0, 0x72ab4b91, 0x26628815, 0xfecf0bc6, 0xd57b94a9, 0xb7755da1, 0xa80f11f0,
          0x19a4c116, 0xfb3e89cb, 0x0cfcb237, 0x04a106b1, 0xd57b54a1, 0x616a1291, 0x970eb823);
    After(49, 0x05757ceb, 0x4172328d, 0xa14c14b0, 0x72ab4b91, 0xbd714038, 0xfecf0bc6, 0xd57b94a9, 0xb7755da1,
          0x1e376c08, 0xcc7617db, 0xf3f6d884, 0x5d427776, 0xfc4b9481, 0x017434a9, 0xfbb0ed7b);
    After(50, 0xf11bfaa8, 0x05757ceb, 0x4172328d, 0xa14c14b0, 0x6e5c390c, 0xbd714038, 0xfecf0bc6, 0xd57b94a9,
          0x2748774c, 0xb9e66c34, 0x86ebd5b1, 0x3e283d54, 0xbcd302ca, 0x41737aa9, 0xb1a5b847);
    After(51, 0x7a0508a1, 0xf11bfaa8, 0x05757ceb, 0x4172328d, 0x52f1ccf7, 0x6e5c390c, 0xbd714038, 0xfecf0bc6,
          0x34b0bcb5, 0xa9993667, 0x0fa817e8, 0x3b47e2a3, 0xef50080c, 0x711578a9, 0x07b0e991);
    After(52, 0x886e7a22, 0x7a0508a1, 0xf11bfaa8, 0x05757ceb, 0x49231c1e, 0x52f1ccf7, 0x6e5c390c, 0xbd714038,
          0x391c0cb3, 0x84badedd, 0xcae757da, 0x6b63a737, 0x667d2d16, 0xf80f7aa0, 0x4d290015);
    After(53, 0x101fd28f, 0x886e7a22, 0x7a0508a1, 0xf11bfaa8, 0x529e7d00, 0x49231c1e, 0x52f1ccf7, 0x6e5c390c,
          0x4ed8aa4a, 0xc21462bc, 0x2f35481d, 0xee7eaa12, 0x40639cf7, 0x180f5aa3, 0xae2b8d1b);
    After(54, 0xf5702fdb, 0x101fd28f, 0x886e7a22, 0x7a0508a1, 0x9f4787c3, 0x529e7d00, 0x49231c1e, 0x52f1ccf7,
          0x5b9cca4f, 0x1487472c, 0x433ccfa2, 0x55cd1720, 0x52261d1c, 0x907e7a8b, 0x6b0912ae);
    After(55, 0x3ec45cdb, 0xf5702fdb, 0x101fd28f, 0x886e7a22, 0xe50e1b4f, 0x9f4787c3, 0x529e7d00, 0x49231c1e,
          0x682e6ff3, 0xb20f7a99, 0x381b8def, 0xd1653e5c, 0x97966743, 0x34545edb, 0xcc5cac49);
    After(56, 0x38cc9913, 0x3ec45cdb, 0xf5702fdb, 0x101fd28f, 0x54cb266b, 0xe50e1b4f, 0x9f4787c3, 0x529e7d00,
          0x748f82ee, 0xef57b9cd, 0x34ceacc3, 0x05aa8057, 0xcf0e83cb, 0x3cc41ddb, 0x8b3ebddd);
    After(57, 0xfcd1887b, 0x38cc9913, 0x3ec45cdb, 0xf5702fdb, 0x9b5e906c, 0x54cb266b, 0xe50e1b4f, 0x9f4787c3,
          0x78a5636f, 0xebe6b238, 0xfaca6b61, 0x10b627de, 0x744a0b6b, 0x3cc4985b, 0x88d3d0b3);
    After(58, 0xc062d46f, 0xfcd1887b, 0x38cc9913, 0x3ec45cdb, 0x7e44008e, 0x9b5e906c, 0x54cb266b, 0xe50e1b4f,
          0x84c87814, 0x9fe3095e, 0xd837090c, 0x0a369fbd, 0x1acf266d, 0xf8c0987b, 0x2ebf62eb);
    After(59, 0xffb70472, 0xc062d46f, 0xfcd1887b, 0x38cc9913, 0x6d83bfc6, 0x7e44008e, 0x9b5e906c, 0x54cb266b,
          0x8cc70208, 0x78bc8d4b, 0x406bf75a, 0x20a45dbe, 0xfe5c00ae, 0xfcf3847b, 0x794f142a);
    After(60, 0xb6ae8fff, 0xffb70472, 0xc062d46f, 0xfcd1887b, 0xb21bad3d, 0x6d83bfc6, 0x7e44008e, 0x9b5e906c,
          0x90befffa, 0xa43fcf15, 0x2869e851, 0x5ca8b318, 0x6c47ad86, 0xf6a6847f, 0x994dc019);
    After(61, 0xb85e2ce9, 0xb6ae8fff, 0xffb70472, 0xc062d46f, 0x961f4894, 0xb21bad3d, 0x6d83bfc6, 0x7e44008e,
          0xa4506ceb, 0x668b2ff8, 0x71e9ef2a, 0x4f6ef480, 0xfb9bbf56, 0xbebe0cfb, 0xd42a5147);
    After(62, 0x04d24d6c, 0xb85e2ce9, 0xb6ae8fff, 0xffb70472, 0x948d25b6, 0x961f4894, 0xb21bad3d, 0x6d83bfc6,
          0xbef9a3f7, 0xeeaba2cc, 0x236105da, 0x2a127e78, 0xb61f889d, 0xb4de0ded, 0xfb5b0d9e);
    After(63, 0xd39a2165, 0x04d24d6c, 0xb85e2ce9, 0xb6ae8fff, 0xfb121210, 0x948d25b6, 0x961f4894, 0xb21bad3d,
          0xc67178f2, 0x12b1edeb, 0x174d83c6, 0x88fa2277, 0x940d4894, 0x90da2d6d, 0xa8467f25);
  }

  lemma Compressed()
    ensures |PADDED| == BLOCK
    ensures NextHash(INITIAL, PADDED) == State(0xba7816bf, 0x8f01cfea, 0x414140de, 0x5dae2223,
                                               0xb00361a3, 0x96177a9c, 0xb410ff61, 0xf20015ad)
  {
    hide Rounds, PADDED, W, K;
    Rounds64();
  }

  // The digest published for the three bytes "abc".
  lemma DigestOfAbc()
    ensures Digest(ABC) == [
              0xba, 0x78, 0x16, 0xbf, 0x8f, 0x01, 0xcf, 0xea, 0x41, 0x41, 0x40, 0xde, 0x5d, 0xae, 0x22, 0x23,
              0xb0, 0x03, 0x61, 0xa3, 0x96, 0x17, 0x7a, 0x9c, 0xb4, 0x10, 0xff, 0x61, 0xf2, 0x00, 0x15, 0xad]
  {
    hide NextHash, PADDED, INITIAL;
    Padded();
    Compressed();
    FoldOne(NextHash, INITIAL, PADDED);
  }
}
