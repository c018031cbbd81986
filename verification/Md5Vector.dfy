/** MD5 of "abc", step by step, to the digest that the test suite of RFC 1321 gives. */
module Md5Vector {
  import opened Machine
  import opened BlockHash
  import opened Md5

  const ABC: seq<octet> := [97, 98, 99]

  // The bytes, the bit that ends them, zeros, and their length of 24 bits.
  const PADDED: seq<octet> := ABC + [0x80] + Zeros(52) + [24, 0, 0, 0, 0, 0, 0, 0]

  lemma Padded()
    ensures |PADDED| == BLOCK && Pad(ABC, LengthOf(ABC)) == PADDED
  {
    hide LengthOf, Zeros;
    LengthIs();
  }

  lemma LengthIs()
    ensures LengthOf(ABC) == [24, 0, 0, 0, 0, 0, 0, 0]
  {
    hide LengthByte, BitLength;
    EarlyBytes();
    LateBytes();
    BitsOfAbc();
  }

  lemma BitsOfAbc()
    ensures BitLength(3) as bv64 == 24
  {
    hide BitLength;
    ThreeBytes();
  }

  lemma ThreeBytes()
    ensures BitLength(3) == 24
  {
  }

  lemma EarlyBytes()
    ensures LengthByte(24, 0) == 24 && LengthByte(24, 1) == 0 && LengthByte(24, 2) == 0 && LengthByte(24, 3) == 0
  {
  }

  lemma LateBytes()
    ensures LengthByte(24, 4) == 0 && LengthByte(24, 5) == 0 && LengthByte(24, 6) == 0 && LengthByte(24, 7) == 0
  {
  }

  lemma PaddedBytes()
    ensures |PADDED| == BLOCK && PADDED[56] == 24
    ensures PADDED[0] == 97 && PADDED[1] == 98 && PADDED[2] == 99 && PADDED[3] == 0x80
    ensures forall i :: 4 <= i < 64 && i != 56 ==> PADDED[i] == 0
  {
    var head, tail: seq<octet> := [97, 98, 99, 0x80], [24, 0, 0, 0, 0, 0, 0, 0];
    assert ABC + [0x80] == head;
    SpreadOut(head, tail);
  }

  lemma SpreadOut(head: seq<octet>, tail: seq<octet>)
    requires |head| == 4 && |tail| == 8 && forall i :: 0 < i < 8 ==> tail[i] == 0
    ensures
      var s := head + Zeros(52) + tail;
      && |s| == 64 && s[0] == head[0] && s[1] == head[1] && s[2] == head[2] && s[3] == head[3]
      && s[56] == tail[0] && forall i :: 4 <= i < 64 && i != 56 ==> s[i] == 0
  {
  }

  // ---- the words of the block

  function AbcWord(k: nat): bv32 {
    if k == 0 then 0x80636261 else if k == 14 then 24 else 0
  }

  lemma Words(k: nat)
    requires k < 16
    ensures |PADDED| == BLOCK && Word(PADDED, k) == AbcWord(k)
  {
    hide PADDED;
    PaddedBytes();
    if k == 0 {
      WordOfBytes(k, 97, 98, 99, 0x80);
    } else if k == 14 {
      WordOfBytes(k, 24, 0, 0, 0);
    } else {
      WordOfBytes(k, 0, 0, 0, 0);
    }
  }

  lemma WordOfBytes(k: nat, b0: octet, b1: octet, b2: octet, b3: octet)
    requires k < 16 && |PADDED| == BLOCK
    requires PADDED[4 * k] == b0 && PADDED[4 * k + 1] == b1 && PADDED[4 * k + 2] == b2 && PADDED[4 * k + 3] == b3
    ensures Word(PADDED, k) == b0 as bv32 | (b1 as bv32 << 8) | (b2 as bv32 << 16) | (b3 as bv32 << 24)
  {
    hide PADDED;
  }

  // ---- the table

  predicate TIs(i: nat, v: bv32) {
    i < |T| && T[i] == v
  }

  lemma ConstantAt(i: nat)
    requires i < 16
    ensures |T| == 64 && |T0| == |T1| == |T2| == |T3| == 16
    ensures T[i] == T0[i] && T[16 + i] == T1[i] && T[32 + i] == T2[i] && T[48 + i] == T3[i]
  {
    hide T0, T1, T2, T3;
    RowLengths();
  }

  lemma RowLengths()
    ensures |T0| == |T1| == |T2| == |T3| == 16
  {
  }

  lemma Constants0()
    ensures TIs(0, 0xd76aa478) && TIs(1, 0xe8c7b756) && TIs(2, 0x242070db) && TIs(3, 0xc1bdceee)
    ensures TIs(4, 0xf57c0faf) && TIs(5, 0x4787c62a) && TIs(6, 0xa8304613) && TIs(7, 0xfd469501)
    ensures TIs(8, 0x698098d8) && TIs(9, 0x8b44f7af) && TIs(10, 0xffff5bb1) && TIs(11, 0x895cd7be)
    ensures TIs(12, 0x6b901122) && TIs(13, 0xfd987193) && TIs(14, 0xa679438e) && TIs(15, 0x49b40821)
  {
    hide T;
    ConstantAt(0);
    ConstantAt(1);
    ConstantAt(2);
    ConstantAt(3);
    ConstantAt(4);
    ConstantAt(5);
    ConstantAt(6);
    ConstantAt(7);
    ConstantAt(8);
    ConstantAt(9);
    ConstantAt(10);
    ConstantAt(11);
    ConstantAt(12);
    ConstantAt(13);
    ConstantAt(14);
    ConstantAt(15);
  }

  lemma Constants16()
    ensures TIs(16, 0xf61e2562) && TIs(17, 0xc040b340) && TIs(18, 0x265e5a51) && TIs(19, 0xe9b6c7aa)
    ensures TIs(20, 0xd62f105d) && TIs(21, 0x02441453) && TIs(22, 0xd8a1e681) && TIs(23, 0xe7d3fbc8)
    ensures TIs(24, 0x21e1cde6) && TIs(25, 0xc33707d6) && TIs(26, 0xf4d50d87) && TIs(27, 0x455a14ed)
    ensures TIs(28, 0xa9e3e905) && TIs(29, 0xfcefa3f8) && TIs(30, 0x676f02d9) && TIs(31, 0x8d2a4c8a)
  {
    hide T;
    ConstantAt(0);
    ConstantAt(1);
    ConstantAt(2);
    ConstantAt(3);
    ConstantAt(4);
    ConstantAt(5);
    ConstantAt(6);
    ConstantAt(7);
    ConstantAt(8);
    ConstantAt(9);
    ConstantAt(10);
    ConstantAt(11);
    ConstantAt(12);
    ConstantAt(13);
    ConstantAt(14);
    ConstantAt(15);
  }

  lemma Constants32()
    ensures TIs(32, 0xfffa3942) && TIs(33, 0x8771f681) && TIs(34, 0x6d9d6122) && TIs(35, 0xfde5380c)
    ensures TIs(36, 0xa4beea44) && TIs(37, 0x4bdecfa9) && TIs(38, 0xf6bb4b60) && TIs(39, 0xbebfbc70)
    ensures TIs(40, 0x289b7ec6) && TIs(41, 0xeaa127fa) && TIs(42, 0xd4ef3085) && TIs(43, 0x04881d05)
    ensures TIs(44, 0xd9d4d039) && TIs(45, 0xe6db99e5) && TIs(46, 0x1fa27cf8) && TIs(47, 0xc4ac5665)
  {
    hide T;
    ConstantAt(0);
    ConstantAt(1);
    ConstantAt(2);
    ConstantAt(3);
    ConstantAt(4);
    ConstantAt(5);
    ConstantAt(6);
    ConstantAt(7);
    ConstantAt(8);
    ConstantAt(9);
    ConstantAt(10);
    ConstantAt(11);
    ConstantAt(12);
    ConstantAt(13);
    ConstantAt(14);
    ConstantAt(15);
  }

  lemma Constants48()
    ensures TIs(48, 0xf4292244) && TIs(49, 0x432aff97) && TIs(50, 0xab9423a7) && TIs(51, 0xfc93a039)
    ensures TIs(52, 0x655b59c3) && TIs(53, 0x8f0ccc92) && TIs(54, 0xffeff47d) && TIs(55, 0x85845dd1)
    ensures TIs(56, 0x6fa87e4f) && TIs(57, 0xfe2ce6e0) && TIs(58, 0xa3014314) && TIs(59, 0x4e0811a1)
    ensures TIs(60, 0xf7537e82) && TIs(61, 0xbd3af235) && TIs(62, 0x2ad7d2bb) && TIs(63, 0xeb86d391)
  {
    hide T;
    ConstantAt(0);
    ConstantAt(1);
    ConstantAt(2);
    ConstantAt(3);
    ConstantAt(4);
    ConstantAt(5);
    ConstantAt(6);
    ConstantAt(7);
    ConstantAt(8);
    ConstantAt(9);
    ConstantAt(10);
    ConstantAt(11);
    ConstantAt(12);
    ConstantAt(13);
    ConstantAt(14);
    ConstantAt(15);
  }

  // ---- the steps

  // The registers as step i names them, the one it sets first.
  predicate Registers(i: nat, a: bv32, b: bv32, c: bv32, d: bv32) {
    i <= 64 && |PADDED| == BLOCK && Moved(Steps(INITIAL, PADDED, i), i) == State(a, b, c, d)
  }

  // Step i sets the first register to b + r; the next step names the last one first.
  lemma After(i: nat, a: bv32, b: bv32, c: bv32, d: bv32, k: bv32, w: bv32, f: bv32, n: bv6, r: bv32)
    requires i < 64 && Registers(i, a, b, c, d) && TIs(i, k) && AbcWord(Index(i)) == w && Shift(i) == n
    requires Aux(i, b, c, d) == f && Rotl(Add(Add(Add(a, f), k), w), n) == r
    ensures Registers(i + 1, d, Add(b, r), b, c)
  {
    hide PADDED, T, INITIAL, Word, AbcWord, Index, Shift, Aux, Rotl, Add, Moved, Step;
    Words(Index(i));
    MovedStep(Steps(INITIAL, PADDED, i), PADDED, i);
  }

  lemma RegistersStart()
    ensures Registers(0, 0x67452301, 0xefcdab89, 0x98badcfe, 0x10325476)
  {
    Padded();
  }

  lemma Steps16()
    ensures Registers(16, 0xdda9b9a6, 0x72aff2e0, 0xe396856b, 0xa1051895)
  {
    hide Registers, TIs;
    Constants0();
    RegistersStart();
    After(0, 0x67452301, 0xefcdab89, 0x98badcfe, 0x10325476, 0xd76aa478, 0x80636261, 0x98badcfe, 7, 0xe7036c2b);
    After(1, 0x10325476, 0xd6d117b4, 0xefcdab89, 0x98badcfe, 0xe8c7b756, 0, 0xceebcbca, 12, 0x5d796c7e);
    After(2, 0x98badcfe, 0x344a8432, 0xd6d117b4, 0xefcdab89, 0x242070db, 0, 0xdfc52fb9, 17, 0xfb253940);
    After(3, 0xefcdab89, 0x2f6fbd72, 0x344a8432, 0xd6d117b4, 0xc1bdceee, 0, 0xf4da86b6, 22, 0x4b699980);
    After(4, 0xd6d117b4, 0x7ad956f2, 0x2f6fbd72, 0x344a8432, 0xf57c0faf, 0, 0x2e4b9472, 7, 0x4c5deafd);
    After(5, 0x344a8432, 0xc73741ef, 0x7ad956f2, 0x2f6fbd72, 0x4787c62a, 0, 0x6a59fcf2, 12, 0xc474ee62);
    After(6, 0x2f6fbd72, 0x8bac3051, 0xc73741ef, 0x7ad956f2, 0xa8304613, 0, 0xf37546e3, 17, 0x94d1962a);
    After(7, 0x7ad956f2, 0x207dc67b, 0x8bac3051, 0xc73741ef, 0xfd469501, 0, 0xc72e01d5, 22, 0x720fd37b);
    After(8, 0xc73741ef, 0x928d99f6, 0x207dc67b, 0x8bac3051, 0x698098d8, 0, 0x092da073, 7, 0xf2bd9d1c);
    After(9, 0x8bac3051, 0x854b3712, 0x928d99f6, 0x207dc67b, 0x8b44f7af, 0, 0xa03dd17b, 12, 0xef97bb72);
    After(10, 0x207dc67b, 0x74e2f284, 0x854b3712, 0x928d99f6, 0xffff5bb1, 0, 0x864f3b72, 17, 0xbb3d4d98);
    After(11, 0x928d99f6, 0x3020401c, 0x74e2f284, 0x854b3712, 0x895cd7be, 0, 0xb56b7706, 22, 0x2eb4557a);
    After(12, 0x854b3712, 0x5ed49596, 0x3020401c, 0x74e2f284, 0x6b901122, 0, 0x30226214, 7, 0x7ed52410);
    After(13, 0x74e2f284, 0xdda9b9a6, 0x5ed49596, 0x3020401c, 0xfd987193, 0, 0x7c80d19e, 12, 0xc35b5eef);
    After(14, 0x3020401c, 0xa1051895, 0xdda9b9a6, 0x5ed49596, 0xa679438e, 24, 0xdfd19d86, 17, 0x42916cd6);
    After(15, 0x5ed49596, 0xe396856b, 0xa1051895, 0xdda9b9a6, 0x49b40821, 0, 0xbd2d3885, 22, 0x8f196d75);
  }

  lemma Steps32()
    ensures Registers(32, 0x790a77fb, 0x726342d3, 0xa62884aa, 0x9f47e4f8)
  {
    hide Registers, TIs;
    Constants16();
    Steps16();
    After(16, 0xdda9b9a6, 0x72aff2e0, 0xe396856b, 0xa1051895, 0xf61e2562, 0, 0x629795ea, 5, 0xcbee9e46);
    After(17, 0xa1051895, 0x3e9e9126, 0x72aff2e0, 0xe396856b, 0xc040b340, 0, 0x32bff3a2, 9, 0x0b7eef28);
    After(18, 0xe396856b, 0x4a1d804e, 0x3e9e9126, 0x72aff2e0, 0x265e5a51, 0, 0x4e1d8146, 14, 0x98409604);
    After(19, 0x72aff2e0, 0xe25e1652, 0x4a1d804e, 0x3e9e9126, 0xe9b6c7aa, 0x80636261, 0x621f104a, 20, 0xd353ee92);
    After(20, 0x3e9e9126, 0xb5b204e4, 0xe25e1652, 0x4a1d804e, 0xd62f105d, 0, 0xa0521654, 5, 0xa3f6faf6);
    After(21, 0x4a1d804e, 0x59a8ffda, 0xb5b204e4, 0xe25e1652, 0x02441453, 0, 0x55a816f6, 9, 0x13572f44);
    After(22, 0xe25e1652, 0x6d002f1e, 0x59a8ffda, 0xb5b204e4, 0xd8a1e681, 0, 0x6d08ff1e, 14, 0x3efc4a02);
    After(23, 0xb5b204e4, 0xabfc7920, 0x6d002f1e, 0x59a8ffda, 0xe7d3fbc8, 0, 0x2da87904, 20, 0x9b0cb2e7);
    After(24, 0x59a8ffda, 0x47092c07, 0xabfc7920, 0x6d002f1e, 0x21e1cde6, 0, 0xc7fc7c26, 5, 0x70e93cc8);
    After(25, 0x6d002f1e, 0xb7f268cf, 0x47092c07, 0xabfc7920, 0xc33707d6, 24, 0xe7f16c07, 9, 0x51462630);
    After(26, 0xabfc7920, 0x09388eff, 0xb7f268cf, 0x47092c07, 0xf4d50d87, 0, 0xb1fa4ccf, 14, 0xf4dd94b2);
    After(27, 0x47092c07, 0xfe1623b1, 0x09388eff, 0xb7f268cf, 0x455a14ed, 0, 0xbe1aa6b1, 20, 0x7a54a7de);
    After(28, 0xb7f268cf, 0x786acb8f, 0xfe1623b1, 0x09388eff, 0xa9e3e905, 0, 0xfe2eab8f, 5, 0x009fac6c);
    After(29, 0x09388eff, 0x790a77fb, 0x786acb8f, 0xfe1623b1, 0xfcefa3f8, 0, 0x786aebbf, 9, 0x263d6cfd);
    After(30, 0xfe1623b1, 0x9f47e4f8, 0x790a77fb, 0x786acb8f, 0x676f02d9, 0, 0x1942f4f8, 14, 0x06e09fb2);
    After(31, 0x786acb8f, 0xa62884aa, 0x9f47e4f8, 0x790a77fb, 0x8d2a4c8a, 0, 0xa64d84aa, 20, 0xcc3abe29);
  }

  lemma Steps48()
    ensures Registers(48, 0x7f2e507b, 0x7beb9700, 0x8fae6399, 0x99d9679d)
  {
    hide Registers, TIs;
    Constants32();
    Steps32();
    After(32, 0x790a77fb, 0x726342d3, 0xa62884aa, 0x9f47e4f8, 0xfffa3942, 0, 0x4b0c2281, 4, 0x410d3bec);
    After(33, 0x9f47e4f8, 0xb3707ebf, 0x726342d3, 0xa62884aa, 0x8771f681, 0, 0x673bb8c6, 11, 0xaca1fc6f);
    After(34, 0xa62884aa, 0x60127b2e, 0xb3707ebf, 0x726342d3, 0x6d9d6122, 0, 0xa1014742, 16, 0x2d0eb4c7);
    After(35, 0x726342d3, 0x8d212ff5, 0x60127b2e, 0xb3707ebf, 0xfde5380c, 24, 0x5e432a64, 23, 0xade745d2);
    After(36, 0xb3707ebf, 0x3b0875c7, 0x8d212ff5, 0x60127b2e, 0xa4beea44, 0, 0xd63b211c, 4, 0xe6a8a1f2);
    After(37, 0x60127b2e, 0x21b117b9, 0x3b0875c7, 0x8d212ff5, 0x4bdecfa9, 0, 0x97984d8b, 11, 0x4cc3121c);
    After(38, 0x8d212ff5, 0x6e7429d5, 0x21b117b9, 0x3b0875c7, 0xf6bb4b60, 0, 0x74cd4bab, 16, 0xc700f8a9);
    After(39, 0x3b0875c7, 0x3575227e, 0x6e7429d5, 0x21b117b9, 0xbebfbc70, 0, 0x7ab01c12, 23, 0x24ba3c27);
    After(40, 0x21b117b9, 0x5a2f5ea5, 0x3575227e, 0x6e7429d5, 0x289b7ec6, 0, 0x012e550e, 4, 0xb7aeb8d4);
    After(41, 0x6e7429d5, 0x11de1779, 0x5a2f5ea5, 0x3575227e, 0xeaa127fa, 0x80636261, 0x7e846ba2, 11, 0xe8fe92bf);
    After(42, 0x3575227e, 0xfadcaa38, 0x11de1779, 0x5a2f5ea5, 0xd4ef3085, 0, 0xb12de3e4, 16, 0x36e7bb92);
    After(43, 0x5a2f5ea5, 0x31c465ca, 0xfadcaa38, 0x11de1779, 0x04881d05, 0, 0xdac6d88b, 23, 0x1a9cbf2a);
    After(44, 0x11de1779, 0x4c6124f4, 0x31c465ca, 0xfadcaa38, 0xd9d4d039, 0, 0x8779eb06, 4, 0x32cd2b87);
    After(45, 0xfadcaa38, 0x7f2e507b, 0x4c6124f4, 0x31c465ca, 0xe6db99e5, 0, 0x028b1145, 11, 0x1aab1722);
    After(46, 0x31c465ca, 0x99d9679d, 0x7f2e507b, 0x4c6124f4, 0x1fa27cf8, 0, 0xaa961312, 16, 0xf5d4fbfc);
    After(47, 0x4c6124f4, 0x8fae6399, 0x99d9679d, 0x7f2e507b, 0xc4ac5665, 0, 0x6959547f, 23, 0xec3d3367);
  }

  lemma Steps64()
    ensures Registers(64, 0x310ade8f, 0xc08226b3, 0xe484b9d8, 0x624d8cb2)
  {
    hide Registers, TIs;
    Constants48();
    Steps48();
    After(48, 0x7f2e507b, 0x7beb9700, 0x8fae6399, 0x99d9679d, 0xf4292244, 0x80636261, 0xf041fcfb, 6, 0xff3486f8);
    After(49, 0x99d9679d, 0x7b201df8, 0x7beb9700, 0x8fae6399, 0x432aff97, 0, 0x009a0afe, 10, 0x79c8cb76);
    After(50, 0x8fae6399, 0xf4e8e96e, 0x7b201df8, 0x7beb9700, 0xab9423a7, 24, 0x8fdcf407, 15, 0xbdafe58f);
    After(51, 0x7beb9700, 0xb298cefd, 0xf4e8e96e, 0x7b201df8, 0xfc93a039, 0, 0x42370791, 21, 0xd95756c7);
    After(52, 0x7b201df8, 0x8bf025c4, 0xb298cefd, 0xf4e8e96e, 0x655b59c3, 0, 0x396ff928, 6, 0x7adc38c6);
    After(53, 0xf4e8e96e, 0x06cc5e8a, 0x8bf025c4, 0xb298cefd, 0x8f0ccc92, 0, 0xc41f5a4e, 10, 0x54413920);
    After(54, 0xb298cefd, 0x5b0d97aa, 0x06cc5e8a, 0x8bf025c4, 0xffeff47d, 0, 0x79c38131, 15, 0x22559626);
    After(55, 0x8bf025c4, 0x7d632dd0, 0x5b0d97aa, 0x06cc5e8a, 0x85845dd1, 0, 0xa67e3a5f, 21, 0xbe96fe57);
    After(56, 0x06cc5e8a, 0x3bfa2c27, 0x7d632dd0, 0x5b0d97aa, 0x6fa87e4f, 0, 0xc29941a7, 6, 0x4387a00e);
    After(57, 0x5b0d97aa, 0x7f81cc35, 0x3bfa2c27, 0x7d632dd0, 0xfe2ce6e0, 0, 0xc467f218, 10, 0x89c28876);
    After(58, 0x7d632dd0, 0x094454ab, 0x7f81cc35, 0x3bfa2c27, 0xa3014314, 0, 0xb2c41bce, 15, 0x46596994);
    After(59, 0x3bfa2c27, 0x4f9dbe3f, 0x094454ab, 0x7f81cc35, 0x4e0811a1, 0, 0xc6bbeb54, 21, 0x238a17c5);
    After(60, 0x7f81cc35, 0x7327d604, 0x4f9dbe3f, 0x094454ab, 0xf7537e82, 0, 0xb822416b, 6, 0xbde3088b);
    After(61, 0x094454ab, 0x310ade8f, 0x7327d604, 0x4f9dbe3f, 0xbd3af235, 0, 0xc24d09cb, 10, 0x3142ae23);
    After(62, 0x4f9dbe3f, 0x624d8cb2, 0x310ade8f, 0x7327d604, 0x2ad7d2bb, 0, 0xdfd77374, 15, 0x82372d26);
    After(63, 0x7327d604, 0xe484b9d8, 0x624d8cb2, 0x310ade8f, 0xeb86d391, 0, 0x8cb8354a, 21, 0xdbfd6cdb);
  }

  lemma Transformed()
    ensures |PADDED| == BLOCK
    ensures NextHash(INITIAL, PADDED) == State(0x98500190, 0xb04fd23c, 0x7d3f96d6, 0x727fe128)
  {
    hide Steps, PADDED, T;
    Steps64();
  }

  // The digest published for the three bytes "abc".
  lemma DigestOfAbc()
    ensures Digest(ABC) == [
              0x90, 0x01, 0x50, 0x98, 0x3c, 0xd2, 0x4f, 0xb0, 0xd6, 0x96, 0x3f, 0x7d, 0x28, 0xe1, 0x7f, 0x72]
  {
    hide NextHash, PADDED, INITIAL;
    Padded();
    Transformed();
    FoldOne(NextHash, INITIAL, PADDED);
  }
}
