/** Hashing block by block: folding a block function over a padded message. */
module BlockHash {
  import opened Machine

  const BLOCK := 64

  // A block function takes a state and 64 bytes to the next state.
  type BlockFunction<!S> = (S, seq<octet>) -> S

  function Fold<S>(f: BlockFunction<S>, h: S, s: seq<octet>): S
    requires |s| % BLOCK == 0
    decreases |s|
  {
    if s == [] then h else Fold(f, f(h, s[..BLOCK]), s[BLOCK..])
  }

  lemma {:induction false} FoldAppend<S>(f: BlockFunction<S>, h: S, s: seq<octet>, t: seq<octet>)
    requires |s| % BLOCK == 0 && |t| % BLOCK == 0
    ensures Fold(f, h, s + t) == Fold(f, Fold(f, h, s), t)
    decreases |s|
  {
    if s == [] {
      assert s + t == t;
    } else {
      assert (s + t)[..BLOCK] == s[..BLOCK] && (s + t)[BLOCK..] == s[BLOCK..] + t;
      FoldAppend(f, f(h, s[..BLOCK]), s[BLOCK..], t);
    }
  }

  lemma FoldOne<S>(f: BlockFunction<S>, h: S, b: seq<octet>)
    requires |b| == BLOCK
    ensures Fold(f, h, b) == f(h, b)
  {
    assert b[..BLOCK] == b && b[BLOCK..] == [];
  }

  // Where the bytes not yet folded begin.
  function Edge(n: nat): (e: nat)
    ensures e <= n < e + BLOCK && e % BLOCK == 0
  {
    n - n % BLOCK
  }

  // State h and buffered bytes hold message m.
  predicate Holds<S(==)>(f: BlockFunction<S>, iv: S, m: seq<octet>, h: S, buffered: seq<octet>) {
    buffered == m[Edge(|m|)..] && h == Fold(f, iv, m[..Edge(|m|)])
  }

  lemma EdgeStays(n: nat, k: nat)
    requires n - Edge(n) + k < BLOCK
    ensures Edge(n + k) == Edge(n)
  {
  }

  lemma EdgeMoves(n: nat, k: nat)
    requires n - Edge(n) + k == BLOCK
    ensures Edge(n + k) == n + k == Edge(n) + BLOCK
  {
  }

  // More bytes that do not fill the block are only buffered.
  lemma HoldsMore<S>(f: BlockFunction<S>, iv: S, m: seq<octet>, h: S, buffered: seq<octet>, d: seq<octet>)
    requires Holds(f, iv, m, h, buffered) && |buffered| + |d| < BLOCK
    ensures Holds(f, iv, m + d, h, buffered + d)
  {
    hide Edge, Fold;
    EdgeStays(|m|, |d|);
    SplitMore(m, d, Edge(|m|));
  }

  lemma SplitMore(m: seq<octet>, d: seq<octet>, e: nat)
    requires e <= |m|
    ensures (m + d)[..e] == m[..e] && (m + d)[e..] == m[e..] + d && m + d == m[..e] + (m[e..] + d)
  {
  }

  // Bytes that fill the block are folded in with it.
  lemma HoldsBlock<S>(f: BlockFunction<S>, iv: S, m: seq<octet>, h: S, buffered: seq<octet>, d: seq<octet>)
    requires Holds(f, iv, m, h, buffered) && |buffered| + |d| == BLOCK
    ensures Holds(f, iv, m + d, f(h, buffered + d), [])
  {
    hide Edge, Fold;
    var e, m2 := Edge(|m|), m + d;
    EdgeMoves(|m|, |d|);
    SplitMore(m, d, e);
    assert m2[..|m2|] == m2 && m2[|m2|..] == [];
    FoldAppend(f, iv, m[..e], buffered + d);
    FoldOne(f, Fold(f, iv, m[..e]), buffered + d);
  }

  lemma HoldsNothing<S>(f: BlockFunction<S>, iv: S)
    ensures Holds(f, iv, [], iv, [])
  {
    var none: seq<octet> := [];
    assert none[..0] == none && none[0..] == none;
  }

  lemma HoldsAll<S>(f: BlockFunction<S>, iv: S, m: seq<octet>, h: S)
    requires Holds(f, iv, m, h, [])
    ensures |m| % BLOCK == 0 && h == Fold(f, iv, m)
  {
    hide Fold;
    var e := Edge(|m|);
    assert |m[e..]| == |m| - e;
    assert m[..|m|] == m;
  }

  // ---- padding, as section 5.1.1 of FIPS 180-4 and section 3.1 of RFC 1321 define it

  // How many zero bytes follow the 0x80: the fewest that leave 8 bytes of the block free.
  function ZeroCount(n: nat): (z: nat)
    ensures z < BLOCK && (n + 1 + z) % BLOCK == BLOCK - 8
  {
    (119 - n % BLOCK) % BLOCK
  }

  lemma FewestZeros(n: nat, z: nat)
    requires (n + 1 + z) % BLOCK == BLOCK - 8
    ensures ZeroCount(n) <= z
  {
    var a, b := (n + 1 + z) / BLOCK, (n + 1 + ZeroCount(n)) / BLOCK;
    assert ZeroCount(n) - z == (b - a) * BLOCK;
  }

  function Zeros(z: nat): (s: seq<octet>)
    ensures |s| == z
  {
    seq(z, _ => 0)
  }

  // The message with the first k zeros of its padding.
  function Padding(m: seq<octet>, k: nat): (p: seq<octet>)
    ensures |p| == |m| + 1 + k
  {
    m + [0x80] + Zeros(k)
  }

  // The message with its padding; the length bytes are given.
  function Pad(m: seq<octet>, length: seq<octet>): (p: seq<octet>)
    requires |length| == 8
    ensures |p| % BLOCK == 0
  {
    Padding(m, ZeroCount(|m|)) + length
  }

  lemma PadIs(m: seq<octet>, length: seq<octet>)
    requires |length| == 8
    ensures Pad(m, length) == Padding(m, ZeroCount(|m|)) + length
  {
  }

  // Bits of a message as the 64-bit counters hold them.
  function BitLength(n: nat): uint64 {
    8 * n % TWO_64
  }

  // The length counted so far, times eight, wraps as the length itself does.
  lemma BitsOfWrapped(n: nat)
    ensures 8 * (n % TWO_64) % TWO_64 == BitLength(n)
  {
    var q := n / TWO_64;
    assert 8 * n == 8 * (n % TWO_64) + TWO_64 * (8 * q);
    WrapMultiple(8 * (n % TWO_64), 8 * q);
  }

  lemma BitsAdd(n: nat, k: nat)
    ensures (BitLength(n) + 8 * k % TWO_64) % TWO_64 == BitLength(n + k)
  {
    ModSum(8 * n, 8 * k);
  }

  lemma ModSum(x: nat, y: nat)
    ensures (x % TWO_64 + y % TWO_64) % TWO_64 == (x + y) % TWO_64
  {
    WrapMultiple(x % TWO_64 + y % TWO_64, x / TWO_64 + y / TWO_64);
  }

  lemma WrapMultiple(x: nat, k: nat)
    ensures (x + TWO_64 * k) % TWO_64 == x % TWO_64
  {
  }

  lemma PaddingStart(m: seq<octet>)
    ensures Padding(m, 0) == m + [0x80]
  {
  }

  lemma PaddingMore(m: seq<octet>, k: nat)
    ensures Padding(m, k) + [0] == Padding(m, k + 1)
  {
    assert Zeros(k) + [0] == Zeros(k + 1);
  }

  // The block has room for just the length after the last zero, and not before.
  lemma PaddingDone(n: nat, k: nat)
    requires k <= ZeroCount(n)
    ensures (n + 1 + k) % BLOCK == BLOCK - 8 <==> k == ZeroCount(n)
  {
  }
}
