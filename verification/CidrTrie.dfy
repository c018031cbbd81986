/** The CIDR trie, node by node, and the list of CIDRs that it stands for. */
module CidrTrie {
  import opened Machine

  datatype AnyCidr = Cidr(addr: seq<octet>, prefix: nat, v6: bool)

  // Addresses take 16 bytes; the parser lets no prefix exceed the address family's bits.
  type Cidr = c: AnyCidr | |c.addr| == 16 && c.prefix <= (if c.v6 then 128 else 32)
    witness Cidr(seq(16, _ => 0), 0, false)

  // Bit i of an address, the most significant first.
  function Bit(addr: seq<octet>, i: nat): bool
    requires i < 8 * |addr|
  {
    (addr[i / 8] >> ((7 - i % 8) as bv4)) & 1 == 1
  }

  function Bits(addr: seq<octet>, n: nat): (b: seq<bool>)
    requires n <= 8 * |addr|
    ensures |b| == n
    ensures forall i :: 0 <= i < n ==> b[i] == Bit(addr, i)
  {
    seq(n, i requires 0 <= i < n => Bit(addr, i))
  }

  // What a CIDR means: the leading bits agree.
  predicate InCidr(c: seq<octet>, ip: seq<octet>, prefix: nat)
    requires prefix <= 8 * |c| && prefix <= 8 * |ip|
  {
    forall i :: 0 <= i < prefix ==> Bit(c, i) == Bit(ip, i)
  }

  class TrieNode {
    var zero: TrieNode?
    var one: TrieNode?
    var terminal: bool
    ghost const path: seq<bool>

    constructor (ghost p: seq<bool>)
      ensures zero == null && one == null && !terminal && path == p
    {
      zero, one, terminal, path := null, null, false, p;
    }

    method Attach(bit: bool, c: TrieNode)
      modifies `zero, `one
      ensures zero == (if bit then old(zero) else c) && one == (if bit then c else old(one))
    {
      if bit {
        one := c;
      } else {
        zero := c;
      }
    }
  }

  // Some stored prefix leads the bits.
  predicate Holds(prefixes: set<seq<bool>>, b: seq<bool>) {
    exists j :: 0 <= j <= |b| && b[..j] in prefixes
  }

  // The path one bit further down, and back.
  function Down(p: seq<bool>, bit: bool): (q: seq<bool>)
    ensures q != [] && Up(q) == p && q[|q| - 1] == bit
  {
    p + [bit]
  }

  function Up(q: seq<bool>): seq<bool> {
    if q == [] then [] else q[..|q| - 1]
  }

  // The node one bit below a path, among those there are.
  ghost function Below(nodes: map<seq<bool>, TrieNode>, p: seq<bool>, bit: bool): TrieNode? {
    if Down(p, bit) in nodes then nodes[Down(p, bit)] else null
  }

  // A new node below p is the only change to what is below any node.
  lemma GrownBelow(nodes: map<seq<bool>, TrieNode>, p: seq<bool>, bit: bool, c: TrieNode)
    requires p in nodes && Down(p, bit) !in nodes && forall r :: r in nodes ==> Up(r) in nodes
    ensures
      var (q, grown) := (Down(p, bit), nodes[Down(p, bit) := c]);
      && Below(grown, q, false) == null && Below(grown, q, true) == null
      && Below(grown, p, bit) == c && Below(grown, p, !bit) == Below(nodes, p, !bit)
      && (forall r, b :: r in nodes && r != p ==> Below(grown, r, b) == Below(nodes, r, b))
      && (forall r :: r in grown ==> Up(r) in grown)
  {
    hide Down, Up;
    var q := Down(p, bit);
    assert Up(Down(q, false)) == q == Up(Down(q, true)) && Up(q) == p;
    assert Down(q, false) != q && Down(q, true) != q by {
      assert q in nodes <==> false;
    }
    forall r, b | r in nodes && r != p ensures Below(nodes[q := c], r, b) == Below(nodes, r, b) {
      assert Up(Down(r, b)) == r;
    }
  }

  class Trie {
    var root: TrieNode
    var inserted: nat
    // The node at the end of every path, and the stored prefixes.
    ghost var nodes: map<seq<bool>, TrieNode>
    ghost var prefixes: set<seq<bool>>

    ghost predicate Wired(p: seq<bool>, n: TrieNode)
      reads this`nodes, n
    {
      n.zero == Below(nodes, p, false) && n.one == Below(nodes, p, true)
    }

    ghost predicate Valid()
      reads this`root, this`nodes, this`prefixes, nodes.Values
    {
      && [] in nodes && nodes[[]] == root && prefixes <= nodes.Keys
      && (forall p :: p in nodes ==> nodes[p].path == p && Up(p) in nodes)
      && (forall p :: p in nodes ==> (nodes[p].terminal <==> p in prefixes))
      && (forall p :: p in nodes ==> Wired(p, nodes[p]))
    }

    constructor ()
      ensures Valid() && fresh(nodes.Values) && prefixes == {} && inserted == 0
    {
      var n := new TrieNode([]);
      root, inserted, nodes, prefixes := n, 0, map[[] := n], {};
    }

    // The node one bit below n, made where there is none.
    method Descend(n: TrieNode, bit: bool, ghost p: seq<bool>) returns (c: TrieNode)
      requires Valid() && p in nodes && nodes[p] == n
      modifies this`nodes, nodes.Values
      ensures Valid() && Down(p, bit) in nodes && nodes[Down(p, bit)] == c
      ensures fresh(nodes.Values - old(nodes.Values))
    {
      hide Down, Up;
      var child := if bit then n.one else n.zero;
      if child == null {
        child := Grow(n, bit, p);
      }
      c := child;
    }

    method Grow(n: TrieNode, bit: bool, ghost p: seq<bool>) returns (c: TrieNode)
      requires Valid() && p in nodes && nodes[p] == n && Down(p, bit) !in nodes
      modifies this`nodes, n
      ensures Valid() && fresh(c) && nodes == old(nodes)[Down(p, bit) := c]
    {
      hide Down, Up, Below;
      c := new TrieNode(Down(p, bit));
      GrownBelow(nodes, p, bit, c);
      n.Attach(bit, c);
      nodes := nodes[Down(p, bit) := c];
      forall r | r in nodes ensures Wired(r, nodes[r]) {
        if r != Down(p, bit) && r != p {
          assert old(Wired(r, nodes[r]));
        }
      }
    }

    lemma RootNode()
      requires Valid()
      ensures [] in nodes && nodes[[]] == root
    {
    }

    method Mark(n: TrieNode, ghost p: seq<bool>)
      requires Valid() && p in nodes && nodes[p] == n
      modifies this`prefixes, n`terminal
      ensures Valid() && prefixes == old(prefixes) + {p}
    {
      hide Down, Up;
      n.terminal := true;
      prefixes := prefixes + {p};
    }

    method Insert(addr: seq<octet>, prefix: nat, maxBits: nat)
      requires Valid() && maxBits <= 8 * |addr|
      modifies this, nodes.Values
      ensures Valid() && fresh(nodes.Values - old(nodes.Values))
      ensures prefixes == old(prefixes) + {Bits(addr, Min(prefix, maxBits))}
      ensures inserted == old(inserted) + 1
    {
      hide Bit, Up, Valid;
      ghost var bits := Bits(addr, Min(prefix, maxBits));
      inserted := inserted + 1;
      var n := root;
      var i := 0;
      PathStart(bits);
      RootNode();
      while i < prefix && i < maxBits
        invariant 0 <= i <= |bits|
        invariant Valid() && bits[..i] in nodes && nodes[bits[..i]] == n
        invariant prefixes == old(prefixes) && inserted == old(inserted) + 1
        invariant fresh(nodes.Values - old(nodes.Values))
      {
        PathStep(bits, i);
        n := Descend(n, Bit(addr, i), bits[..i]);
        i := i + 1;
      }
      PathEnd(bits);
      Mark(n, bits);
    }
  }

  // Walk down until a stored prefix is met or there is nothing below.
  method Lookup(t: Trie, addr: seq<octet>, maxBits: nat) returns (found: bool)
    requires t.Valid() && maxBits <= 8 * |addr|
    ensures found == Holds(t.prefixes, Bits(addr, maxBits))
  {
    hide Bit, Up, Down;
    ghost var bits := Bits(addr, maxBits);
    var n := t.root;
    PathStart(bits);
    var i := 0;
    while i < maxBits
      invariant 0 <= i <= maxBits
      invariant bits[..i] in t.nodes && t.nodes[bits[..i]] == n
      invariant forall j :: 0 <= j < i ==> bits[..j] !in t.prefixes
    {
      if n.terminal {
        return true;
      }
      PathStep(bits, i);
      assert t.Wired(bits[..i], n);
      var child := if Bit(addr, i) then n.one else n.zero;
      if child == null {
        NothingBelow(t, bits, i);
        return false;
      }
      n := child;
      i := i + 1;
    }
    PathEnd(bits);
    found := n.terminal;
  }

  // No path, no longer path.
  lemma {:induction false} NoPathBelow(paths: set<seq<bool>>, bits: seq<bool>, i: nat, j: nat)
    requires forall p :: p in paths ==> Up(p) in paths
    requires i < j <= |bits| && bits[..i + 1] !in paths
    ensures bits[..j] !in paths
  {
    if i + 1 < j {
      NoPathBelow(paths, bits, i, j - 1);
      assert Up(bits[..j]) == bits[..j - 1];
    }
  }

  // No node, no prefix further down.
  lemma NothingBelow(t: Trie, bits: seq<bool>, i: nat)
    requires t.Valid() && i < |bits| && bits[..i + 1] !in t.nodes
    requires forall j :: 0 <= j <= i ==> bits[..j] !in t.prefixes
    ensures !Holds(t.prefixes, bits)
  {
    hide Up, Down;
    forall j | i < j <= |bits| ensures bits[..j] !in t.prefixes {
      NoPathBelow(t.nodes.Keys, bits, i, j);
    }
  }

  lemma PathStart(bits: seq<bool>)
    ensures bits[..0] == []
  {
  }

  lemma PathEnd(bits: seq<bool>)
    ensures bits[..|bits|] == bits
  {
  }

  lemma PathStep(bits: seq<bool>, i: nat)
    requires i < |bits|
    ensures Down(bits[..i], bits[i]) == bits[..i + 1]
  {
  }

  // ---- the trie and the list

  // The prefixes that inserting a list of CIDRs stores.
  ghost function Stored(cidrs: seq<Cidr>, maxBits: nat): set<seq<bool>>
    requires maxBits <= 128
  {
    set i | 0 <= i < |cidrs| :: Bits(cidrs[i].addr, Min(cidrs[i].prefix, maxBits))
  }

  // The trie holds an address exactly when a CIDR of the list contains it.
  lemma HoldsIffListed(cidrs: seq<Cidr>, ip: seq<octet>, maxBits: nat)
    requires maxBits <= 8 * |ip|
    requires maxBits <= 128
    ensures Holds(Stored(cidrs, maxBits), Bits(ip, maxBits)) <==>
      exists i :: 0 <= i < |cidrs| && InCidr(cidrs[i].addr, ip, Min(cidrs[i].prefix, maxBits))
  {
    hide Bit;
    var b := Bits(ip, maxBits);
    forall i | 0 <= i < |cidrs|
      ensures InCidr(cidrs[i].addr, ip, Min(cidrs[i].prefix, maxBits)) <==>
              b[..Min(cidrs[i].prefix, maxBits)] == Bits(cidrs[i].addr, Min(cidrs[i].prefix, maxBits))
    {
      LeadingBits(cidrs[i].addr, ip, Min(cidrs[i].prefix, maxBits), maxBits);
    }
    forall i | 0 <= i < |cidrs| && InCidr(cidrs[i].addr, ip, Min(cidrs[i].prefix, maxBits))
      ensures Holds(Stored(cidrs, maxBits), b)
    {
      assert b[..Min(cidrs[i].prefix, maxBits)] in Stored(cidrs, maxBits);
    }
    if j :| 0 <= j <= |b| && b[..j] in Stored(cidrs, maxBits) {
      var i :| 0 <= i < |cidrs| && Bits(cidrs[i].addr, Min(cidrs[i].prefix, maxBits)) == b[..j];
      assert |b[..j]| == Min(cidrs[i].prefix, maxBits);
    }
  }

  lemma LeadingBits(c: seq<octet>, ip: seq<octet>, n: nat, maxBits: nat)
    requires n <= maxBits <= 8 * |ip| && maxBits <= 8 * |c|
    ensures InCidr(c, ip, n) <==> Bits(ip, maxBits)[..n] == Bits(c, n)
  {
    hide Bit;
    var x, y := Bits(ip, maxBits)[..n], Bits(c, n);
    assert forall i :: 0 <= i < n ==> x[i] == Bit(ip, i) && y[i] == Bit(c, i);
    if x == y {
      forall i | 0 <= i < n ensures Bit(c, i) == Bit(ip, i) {
        assert x[i] == y[i];
      }
    }
  }

  // ---- the rule matcher's test

  // Whole bytes are compared, then the leading bits of the next one under a mask.
  predicate ByteMask(c: seq<octet>, ip: seq<octet>, prefix: nat)
    requires prefix <= 8 * |c| && prefix <= 8 * |ip|
  {
    var full, rem := prefix / 8, prefix % 8;
    && c[..full] == ip[..full]
    && (rem != 0 ==> Under(c[full], rem) == Under(ip[full], rem))
  }

  // The byte under the mask of its leading rem bits.
  function Under(x: octet, rem: nat): octet
    requires 0 < rem < 8
  {
    Masked(x, (8 - rem) as bv4)
  }

  function Masked(x: octet, s: bv4): octet
    requires s <= 8
  {
    x & ((0xFF as octet) << s)
  }

  function Right(x: octet, s: bv4): octet
    requires s <= 8
  {
    x >> s
  }

  function BitOf(x: octet, j: nat): bool
    requires j < 8
  {
    (x >> ((7 - j) as bv4)) & 1 == 1
  }

  // The n leading bits of a byte.
  function High(x: octet, n: nat): octet
    requires n <= 8
  {
    Right(x, (8 - n) as bv4)
  }

  lemma Successor(k: nat)
    requires k < 8
    ensures (k + 1) as bv4 == (k as bv4) + 1 && k as bv4 < 8
  {
  }

  lemma ShiftStep(x: octet, y: octet, s: bv4)
    requires s < 8
    ensures Right(x, s) == Right(y, s) <==>
              Right(x, s + 1) == Right(y, s + 1) && ((x >> s) & 1 == 1 <==> (y >> s) & 1 == 1)
  {
  }

  lemma MaskedIsRight(x: octet, s: bv4)
    requires s <= 8
    ensures Masked(x, s) == Right(x, s) << s && Right(x, s) == Masked(x, s) >> s
  {
  }

  lemma HighStep(x: octet, y: octet, n: nat)
    requires n < 8
    ensures High(x, n + 1) == High(y, n + 1) <==> High(x, n) == High(y, n) && BitOf(x, n) == BitOf(y, n)
  {
    hide Right;
    Successor(7 - n);
    ShiftStep(x, y, (7 - n) as bv4);
  }

  lemma HighMask(x: octet, y: octet, rem: nat)
    requires 0 < rem < 8
    ensures High(x, rem) == High(y, rem) <==> Under(x, rem) == Under(y, rem)
  {
    hide Right, Masked;
    Successor(7 - rem);
    MaskedIsRight(x, (8 - rem) as bv4);
    MaskedIsRight(y, (8 - rem) as bv4);
  }

  lemma HighEnds(x: octet)
    ensures High(x, 0) == 0 && High(x, 8) == x
  {
  }

  predicate SameBitsTo(x: octet, y: octet, n: nat)
    requires n <= 8
  {
    forall j :: 0 <= j < n ==> BitOf(x, j) == BitOf(y, j)
  }

  lemma {:induction false} HighIsBits(x: octet, y: octet, n: nat)
    requires n <= 8
    ensures SameBitsTo(x, y, n) <==> High(x, n) == High(y, n)
  {
    hide BitOf, High;
    if n == 0 {
      HighEnds(x);
      HighEnds(y);
    } else {
      HighStep(x, y, n - 1);
      HighIsBits(x, y, n - 1);
      assert SameBitsTo(x, y, n) <==> SameBitsTo(x, y, n - 1) && BitOf(x, n - 1) == BitOf(y, n - 1);
    }
  }

  // The bits of the bytes before `full`, and the leading bits of the next one.
  lemma BitOfByte(a: seq<octet>, i: nat)
    requires i < 8 * |a|
    ensures Bit(a, i) == BitOf(a[i / 8], i % 8)
  {
  }

  lemma ByteOfBit(a: seq<octet>, k: nat, j: nat)
    requires k < |a| && j < 8
    ensures 8 * k + j < 8 * |a| && Bit(a, 8 * k + j) == BitOf(a[k], j)
  {
    hide BitOf, Bit;
    BitOfByte(a, 8 * k + j);
    assert (8 * k + j) / 8 == k && (8 * k + j) % 8 == j;
  }

  // Comparing bytes and one masked byte is comparing the leading bits.
  lemma ByteMaskIsCidr(c: seq<octet>, ip: seq<octet>, prefix: nat)
    requires prefix <= 8 * |c| && prefix <= 8 * |ip|
    ensures ByteMask(c, ip, prefix) <==> InCidr(c, ip, prefix)
  {
    hide Bit, BitOf, High, Under;
    if InCidr(c, ip, prefix) {
      CidrByteMask(c, ip, prefix);
    }
    if ByteMask(c, ip, prefix) {
      forall i | 0 <= i < prefix ensures Bit(c, i) == Bit(ip, i) {
        ByteMaskBit(c, ip, prefix, i);
      }
    }
  }

  lemma CidrByteMask(c: seq<octet>, ip: seq<octet>, prefix: nat)
    requires prefix <= 8 * |c| && prefix <= 8 * |ip| && InCidr(c, ip, prefix)
    ensures ByteMask(c, ip, prefix)
  {
    hide Bit, BitOf, High, Under;
    var full, rem := prefix / 8, prefix % 8;
    forall k | 0 <= k < full ensures c[k] == ip[k] {
      SameByte(c, ip, prefix, k, 8);
      HighEnds(c[k]);
      HighEnds(ip[k]);
    }
    if rem != 0 {
      SameByte(c, ip, prefix, full, rem);
      HighMask(c[full], ip[full], rem);
    }
  }

  lemma SameByte(c: seq<octet>, ip: seq<octet>, prefix: nat, k: nat, n: nat)
    requires prefix <= 8 * |c| && prefix <= 8 * |ip| && InCidr(c, ip, prefix)
    requires k < |c| && k < |ip| && 8 * k + n <= prefix && n <= 8
    ensures High(c[k], n) == High(ip[k], n)
  {
    hide Bit, BitOf, High;
    forall j | 0 <= j < n ensures BitOf(c[k], j) == BitOf(ip[k], j) {
      ByteOfBit(c, k, j);
      ByteOfBit(ip, k, j);
      assert Bit(c, 8 * k + j) == Bit(ip, 8 * k + j);
    }
    HighIsBits(c[k], ip[k], n);
  }

  lemma ByteMaskBit(c: seq<octet>, ip: seq<octet>, prefix: nat, i: nat)
    requires prefix <= 8 * |c| && prefix <= 8 * |ip| && ByteMask(c, ip, prefix) && i < prefix
    ensures Bit(c, i) == Bit(ip, i)
  {
    hide Bit, BitOf, High, Under;
    var full, rem, k := prefix / 8, prefix % 8, i / 8;
    BitOfByte(c, i);
    BitOfByte(ip, i);
    if k < full {
      assert c[..full][k] == ip[..full][k];
    } else {
      assert k == full && i % 8 < rem;
      HighMask(c[full], ip[full], rem);
      HighIsBits(c[full], ip[full], rem);
    }
  }

  datatype IpMatcher = IpMatcher(cidrs: seq<Cidr>, any: bool, negated: bool)

  // What the matcher means: any address, or being in no listed CIDR or in some, as negated.
  predicate Listed(m: IpMatcher, ip: seq<octet>, v6: bool)
    requires |ip| == 16
  {
    exists i :: 0 <= i < |m.cidrs| && m.cidrs[i].v6 == v6 && InCidr(m.cidrs[i].addr, ip, m.cidrs[i].prefix)
  }

  method Matches(m: IpMatcher, ip: seq<octet>, v6: bool) returns (r: bool)
    requires |ip| == 16
    ensures r == (m.any || Listed(m, ip, v6) != m.negated)
  {
    hide Bit, ByteMask, InCidr;
    if m.any {
      return true;
    }
    var i := 0;
    while i < |m.cidrs|
      invariant 0 <= i <= |m.cidrs|
      invariant forall k :: 0 <= k < i && m.cidrs[k].v6 == v6 ==> !InCidr(m.cidrs[k].addr, ip, m.cidrs[k].prefix)
    {
      var c := m.cidrs[i];
      if c.v6 == v6 {
        ByteMaskIsCidr(c.addr, ip, c.prefix);
        if ByteMask(c.addr, ip, c.prefix) {
          return !m.negated;
        }
      }
      i := i + 1;
    }
    r := m.negated;
  }

  // A trie filled with the CIDRs of one family answers as a matcher over the same list.
  lemma TrieIsMatcher(cidrs: seq<Cidr>, ip: seq<octet>, v6: bool)
    requires |ip| == 16
    requires forall i :: 0 <= i < |cidrs| ==> cidrs[i].v6 == v6
    ensures
      var bits := if v6 then 128 else 32;
      Holds(Stored(cidrs, bits), Bits(ip, bits)) == Listed(IpMatcher(cidrs, false, false), ip, v6)
  {
    hide Bit, Holds, Stored, InCidr;
    var bits := if v6 then 128 else 32;
    HoldsIffListed(cidrs, ip, bits);
    var m := IpMatcher(cidrs, false, false);
    if i :| 0 <= i < |cidrs| && InCidr(cidrs[i].addr, ip, Min(cidrs[i].prefix, bits)) {
      assert m.cidrs[i].v6 == v6 && Min(cidrs[i].prefix, bits) == cidrs[i].prefix;
    }
    if i :| 0 <= i < |cidrs| && InCidr(m.cidrs[i].addr, ip, m.cidrs[i].prefix) {
      assert Min(cidrs[i].prefix, bits) == cidrs[i].prefix;
    }
  }

  // ---- filling a trie and asking it

  method InsertAll(cidrs: seq<Cidr>, maxBits: nat) returns (t: Trie)
    requires maxBits <= 128
    ensures t.Valid() && fresh(t) && fresh(t.nodes.Values)
    ensures t.prefixes == Stored(cidrs, maxBits) && t.inserted == |cidrs|
  {
    hide Bit, Bits, Stored, Trie.Valid;
    t := new Trie();
    NoneStored(cidrs, maxBits);
    var i := 0;
    while i < |cidrs|
      invariant 0 <= i <= |cidrs|
      invariant t.Valid() && fresh(t) && fresh(t.nodes.Values)
      invariant t.inserted == i && t.prefixes == Stored(cidrs[..i], maxBits)
    {
      t.Insert(cidrs[i].addr, cidrs[i].prefix, maxBits);
      StoredNext(cidrs, i, maxBits);
      i := i + 1;
    }
    assert cidrs[..i] == cidrs;
  }

  lemma NoneStored(cidrs: seq<Cidr>, maxBits: nat)
    requires maxBits <= 128
    ensures Stored(cidrs[..0], maxBits) == {}
  {
  }

  lemma StoredNext(cidrs: seq<Cidr>, i: nat, maxBits: nat)
    requires i < |cidrs| && maxBits <= 128
    ensures Stored(cidrs[..i + 1], maxBits)
         == Stored(cidrs[..i], maxBits) + {Bits(cidrs[i].addr, Min(cidrs[i].prefix, maxBits))}
  {
    hide Bits;
    var x, y := Stored(cidrs[..i + 1], maxBits), Stored(cidrs[..i], maxBits);
    forall b | b in x ensures b in y + {Bits(cidrs[i].addr, Min(cidrs[i].prefix, maxBits))} {
      var k :| 0 <= k < i + 1 && Bits(cidrs[..i + 1][k].addr, Min(cidrs[..i + 1][k].prefix, maxBits)) == b;
      assert k < i ==> cidrs[..i][k] == cidrs[k];
    }
    forall b | b in y ensures b in x {
      var k :| 0 <= k < i && Bits(cidrs[..i][k].addr, Min(cidrs[..i][k].prefix, maxBits)) == b;
      assert cidrs[..i + 1][k] == cidrs[k];
    }
    assert cidrs[..i + 1][i] == cidrs[i];
  }
}
