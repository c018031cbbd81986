/** Base64 without line breaks, as section 4 of RFC 4648 defines it. */
module Base64 {
  import opened Machine

  // The alphabet of table 1: A-Z, a-z, 0-9, + and /.
  function Glyph(n: nat): char
    requires n < 64
  {
    if n < 26 then 'A' + n as char
    else if n < 52 then 'a' + (n - 26) as char
    else if n < 62 then '0' + (n - 52) as char
    else if n == 62 then '+'
    else '/'
  }

  // Place of a character in the alphabet, if it has one.
  function Place(c: char): (n: Option<nat>)
    ensures n.Some? ==> n.value < 64
  {
    if 'A' <= c <= 'Z' then Some(c as int - 'A' as int)
    else if 'a' <= c <= 'z' then Some(c as int - 'a' as int + 26)
    else if '0' <= c <= '9' then Some(c as int - '0' as int + 52)
    else if c == '+' then Some(62)
    else if c == '/' then Some(63)
    else None
  }

  function Letter(v: bv6): char {
    Glyph(v as int)
  }

  function Val(c: char): Option<bv6> {
    match Place(c)
    case None => None
    case Some(n) => Some(n as bv6)
  }

  // Three bytes as four letters' values, and back.
  function Group(a: octet, b: octet, c: octet): (bv6, bv6, bv6, bv6) {
    var n := ((a as bv24) << 16) | ((b as bv24) << 8) | (c as bv24);
    (((n >> 18) & 63) as bv6, ((n >> 12) & 63) as bv6, ((n >> 6) & 63) as bv6, (n & 63) as bv6)
  }

  function Ungroup(a: bv6, b: bv6, c: bv6, d: bv6): (octet, octet, octet) {
    var n := ((a as bv24) << 18) | ((b as bv24) << 12) | ((c as bv24) << 6) | (d as bv24);
    (((n >> 16) & 0xFF) as bv8, ((n >> 8) & 0xFF) as bv8, (n & 0xFF) as bv8)
  }

  lemma UngroupGroup(a: octet, b: octet, c: octet)
    ensures var g := Group(a, b, c); Ungroup(g.0, g.1, g.2, g.3) == (a, b, c)
  {
  }

  // A padded letter would have stood for zero bits.
  lemma PaddedZero(a: octet, b: octet)
    ensures Group(a, b, 0).3 == 0 && Group(a, 0, 0).2 == 0
  {
  }

  lemma ValLetter(v: bv6)
    ensures Val(Letter(v)) == Some(v) && Letter(v) != '=' && Letter(v) != '\n'
  {
    hide Glyph, Place;
    PlaceGlyph(v as int);
  }

  lemma PlaceGlyph(n: nat)
    requires n < 64
    ensures Place(Glyph(n)) == Some(n) && Glyph(n) != '=' && Glyph(n) != '\n'
  {
  }

  // The four characters of the first group of s.
  function Quad(s: seq<octet>): (q: string)
    requires s != []
    ensures |q| == 4
  {
    var g := Group(s[0], if 1 < |s| then s[1] else 0, if 2 < |s| then s[2] else 0);
    [Letter(g.0), Letter(g.1), if 1 < |s| then Letter(g.2) else '=', if 2 < |s| then Letter(g.3) else '=']
  }

  // The bytes of one group of four characters.
  function Unquad(p: char, q: char, r: char, s: char): Option<seq<octet>> {
    var c, d := if r == '=' then Some(0) else Val(r), if s == '=' then Some(0) else Val(s);
    if Val(p) == None || Val(q) == None || c == None || d == None then None
    else
      var (x, y, z) := Ungroup(Val(p).value, Val(q).value, c.value, d.value);
      Some([x] + (if r == '=' then [] else [y]) + (if s == '=' then [] else [z]))
  }

  function Beyond(s: seq<octet>, k: nat): seq<octet> {
    if k < |s| then s[k..] else []
  }

  function Encode(s: seq<octet>): string
    decreases |s|
  {
    if s == [] then "" else Quad(s) + Encode(Beyond(s, 3))
  }

  function Decode(t: string): Option<seq<octet>> {
    if t == "" then Some([])
    else if |t| < 4 then None
    else
      match Unquad(t[0], t[1], t[2], t[3])
      case None => None
      case Some(group) => After(group, Decode(t[4..]))
  }

  function After(group: seq<octet>, rest: Option<seq<octet>>): Option<seq<octet>> {
    match rest
    case None => None
    case Some(bytes) => Some(group + bytes)
  }

  lemma AfterAfter(a: seq<octet>, b: seq<octet>, rest: Option<seq<octet>>)
    ensures After(a, After(b, rest)) == After(a + b, rest) && a + [] == a
    ensures After([], rest) == rest && After(a, Some([])) == Some(a)
  {
    if rest.Some? {
      assert a + (b + rest.value) == (a + b) + rest.value && [] + rest.value == rest.value;
    }
    assert a + [] == a;
  }

  lemma UnquadQuad(s: seq<octet>)
    requires s != []
    ensures var q := Quad(s); Unquad(q[0], q[1], q[2], q[3]) == Some(s[..Min(3, |s|)])
  {
    hide Group, Ungroup, Letter, Val;
    var b, c := if 1 < |s| then s[1] else 0, if 2 < |s| then s[2] else 0;
    var g := Group(s[0], b, c);
    UngroupGroup(s[0], b, c);
    PaddedZero(s[0], b);
    ValLetter(g.0);
    ValLetter(g.1);
    ValLetter(g.2);
    ValLetter(g.3);
    assert s[..Min(3, |s|)] == [s[0]] + (if 1 < |s| then [b] else []) + (if 2 < |s| then [c] else []);
  }

  // Section 4 of RFC 4648: decoding gives back what was encoded.
  lemma {:induction false} DecodeEncode(s: seq<octet>)
    ensures Decode(Encode(s)) == Some(s)
    decreases |s|
  {
    hide Quad, Unquad;
    if s != [] {
      UnquadQuad(s);
      DecodeEncode(Beyond(s, 3));
      assert Encode(s)[4..] == Encode(Beyond(s, 3));
      assert s[..Min(3, |s|)] + Beyond(s, 3) == s;
    }
  }

  lemma EncodeInjective(s: seq<octet>, t: seq<octet>)
    requires Encode(s) == Encode(t)
    ensures s == t
  {
    DecodeEncode(s);
    DecodeEncode(t);
  }

  // Four characters for every three bytes begun, and no line break among them.
  lemma {:induction false} EncodeShape(s: seq<octet>)
    ensures |Encode(s)| == (|s| + 2) / 3 * 4
    ensures '\n' !in Encode(s)
    decreases |s|
  {
    hide Letter, Group;
    if s != [] {
      var g := Group(s[0], if 1 < |s| then s[1] else 0, if 2 < |s| then s[2] else 0);
      ValLetter(g.0);
      ValLetter(g.1);
      ValLetter(g.2);
      ValLetter(g.3);
      EncodeShape(Beyond(s, 3));
    }
  }

  // The decoder accepts pads anywhere; a text without any is the encoding of its bytes.
  lemma {:induction false} EncodeDecode(t: string)
    requires Decode(t).Some? && '=' !in t
    ensures Encode(Decode(t).value) == t
    decreases |t|
  {
    hide Unquad, Quad;
    if t != "" {
      var group := Unquad(t[0], t[1], t[2], t[3]).value;
      var rest := Decode(t[4..]).value;
      EncodeDecode(t[4..]);
      QuadUnquad(t[0], t[1], t[2], t[3], rest);
      assert Beyond(group + rest, 3) == rest;
      assert t == [t[0], t[1], t[2], t[3]] + t[4..];
    }
  }

  lemma QuadUnquad(p: char, q: char, r: char, s: char, rest: seq<octet>)
    requires Unquad(p, q, r, s).Some? && r != '=' && s != '='
    ensures
      var group := Unquad(p, q, r, s).value;
      |group| == 3 && Quad(group + rest) == [p, q, r, s]
  {
    hide Group, Ungroup, Letter, Val;
    var a, b, c, d := Val(p).value, Val(q).value, Val(r).value, Val(s).value;
    GroupUngroup(a, b, c, d);
    LetterVal(p);
    LetterVal(q);
    LetterVal(r);
    LetterVal(s);
    var u := Ungroup(a, b, c, d);
    assert [u.0] + [u.1] + [u.2] == [u.0, u.1, u.2];
  }

  lemma GroupUngroup(a: bv6, b: bv6, c: bv6, d: bv6)
    ensures var u := Ungroup(a, b, c, d); Group(u.0, u.1, u.2) == (a, b, c, d)
  {
  }

  lemma LetterVal(c: char)
    requires Val(c).Some?
    ensures Letter(Val(c).value) == c
  {
    hide Glyph, Place;
    var n := Place(c).value;
    GlyphPlace(c);
    assert (n as bv6) as int == n;
  }

  lemma GlyphPlace(c: char)
    requires Place(c).Some?
    ensures Glyph(Place(c).value) == c
  {
  }

  method EncodeBytes(data: seq<octet>) returns (out: string)
    ensures out == Encode(data)
  {
    hide Letter, Group;
    out := "";
    var i := 0;
    while i < |data|
      invariant 0 <= i
      invariant Encode(data) == out + Encode(Beyond(data, i))
      decreases |data| - i
    {
      var b := if i + 1 < |data| then data[i + 1] else 0;
      var c := if i + 2 < |data| then data[i + 2] else 0;
      var g := Group(data[i], b, c);
      var four := [Letter(g.0), Letter(g.1), if i + 1 < |data| then Letter(g.2) else '=',
                   if i + 2 < |data| then Letter(g.3) else '='];
      assert four == Quad(Beyond(data, i));
      assert Beyond(Beyond(data, i), 3) == Beyond(data, i + 3);
      assert out + (four + Encode(Beyond(data, i + 3))) == (out + four) + Encode(Beyond(data, i + 3));
      out := out + four;
      i := i + 3;
    }
    assert out + "" == out;
  }

  method DecodeString(t: string) returns (ok: bool, out: seq<octet>)
    ensures Decode(t) == if ok then Some(out) else None
  {
    hide Val, Ungroup, After, Unquad;
    out := [];
    if |t| % 4 != 0 {
      DecodeLength(t);
      return false, [];
    }
    assert t[0..] == t;
    AfterAfter([], [], Decode(t));
    var i := 0;
    while i < |t|
      invariant 0 <= i <= |t| && i % 4 == 0
      invariant Decode(t) == After(out, Decode(t[i..]))
      decreases |t| - i
    {
      var group := Unquad(t[i], t[i + 1], t[i + 2], t[i + 3]);
      NoneAfter(out);
      if group == None {
        return false, [];
      }
      var bytes := group.value;
      assert t[i..][4..] == t[i + 4..];
      AfterAfter(out, bytes, Decode(t[i + 4..]));
      out := out + bytes;
      i := i + 4;
    }
    AfterAfter(out, [], Some([]));
    ok := true;
  }

  lemma NoneAfter(a: seq<octet>)
    ensures After(a, None) == None
  {
  }

  lemma {:induction false} DecodeLength(t: string)
    requires |t| % 4 != 0
    ensures Decode(t) == None
    decreases |t|
  {
    hide Unquad;
    if 4 < |t| {
      DecodeLength(t[4..]);
    }
  }

  // ---- the standard's own table and examples

  const ALPHABET := UPPER + LOWER + DIGITS + "+/"

  lemma GlyphInTable(n: nat)
    requires n < 64
    ensures |ALPHABET| == 64 && Glyph(n) == ALPHABET[n]
  {
    if n < 26 {
      assert UPPER[n] == Glyph(n);
    } else if n < 52 {
      assert LOWER[n - 26] == Glyph(n);
    } else if n < 62 {
      assert DIGITS[n - 52] == Glyph(n);
    }
  }

  // The examples of section 10: "f", "fo", "foo", "foob", "fooba" and "foobar".
  lemma TestVectors()
    ensures Encode([]) == "" && Encode([102]) == "Zg==" && Encode([102, 111]) == "Zm8="
    ensures Encode([102, 111, 111]) == "Zm9v" && Encode([102, 111, 111, 98]) == "Zm9vYg=="
    ensures Encode([102, 111, 111, 98, 97]) == "Zm9vYmE=" && Encode([102, 111, 111, 98, 97, 114]) == "Zm9vYmFy"
  {
  }
}
