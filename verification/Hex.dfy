/** Digests in hexadecimal. */
module Hex {
  import opened Machine

  const DIGEST := 32

  function DigitOf(n: nat): char
    requires n < 16
  {
    if n < 10 then '0' + n as char else 'a' + (n - 10) as char
  }

  function ValueOf(c: char): (n: Option<nat>)
    ensures n.Some? ==> n.value < 16
  {
    if '0' <= c <= '9' then Some(c as int - '0' as int)
    else if 'a' <= c <= 'f' then Some(c as int - 'a' as int + 10)
    else if 'A' <= c <= 'F' then Some(c as int - 'A' as int + 10)
    else None
  }

  function HexDigit(n: bv4): char {
    DigitOf(n as nat)
  }

  function Nibble(c: char): Option<bv4> {
    match ValueOf(c)
    case None => None
    case Some(n) => Some(n as bv4)
  }

  function High(x: octet): bv4 {
    (x >> 4) as bv4
  }

  function Low(x: octet): bv4 {
    (x & 0x0f) as bv4
  }

  function Pair(hi: bv4, lo: bv4): octet {
    (hi as octet << 4) | lo as octet
  }

  // The text spells the bytes, two digits each, in either case of letters.
  predicate Spells(hex: string, d: seq<octet>) {
    && |hex| == 2 * |d|
    && forall i :: 0 <= i < |d| ==>
         Nibble(hex[2 * i]) == Some(High(d[i])) && Nibble(hex[2 * i + 1]) == Some(Low(d[i]))
  }

  lemma NibbleDigit(n: bv4)
    ensures Nibble(HexDigit(n)) == Some(n)
  {
    hide DigitOf, ValueOf;
    ValueDigit(n as nat);
  }

  lemma ValueDigit(n: nat)
    requires n < 16
    ensures ValueOf(DigitOf(n)) == Some(n)
  {
  }

  lemma PairParts(hi: bv4, lo: bv4)
    ensures High(Pair(hi, lo)) == hi && Low(Pair(hi, lo)) == lo
  {
  }

  lemma PartsPair(x: octet)
    ensures Pair(High(x), Low(x)) == x
  {
  }

  method ToHex(d: seq<octet>) returns (hex: string)
    ensures Spells(hex, d)
  {
    hide High, Low, HexDigit, Nibble;
    hex := "";
    var i := 0;
    while i < |d|
      invariant 0 <= i <= |d| && Spells(hex, d[..i])
    {
      NibbleDigit(High(d[i]));
      NibbleDigit(Low(d[i]));
      hex := hex + [HexDigit(High(d[i])), HexDigit(Low(d[i]))];
      i := i + 1;
    }
    assert d[..i] == d;
  }

  // Parsing succeeds exactly on texts that spell some digest, and gives that digest.
  method FromHex(hex: string) returns (ok: bool, out: seq<octet>)
    ensures ok ==> |out| == DIGEST && Spells(hex, out)
    ensures !ok ==> forall d: seq<octet> :: |d| == DIGEST ==> !Spells(hex, d)
  {
    hide High, Low, Nibble, Pair;
    out := [];
    if |hex| != 2 * DIGEST {
      return false, [];
    }
    var i := 0;
    while i < DIGEST
      invariant 0 <= i <= DIGEST && |out| == i && Spells(hex[..2 * i], out)
    {
      var hi, lo := Nibble(hex[2 * i]), Nibble(hex[2 * i + 1]);
      if hi == None || lo == None {
        return false, [];
      }
      PairParts(hi.value, lo.value);
      out := out + [Pair(hi.value, lo.value)];
      i := i + 1;
    }
    assert hex[..2 * i] == hex;
    ok := true;
  }

  // A text spells at most one sequence of bytes, so parsing undoes printing.
  lemma SpellsOne(hex: string, d: seq<octet>, e: seq<octet>)
    requires Spells(hex, d) && Spells(hex, e)
    ensures d == e
  {
    hide High, Low, Nibble, Pair;
    forall i | 0 <= i < |d| ensures d[i] == e[i] {
      PartsPair(d[i]);
      PartsPair(e[i]);
    }
  }

  // ---- digits in their order

  const SMALLS := "0123456789abcdef"
  const CAPITALS := "0123456789ABCDEF"

  lemma DigitInTable(n: nat)
    requires n < 16
    ensures |SMALLS| == 16 && DigitOf(n) == SMALLS[n]
  {
  }

  // A character is read as n exactly when it is the n-th digit, in either case.
  lemma ValueIff(c: char, n: nat)
    requires n < 16
    ensures |SMALLS| == 16 == |CAPITALS| && (ValueOf(c) == Some(n) <==> c == SMALLS[n] || c == CAPITALS[n])
  {
  }

  // The first digit of a byte counts sixteens.
  lemma PlaceValue(x: octet)
    ensures x == (High(x) as octet) * 16 + Low(x) as octet
  {
  }
}
