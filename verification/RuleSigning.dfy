/** The bytes that the signature of a rule or configuration bundle covers. */
module RuleSigning {
  import opened Machine
  import opened CanonicalText
  import opened Base64

  datatype Kind = Rules | Configs

  datatype Header = Header(seqno: int, tenant: string, version: string, rollback: bool,
                           ecu: string, node: string, vmodel: string,
                           issuedAt: int, expiresAt: int, typ: int)

  const TAGS: seq<string> := ["seq=", "tenant=", "version=", "rollback=", "target_ecu=", "target_node=",
                              "target_vmodel=", "issued_at=", "expires_at="]

  function LastTag(kind: Kind): string {
    match kind
    case Rules => "upgrade_type="
    case Configs => "config_type="
  }

  function Tag(kind: Kind, i: nat): string
    requires i < 10
  {
    if i < 9 then TAGS[i] else LastTag(kind)
  }

  function Field(h: Header, i: nat): string
    requires i < 10
  {
    match i
    case 0 => Dec(h.seqno)
    case 1 => h.tenant
    case 2 => h.version
    case 3 => if h.rollback then "1" else "0"
    case 4 => h.ecu
    case 5 => h.node
    case 6 => h.vmodel
    case 7 => Dec(h.issuedAt)
    case 8 => Dec(h.expiresAt)
    case 9 => Dec(h.typ)
  }

  predicate OneLineFields(h: Header) {
    OneLine(h.tenant) && OneLine(h.version) && OneLine(h.ecu) && OneLine(h.node) && OneLine(h.vmodel)
  }

  function HeaderLines(kind: Kind, h: Header): (lines: seq<string>)
    ensures |lines| == 10
  {
    seq(10, i requires 0 <= i < 10 => Tag(kind, i) + Field(h, i))
  }

  function RuleLine(i: nat, rule: seq<octet>): string {
    "rule:" + Dec(10000 + i) + ":" + Encode(rule)
  }

  function RuleLines(rules: seq<seq<octet>>): (lines: seq<string>)
    ensures |lines| == |rules|
  {
    seq(|rules|, i requires 0 <= i < |rules| => RuleLine(i, rules[i]))
  }

  // What is signed.
  function CanonicalBytes(kind: Kind, h: Header, payload: seq<string>): string {
    JoinLines(HeaderLines(kind, h) + payload)
  }

  function SignedRules(h: Header, rules: seq<seq<octet>>): string {
    CanonicalBytes(Rules, h, Sort(RuleLines(rules)))
  }

  // ---- how the bytes are built

  // One string expression for the header, one more line for each payload line.
  method BuildCanonicalBytes(kind: Kind, h: Header, payload: seq<string>) returns (out: string)
    ensures out == CanonicalBytes(kind, h, payload)
  {
    out :=
      "seq=" + Dec(h.seqno) + "\n" +
      ("tenant=" + h.tenant + "\n" +
      ("version=" + h.version + "\n" +
      ("rollback=" + (if h.rollback then "1" else "0") + "\n" +
      ("target_ecu=" + h.ecu + "\n" +
      ("target_node=" + h.node + "\n" +
      ("target_vmodel=" + h.vmodel + "\n" +
      ("issued_at=" + Dec(h.issuedAt) + "\n" +
      ("expires_at=" + Dec(h.expiresAt) + "\n" +
      (LastTag(kind) + Dec(h.typ) + "\n")))))))));
    HeaderText(kind, h);
    out := AddLines(kind, h, payload, out);
  }

  method AddLines(kind: Kind, h: Header, payload: seq<string>, header: string) returns (out: string)
    requires header == JoinLines(HeaderLines(kind, h))
    ensures out == CanonicalBytes(kind, h, payload)
  {
    hide Dec, Tag, Field, LastTag;
    out := header;
    var i := 0;
    assert HeaderLines(kind, h) + payload[..0] == HeaderLines(kind, h);
    while i < |payload|
      invariant 0 <= i <= |payload|
      invariant out == JoinLines(HeaderLines(kind, h) + payload[..i])
    {
      JoinAppend(HeaderLines(kind, h) + payload[..i], [payload[i]]);
      assert JoinLines([payload[i]]) == payload[i] + "\n";
      assert (HeaderLines(kind, h) + payload[..i]) + [payload[i]] == HeaderLines(kind, h) + payload[..i + 1];
      out := out + (payload[i] + "\n");
      i := i + 1;
    }
    assert payload[..i] == payload;
  }

  lemma HeaderText(kind: Kind, h: Header)
    ensures LastTag(Rules) == "upgrade_type=" && LastTag(Configs) == "config_type="
    ensures JoinLines(HeaderLines(kind, h)) ==
      "seq=" + Dec(h.seqno) + "\n" +
      ("tenant=" + h.tenant + "\n" +
      ("version=" + h.version + "\n" +
      ("rollback=" + (if h.rollback then "1" else "0") + "\n" +
      ("target_ecu=" + h.ecu + "\n" +
      ("target_node=" + h.node + "\n" +
      ("target_vmodel=" + h.vmodel + "\n" +
      ("issued_at=" + Dec(h.issuedAt) + "\n" +
      ("expires_at=" + Dec(h.expiresAt) + "\n" +
      (LastTag(kind) + Dec(h.typ) + "\n")))))))))
  {
    hide Dec, JoinLines;
    var x := HeaderLines(kind, h);
    JoinTen(x);
    assert x[0] == "seq=" + Dec(h.seqno) && x[1] == "tenant=" + h.tenant && x[2] == "version=" + h.version;
    assert x[3] == "rollback=" + (if h.rollback then "1" else "0");
    assert x[4] == "target_ecu=" + h.ecu && x[5] == "target_node=" + h.node && x[6] == "target_vmodel=" + h.vmodel;
    assert x[7] == "issued_at=" + Dec(h.issuedAt) && x[8] == "expires_at=" + Dec(h.expiresAt);
    assert x[9] == LastTag(kind) + Dec(h.typ);
  }

  lemma JoinTen(x: seq<string>)
    requires |x| == 10
    ensures JoinLines(x) ==
      x[0] + "\n" + (x[1] + "\n" + (x[2] + "\n" + (x[3] + "\n" + (x[4] + "\n" +
      (x[5] + "\n" + (x[6] + "\n" + (x[7] + "\n" + (x[8] + "\n" + (x[9] + "\n")))))))))
  {
    hide JoinLines;
    assert x[0..] == x;
    Peel(x, 0);
    Peel(x, 1);
    Peel(x, 2);
    Peel(x, 3);
    Peel(x, 4);
    Peel(x, 5);
    Peel(x, 6);
    Peel(x, 7);
    Peel(x, 8);
    Peel(x, 9);
  }

  lemma Peel(x: seq<string>, i: nat)
    requires i < |x|
    ensures JoinLines(x[i..]) == x[i] + "\n" + JoinLines(x[i + 1..])
    ensures i + 1 == |x| ==> JoinLines(x[i + 1..]) == "" && JoinLines(x[i..]) == x[i] + "\n"
  {
    assert x[i..][1..] == x[i + 1..];
  }

  // The payload of a rule bundle: numbered lines, sorted.
  method PayloadLines(rules: seq<seq<octet>>) returns (lines: seq<string>)
    ensures Sorted(lines) && multiset(lines) == multiset(RuleLines(rules))
    ensures lines == Sort(RuleLines(rules))
  {
    lines := [];
    var i := 0;
    while i < |rules|
      invariant 0 <= i <= |rules|
      invariant lines == RuleLines(rules)[..i]
    {
      var text := EncodeBytes(rules[i]);
      lines := lines + ["rule:" + Dec(10000 + i) + ":" + text];
      i := i + 1;
    }
    assert RuleLines(rules)[..i] == RuleLines(rules);
    SortSorts(lines);
    lines := Sort(lines);
  }

  // The eighth rule, whose text is "foo".
  lemma EighthLine()
    ensures RuleLine(7, [102, 111, 111]) == "rule:10007:Zm9v"
  {
    hide Encode, Dec;
    TestVectors();
    NumberOfEighth();
  }

  lemma NumberOfEighth()
    ensures Dec(10007) == "10007"
  {
    assert DecNat(1) == "1" && DecNat(10) == "10" && DecNat(100) == "100" && DecNat(1000) == "1000";
  }

  // ---- what the bytes tell

  // Tags are told apart by where their '=' is.
  predicate IsTag(t: string) {
    t != "" && t[|t| - 1] == '=' && (forall k :: 0 <= k < |t| - 1 ==> t[k] != '=') && OneLine(t)
  }

  lemma TagShape(kind: Kind, i: nat)
    requires i < 10
    ensures IsTag(Tag(kind, i))
  {
  }

  lemma OneTag(t: string, line: string, u: string)
    requires IsTag(t) && IsTag(u) && StartsWith(t + line, u)
    ensures t == u
  {
    var s := t + line;
    assert forall k :: 0 <= k < |u| ==> s[k] == u[k];
    assert forall k :: 0 <= k < |t| ==> s[k] == t[k];
    assert s[|t| - 1] == '=' && s[|u| - 1] == '=';
    assert |t| == |u|;
  }

  lemma TagsDistinct(kind: Kind, i: nat, other: Kind, j: nat)
    requires i < 10 && j < 10 && Tag(kind, i) == Tag(other, j)
    ensures i == j && (i == 9 ==> kind == other)
  {
    var t, u := Tag(kind, i), Tag(other, j);
    assert |t| == |u| && t[0] == u[0];
  }

  predicate IsPayload(line: string) {
    OneLine(line) && |line| >= 5 && (line[..5] == "rule:" || line[..5] == "item:")
  }

  predicate ArePayload(lines: seq<string>) {
    forall k :: 0 <= k < |lines| ==> IsPayload(lines[k])
  }

  lemma NotPayload(kind: Kind, i: nat, line: string)
    requires i < 10 && IsPayload(line)
    ensures !StartsWith(line, Tag(kind, i))
  {
    assert line[..5][0] == line[0] && line[..5][1] == line[1];
  }

  lemma OneLineHeader(kind: Kind, h: Header, i: nat)
    requires i < 10 && OneLineFields(h)
    ensures OneLine(Tag(kind, i) + Field(h, i))
  {
    hide Dec;
    TagShape(kind, i);
  }

  function Lines(kind: Kind, h: Header, payload: seq<string>): seq<string> {
    HeaderLines(kind, h) + payload
  }

  // Of the lines of a bundle, only line i begins with tag i.
  lemma TagOfOneLine(kind: Kind, h: Header, payload: seq<string>, other: Kind, i: nat, k: nat)
    requires i < 10 && ArePayload(payload) && k < 10 + |payload| && k != i
    ensures !StartsWith(Lines(kind, h, payload)[k], Tag(other, i))
  {
    hide Tag, Field, IsTag, IsPayload, StartsWith;
    if k < 10 {
      TagShape(other, i);
      TagShape(kind, k);
      if StartsWith(Tag(kind, k) + Field(h, k), Tag(other, i)) {
        OneTag(Tag(kind, k), Field(h, k), Tag(other, i));
        TagsDistinct(kind, k, other, i);
      }
    } else {
      NotPayload(other, i, payload[k - 10]);
    }
  }

  lemma BundleOneLine(kind: Kind, h: Header, payload: seq<string>)
    requires OneLineFields(h) && ArePayload(payload)
    ensures AllOneLine(Lines(kind, h, payload))
  {
    hide Tag, Field;
    forall k | 0 <= k < 10 ensures OneLine(HeaderLines(kind, h)[k]) {
      OneLineHeader(kind, h, k);
    }
  }

  // Reading both from line i on, the same text means the same line i.
  lemma SameLine(kx: Kind, hx: Header, px: seq<string>, ky: Kind, hy: Header, py: seq<string>, i: nat)
    requires OneLineFields(hx) && ArePayload(px) && ArePayload(py) && i < 10
    requires JoinLines(Lines(kx, hx, px)[i..]) == JoinLines(Lines(ky, hy, py)[i..])
    ensures Lines(kx, hx, px)[i] == Lines(ky, hy, py)[i]
    ensures JoinLines(Lines(kx, hx, px)[i + 1..]) == JoinLines(Lines(ky, hy, py)[i + 1..])
  {
    hide Tag, Field, IsTag, IsPayload, StartsWith, OneLineFields;
    var x, y := Lines(kx, hx, px), Lines(ky, hy, py);
    BundleOneLine(kx, hx, px);
    assert x[i..][1..] == x[i + 1..] && y[i..][1..] == y[i + 1..];
    if i < 9 {
      var tag, tail := Tag(ky, i + 1), Field(hy, i + 1) + ("\n" + JoinLines(y[i + 2..]));
      TagShape(ky, i + 1);
      assert y[i + 1..][1..] == y[i + 2..];
      assert JoinLines(y[i + 1..]) == tag + tail by {
        assert JoinLines(y[i + 1..]) == (tag + Field(hy, i + 1)) + "\n" + JoinLines(y[i + 2..]);
      }
      forall k | 2 <= k < |x[i..]| ensures !StartsWith(x[i..][k], tag) {
        TagOfOneLine(kx, hx, px, ky, i + 1, i + k);
      }
      TagIs(tag);
      TaggedPiece(x[i..], y[i], tag, tail);
    } else {
      LastLineIsOne(ky, hy);
      FirstLine(x[i], JoinLines(x[i + 1..]), y[i], JoinLines(y[i + 1..]));
    }
  }

  lemma TagIs(t: string)
    requires IsTag(t)
    ensures t != "" && OneLine(t)
  {
  }

  lemma LastLineIsOne(kind: Kind, h: Header)
    ensures OneLine(Tag(kind, 9) + Field(h, 9))
  {
    hide Dec;
    TagShape(kind, 9);
  }

  lemma {:induction false} SameLinesFrom(kx: Kind, hx: Header, px: seq<string>,
                                         ky: Kind, hy: Header, py: seq<string>, i: nat)
    requires OneLineFields(hx) && ArePayload(px) && ArePayload(py) && i <= 10
    requires JoinLines(Lines(kx, hx, px)[i..]) == JoinLines(Lines(ky, hy, py)[i..])
    ensures forall j :: i <= j < 10 ==> Lines(kx, hx, px)[j] == Lines(ky, hy, py)[j]
    ensures px == py
    decreases 10 - i
  {
    hide Tag, Field, IsPayload, OneLineFields;
    if i < 10 {
      SameLine(kx, hx, px, ky, hy, py, i);
      SameLinesFrom(kx, hx, px, ky, hy, py, i + 1);
    } else {
      assert Lines(kx, hx, px)[i..] == px && Lines(ky, hy, py)[i..] == py;
      PayloadOneLine(px);
      PayloadOneLine(py);
      JoinSame(px, py);
    }
  }

  lemma PayloadOneLine(payload: seq<string>)
    requires ArePayload(payload)
    ensures AllOneLine(payload)
  {
  }

  lemma SameField(kx: Kind, hx: Header, ky: Kind, hy: Header, i: nat)
    requires i < 10 && Tag(kx, i) + Field(hx, i) == Tag(ky, i) + Field(hy, i)
    ensures (i == 9 ==> kx == ky) && Field(hx, i) == Field(hy, i)
  {
    hide Tag, Field, IsTag, StartsWith;
    var s := Tag(kx, i) + Field(hx, i);
    TagShape(kx, i);
    TagShape(ky, i);
    StartsWithTag(Tag(ky, i), Field(hy, i));
    OneTag(Tag(kx, i), Field(hx, i), Tag(ky, i));
    TagsDistinct(kx, i, ky, i);
    assert s[|Tag(kx, i)|..] == Field(hx, i) && s[|Tag(kx, i)|..] == Field(hy, i);
  }

  lemma StartsWithTag(tag: string, s: string)
    ensures StartsWith(tag + s, tag)
  {
  }

  lemma SameHeader(x: Header, y: Header)
    requires forall i :: 0 <= i < 10 ==> Field(x, i) == Field(y, i)
    ensures x == y
  {
    hide Dec;
    assert Field(x, 0) == Field(y, 0) && Field(x, 1) == Field(y, 1) && Field(x, 2) == Field(y, 2);
    assert Field(x, 3) == Field(y, 3) && Field(x, 4) == Field(y, 4) && Field(x, 5) == Field(y, 5);
    assert Field(x, 6) == Field(y, 6) && Field(x, 7) == Field(y, 7) && Field(x, 8) == Field(y, 8);
    assert Field(x, 9) == Field(y, 9);
    assert x.rollback == (Field(x, 3)[0] == '1') && y.rollback == (Field(y, 3)[0] == '1');
    DecInjective(x.seqno, y.seqno);
    DecInjective(x.issuedAt, y.issuedAt);
    DecInjective(x.expiresAt, y.expiresAt);
    DecInjective(x.typ, y.typ);
  }

  // The signed bytes of a bundle with one-line fields are those of no other bundle,
  // whatever the other's fields contain and whichever kind it is of.
  lemma SignedBytesUnique(kx: Kind, x: Header, px: seq<string>, ky: Kind, y: Header, py: seq<string>)
    requires OneLineFields(x) && ArePayload(px) && ArePayload(py)
    requires CanonicalBytes(kx, x, px) == CanonicalBytes(ky, y, py)
    ensures kx == ky && x == y && px == py
  {
    hide Tag, Field, IsPayload, OneLineFields, JoinLines;
    assert Lines(kx, x, px)[0..] == Lines(kx, x, px) && Lines(ky, y, py)[0..] == Lines(ky, y, py);
    SameLinesFrom(kx, x, px, ky, y, py, 0);
    forall i | 0 <= i < 10 ensures Field(x, i) == Field(y, i) && (i == 9 ==> kx == ky) {
      assert Lines(kx, x, px)[i] == Lines(ky, y, py)[i];
      SameField(kx, x, ky, y, i);
    }
    assert kx == ky by {
      assert Lines(kx, x, px)[9] == Lines(ky, y, py)[9];
      SameField(kx, x, ky, y, 9);
    }
    SameHeader(x, y);
  }

  lemma RuleLinePayload(i: nat, rule: seq<octet>)
    ensures IsPayload(RuleLine(i, rule))
  {
    hide Encode;
    EncodeShape(rule);
    assert RuleLine(i, rule)[..5] == "rule:";
  }

  // A numbered line tells its number and its rule.
  lemma RuleLineInjective(i: nat, r: seq<octet>, j: nat, s: seq<octet>)
    requires RuleLine(i, r) == RuleLine(j, s)
    ensures i == j && r == s
  {
    hide Encode;
    var a, b := Dec(10000 + i), Dec(10000 + j);
    assert RuleLine(i, r)[5..] == a + ":" + Encode(r) && RuleLine(j, s)[5..] == b + ":" + Encode(s);
    SplitAtColon(a, Encode(r), b, Encode(s));
    DecInjective(10000 + i, 10000 + j);
    EncodeInjective(r, s);
  }

  lemma SplitAtColon(a: string, r: string, b: string, s: string)
    requires ':' !in a && ':' !in b && a + ":" + r == b + ":" + s
    ensures a == b && r == s
  {
    var t := a + ":" + r;
    assert t[|a|] == ':' && t[|b|] == ':';
    assert forall k :: 0 <= k < |a| ==> t[k] == a[k];
    assert forall k :: 0 <= k < |b| ==> t[k] == b[k];
    assert |a| == |b|;
    assert t[..|a|] == a && t[..|a|] == b && t[|a| + 1..] == r && t[|a| + 1..] == s;
  }

  // Sorting the numbered lines loses nothing: not even the order of the rules.
  lemma SortedRulesUnique(r: seq<seq<octet>>, s: seq<seq<octet>>)
    requires Sort(RuleLines(r)) == Sort(RuleLines(s))
    ensures r == s
  {
    hide RuleLine, Sort;
    var x, y := RuleLines(r), RuleLines(s);
    assert multiset(x) == multiset(y);
    assert |multiset(x)| == |x| && |multiset(y)| == |y|;
    forall i | 0 <= i < |r| ensures r[i] == s[i] {
      assert x[i] in multiset(y);
      var j :| 0 <= j < |y| && y[j] == x[i];
      RuleLineInjective(i, r[i], j, s[j]);
    }
  }

  // Equal signed bytes mean the same header and the same rules in the same order.
  lemma SignedRulesUnique(x: Header, r: seq<seq<octet>>, y: Header, s: seq<seq<octet>>)
    requires OneLineFields(x) && SignedRules(x, r) == SignedRules(y, s)
    ensures x == y && r == s
  {
    hide Sort, CanonicalBytes, OneLineFields;
    SortedPayload(r);
    SortedPayload(s);
    SignedBytesUnique(Rules, x, Sort(RuleLines(r)), Rules, y, Sort(RuleLines(s)));
    SortedRulesUnique(r, s);
  }

  lemma SortedPayload(rules: seq<seq<octet>>)
    ensures ArePayload(Sort(RuleLines(rules)))
  {
    hide Sort, RuleLine, IsPayload;
    var lines := RuleLines(rules);
    forall k | 0 <= k < |lines| ensures IsPayload(Sort(lines)[k]) {
      assert |multiset(lines)| == |Sort(lines)|;
      assert Sort(lines)[k] in multiset(lines);
      var i :| 0 <= i < |lines| && lines[i] == Sort(lines)[k];
      RuleLinePayload(i, rules[i]);
    }
  }

  lemma {:induction false} JoinAppend(xs: seq<string>, ys: seq<string>)
    ensures JoinLines(xs + ys) == JoinLines(xs) + JoinLines(ys)
  {
    if xs == [] {
      assert xs + ys == ys;
    } else {
      assert (xs + ys)[1..] == xs[1..] + ys;
      JoinAppend(xs[1..], ys);
    }
  }
}
