/**
 * Which headers share their signed bytes with another one. Five fields are free text
 * between tags; a field that holds a tag with a newline before it can be read in two ways.
 */
module RuleAmbiguity {
  import opened CanonicalText
  import opened RuleSigning
  import opened RuleRuns

  const NODE: string := "\ntarget_node="
  const VMODEL: string := "\ntarget_vmodel="

  function Bit(rollback: bool): string {
    if rollback then "1" else "0"
  }

  // What stands between tenant and ECU.
  function Release(version: string, rollback: bool): string {
    "\nversion=" + version + Back(rollback)
  }

  function Back(rollback: bool): string {
    "\nrollback=" + Bit(rollback) + "\ntarget_ecu="
  }

  // The free fields and the tags between them.
  function Middle(h: Header): string {
    h.tenant + Release(h.version, h.rollback) + (h.ecu + NODE + (h.node + VMODEL + h.vmodel))
  }

  function Tail(kind: Kind, h: Header, payload: seq<string>): seq<string> {
    Lines(kind, h, payload)[7..]
  }

  predicate At(s: string, i: nat, p: string) {
    i + |p| <= |s| && s[i..i + |p|] == p
  }

  predicate Contains(s: string, p: string) {
    exists i :: 0 <= i <= |s| && At(s, i, p)
  }

  ghost predicate HoldsRelease(s: string) {
    exists v: string, rb: bool :: ValidVersion(v) && Contains(s, Release(v, rb))
  }

  // A field holds what separates fields, where it can be taken for it.
  ghost predicate Injects(h: Header) {
    || HoldsRelease(h.tenant) || HoldsRelease(h.ecu)
    || Contains(h.ecu, NODE) || Contains(h.node, NODE)
    || Contains(h.node, VMODEL) || Contains(h.vmodel, VMODEL)
  }

  // ---- the text around the free fields

  lemma TextParts(kind: Kind, h: Header, payload: seq<string>)
    ensures CanonicalBytes(kind, h, payload) ==
              ("seq=" + Dec(h.seqno)) + "\n" + (("tenant=" + Middle(h)) + "\n" + JoinLines(Tail(kind, h, payload)))
  {
    hide JoinLines, Dec, LastTag, Middle;
    var x := Lines(kind, h, payload);
    assert x[0] == "seq=" + Dec(h.seqno) && x[1] == "tenant=" + h.tenant && x[2] == "version=" + h.version;
    assert x[3] == "rollback=" + Bit(h.rollback) && x[4] == "target_ecu=" + h.ecu;
    assert x[5] == "target_node=" + h.node && x[6] == "target_vmodel=" + h.vmodel;
    FirstSeven(x);
    MiddleText(h, JoinLines(x[7..]));
  }

  lemma FirstSeven(x: seq<string>)
    requires 7 <= |x|
    ensures JoinLines(x) ==
      x[0] + "\n" + (x[1] + "\n" + (x[2] + "\n" + (x[3] + "\n" + (x[4] + "\n" +
      (x[5] + "\n" + (x[6] + "\n" + JoinLines(x[7..])))))))
  {
    hide JoinLines;
    assert x[0..] == x;
    Peel(x, 0);
    Peel(x, 1);
    Peel(x, 2);
    Peel(x, 3);
    Peel(x, 4);
    Peel(x, 5);
    Peel(x, 6);
  }

  lemma MiddleText(h: Header, rest: string)
    ensures ("tenant=" + h.tenant) + "\n" + (("version=" + h.version) + "\n" + (("rollback=" + Bit(h.rollback)) + "\n" +
            (("target_ecu=" + h.ecu) + "\n" + (("target_node=" + h.node) + "\n" +
            (("target_vmodel=" + h.vmodel) + "\n" + rest)))))
            == ("tenant=" + Middle(h)) + "\n" + rest
  {
    hide Bit;
    JoinNode(h.ecu, h.node, h.vmodel, rest);
    JoinRelease(h.tenant, h.version, Bit(h.rollback), h.ecu + NODE + (h.node + VMODEL + h.vmodel), rest);
  }

  lemma JoinNode(ecu: string, node: string, vmodel: string, rest: string)
    ensures ("target_ecu=" + ecu) + "\n" + (("target_node=" + node) + "\n" +
            (("target_vmodel=" + vmodel) + "\n" + rest))
              == ("target_ecu=" + (ecu + NODE + (node + VMODEL + vmodel))) + "\n" + rest
  {
    assert NODE == "\n" + "target_node=" && VMODEL == "\n" + "target_vmodel=";
    Shuffle("target_node=", node, "target_vmodel=", vmodel, rest);
    Shuffle("target_ecu=", ecu, "target_node=", node + VMODEL + vmodel, rest);
  }

  // Two tagged lines as one with a newline in its field.
  lemma Shuffle(t: string, a: string, tag: string, b: string, rest: string)
    ensures (t + a) + "\n" + ((tag + b) + "\n" + rest) == (t + (a + ("\n" + tag) + b)) + "\n" + rest
  {
  }

  lemma JoinRelease(tenant: string, version: string, bit: string, m: string, rest: string)
    ensures
      var r := "\nversion=" + version + ("\nrollback=" + bit + "\ntarget_ecu=");
      ("tenant=" + tenant) + "\n" + (("version=" + version) + "\n" +
      (("rollback=" + bit) + "\n" + (("target_ecu=" + m) + "\n" + rest)))
        == ("tenant=" + (tenant + r + m)) + "\n" + rest
  {
    var m1 := bit + ("\n" + "target_ecu=") + m;
    var m2 := version + ("\n" + "rollback=") + m1;
    Shuffle("rollback=", bit, "target_ecu=", m, rest);
    Shuffle("version=", version, "rollback=", m1, rest);
    Shuffle("tenant=", tenant, "version=", m2, rest);
    Gather(tenant, "\n" + "version=", version, "\n" + "rollback=", bit, "\n" + "target_ecu=", m);
    assert "\nversion=" == "\n" + "version=" && "\nrollback=" == "\n" + "rollback=";
    assert "\ntarget_ecu=" == "\n" + "target_ecu=";
  }

  lemma Gather(a: string, p: string, b: string, q: string, c: string, r: string, d: string)
    ensures a + p + (b + q + (c + r + d)) == a + (p + b + (q + c + r)) + d
  {
    assert (p + b + (q + c + r)) + d == p + (b + q + (c + r + d));
  }

  lemma TailOneLine(kind: Kind, h: Header, payload: seq<string>)
    requires ArePayload(payload)
    ensures var t := Tail(kind, h, payload); AllOneLine(t) && |t| == 3 + |payload| && t[3..] == payload
    ensures forall k :: 1 <= k < |Tail(kind, h, payload)| ==> !StartsWith(Tail(kind, h, payload)[k], "issued_at=")
    ensures Tail(kind, h, payload)[0] == "issued_at=" + Dec(h.issuedAt)
  {
    hide Dec, StartsWith, IsPayload, JoinLines;
    var t := Tail(kind, h, payload);
    PayloadOneLine(payload);
    forall k | 0 <= k < |t| ensures OneLine(t[k]) {
      if k < 3 {
        TagShape(kind, 7 + k);
        assert t[k] == Tag(kind, 7 + k) + Field(h, 7 + k);
      }
    }
    forall k | 1 <= k < |t| ensures !StartsWith(t[k], "issued_at=") {
      TagOfOneLine(kind, h, payload, kind, 7, 7 + k);
    }
  }

  // Where the free fields end is told by the text.
  lemma SameMiddle(a: string, xs: seq<string>, b: string, ys: seq<string>, z: string)
    requires a + "\n" + JoinLines(xs) == b + "\n" + JoinLines(ys)
    requires AllOneLine(xs) && ys != [] && ys[0] == "issued_at=" + z
    requires forall k :: 1 <= k < |xs| ==> !StartsWith(xs[k], "issued_at=")
    ensures |b| <= |a|
  {
    hide StartsWith, JoinLines;
    if |a| < |b| {
      CutLonger(a, JoinLines(xs), b, JoinLines(ys));
      FirstIs(ys, "issued_at=", z);
      NoLongerPiece(xs, b[|a| + 1..], "issued_at=", z + ("\n" + JoinLines(ys[1..])));
    }
  }

  lemma CutLonger(a: string, r: string, b: string, q: string)
    requires a + "\n" + r == b + "\n" + q && |a| < |b|
    ensures r == b[|a| + 1..] + "\n" + q
  {
    assert r == (a + "\n" + r)[|a| + 1..];
    assert b[|a| + 1..] + "\n" + q == (b + "\n" + q)[|a| + 1..];
  }

  lemma FirstIs(ys: seq<string>, tag: string, z: string)
    requires ys != [] && ys[0] == tag + z
    ensures JoinLines(ys) == tag + (z + ("\n" + JoinLines(ys[1..])))
  {
  }

  // Equal signed bytes: everything but the free fields is equal, and they join to the same text.
  lemma SameOutside(kx: Kind, x: Header, px: seq<string>, ky: Kind, y: Header, py: seq<string>)
    requires ArePayload(px) && ArePayload(py)
    requires CanonicalBytes(kx, x, px) == CanonicalBytes(ky, y, py)
    ensures kx == ky && px == py && x.seqno == y.seqno && Middle(x) == Middle(y)
    ensures x.issuedAt == y.issuedAt && x.expiresAt == y.expiresAt && x.typ == y.typ
  {
    hide Dec, Tag, Field, JoinLines, Middle, IsPayload, StartsWith, CanonicalBytes;
    TextParts(kx, x, px);
    TextParts(ky, y, py);
    var tx, ty := Tail(kx, x, px), Tail(ky, y, py);
    var mx, my := "tenant=" + Middle(x), "tenant=" + Middle(y);
    FirstLine("seq=" + Dec(x.seqno), mx + "\n" + JoinLines(tx), "seq=" + Dec(y.seqno), my + "\n" + JoinLines(ty));
    assert ("seq=" + Dec(x.seqno))[4..] == Dec(x.seqno) && ("seq=" + Dec(y.seqno))[4..] == Dec(y.seqno);
    DecInjective(x.seqno, y.seqno);
    TailOneLine(kx, x, px);
    TailOneLine(ky, y, py);
    SameMiddle(mx, tx, my, ty, Dec(y.issuedAt));
    SameMiddle(my, ty, mx, tx, Dec(x.issuedAt));
    CutSame(mx, JoinLines(tx), my, JoinLines(ty));
    assert mx[7..] == Middle(x) && my[7..] == Middle(y);
    JoinSame(tx, ty);
    SameTail(kx, x, px, ky, y, py);
  }

  lemma CutSame(a: string, b: string, c: string, d: string)
    requires a + "\n" + b == c + "\n" + d && |a| == |c|
    ensures a == c && b == d
  {
    var t := a + "\n" + b;
    assert a == t[..|a|] && c == t[..|a|] && b == t[|a| + 1..] && d == t[|a| + 1..];
  }

  lemma SameTail(kx: Kind, x: Header, px: seq<string>, ky: Kind, y: Header, py: seq<string>)
    requires Tail(kx, x, px) == Tail(ky, y, py)
    ensures kx == ky && px == py && x.issuedAt == y.issuedAt && x.expiresAt == y.expiresAt && x.typ == y.typ
  {
    hide Dec, Tag;
    var tx, ty := Tail(kx, x, px), Tail(ky, y, py);
    assert tx[3..] == px && ty[3..] == py;
    assert tx[0] == Tag(kx, 7) + Dec(x.issuedAt) && ty[0] == Tag(ky, 7) + Dec(y.issuedAt);
    assert tx[1] == Tag(kx, 8) + Dec(x.expiresAt) && ty[1] == Tag(ky, 8) + Dec(y.expiresAt);
    assert tx[2] == Tag(kx, 9) + Dec(x.typ) && ty[2] == Tag(ky, 9) + Dec(y.typ);
    SameField(kx, x, ky, y, 7);
    SameField(kx, x, ky, y, 8);
    SameField(kx, x, ky, y, 9);
    DecInjective(x.issuedAt, y.issuedAt);
    DecInjective(x.expiresAt, y.expiresAt);
    DecInjective(x.typ, y.typ);
  }

  // ---- two readings of the same text

  // Where the tags are that cut the text m into the free fields of h.
  datatype Cuts = Cuts(release: nat, node: nat, vmodel: nat)

  function CutsOf(h: Header): Cuts {
    var r := |h.tenant| + |Release(h.version, h.rollback)|;
    Cuts(|h.tenant|, r + |h.ecu|, r + |h.ecu| + |NODE| + |h.node|)
  }

  lemma CutsAt(h: Header)
    ensures
      var (m, c, r) := (Middle(h), CutsOf(h), Release(h.version, h.rollback));
      && At(m, c.release, r) && At(m, c.node, NODE) && At(m, c.vmodel, VMODEL)
      && h.tenant == m[..c.release] && h.ecu == m[c.release + |r|..c.node]
      && h.node == m[c.node + |NODE|..c.vmodel] && h.vmodel == m[c.vmodel + |VMODEL|..]
  {
    hide Release, At;
    var m, r, m2 := Middle(h), Release(h.version, h.rollback), h.node + VMODEL + h.vmodel;
    TwoPieces(m, h.tenant, r, h.ecu, NODE, m2);
    Piece(m2, h.node, VMODEL, h.vmodel);
    var k := |h.tenant| + |r| + |h.ecu| + |NODE|;
    Later(m, k, |h.node|, VMODEL);
    Further(m, k, |h.node| + |VMODEL|);
  }

  lemma TwoPieces(m: string, a: string, p: string, b: string, q: string, c: string)
    requires m == a + p + (b + q + c)
    ensures At(m, |a|, p) && m[..|a|] == a && m[|a| + |p|..|a| + |p| + |b|] == b
    ensures At(m, |a| + |p| + |b|, q) && m[|a| + |p| + |b| + |q|..] == c
  {
    hide At;
    Piece(m, a, p, b + q + c);
    Piece(b + q + c, b, q, c);
    Later(m, |a| + |p|, |b|, q);
    Further(m, |a| + |p|, |b| + |q|);
  }

  lemma Piece(m: string, a: string, p: string, b: string)
    requires m == a + p + b
    ensures At(m, |a|, p) && m[..|a|] == a && m[|a| + |p|..] == b
  {
  }

  lemma Later(m: string, k: nat, i: nat, p: string)
    requires k <= |m| && At(m[k..], i, p)
    ensures At(m, k + i, p) && m[k..][..i] == m[k..k + i]
  {
    assert m[k..][i..i + |p|] == m[k + i..k + i + |p|];
  }

  lemma Further(m: string, k: nat, i: nat)
    requires k <= |m| && i <= |m[k..]|
    ensures m[k..][i..] == m[k + i..]
  {
  }

  // ---- which fields hold tags

  // A tag with a newline in front has no other newline.
  predicate Led(p: string) {
    p != "" && p[0] == '\n' && forall i :: 0 < i < |p| ==> p[i] != '\n'
  }

  // Two readings of one place agree.
  lemma SamePlace(m: string, i: nat, p: string, j: nat, q: string, k: nat)
    requires At(m, i, p) && At(m, j, q) && i <= k < i + |p| && j <= k < j + |q|
    ensures p[k - i] == q[k - j]
  {
    assert m[i..i + |p|][k - i] == m[k] == m[j..j + |q|][k - j];
  }

  // A tag in front of another ends before it.
  lemma Apart(m: string, i: nat, p: string, j: nat, q: string)
    requires At(m, i, p) && At(m, j, q) && Led(p) && Led(q) && i < j
    ensures i + |p| <= j
  {
    if j < i + |p| {
      SamePlace(m, i, p, j, q, j);
      assert false;
    }
  }

  // A release ends before any tag behind its beginning.
  lemma ReleaseApart(m: string, i: nat, v: string, rb: bool, j: nat, q: string)
    requires At(m, i, Release(v, rb)) && At(m, j, q) && Led(q) && i < j && ValidVersion(v)
    requires |q| >= 9 && (q[..9] == "\nversion=" || q[..9] == "\ntarget_n" || q[..9] == "\ntarget_v")
    ensures i + |Release(v, rb)| <= j
  {
    hide Release, ValidVersion, Led;
    var p := Release(v, rb);
    assert q[..9][1] == q[1] && q[..9][8] == q[8];
    if j < i + |p| {
      SamePlace(m, i, p, j, q, j);
      ReleaseLines(v, rb, j - i);
      assert Led(q);
      SamePlace(m, i, p, j, q, j + 1);
      SamePlace(m, i, p, j, q, j + 8);
      assert false;
    }
  }

  // What follows the inner newlines of a release.
  lemma ReleaseLines(v: string, rb: bool, k: nat)
    requires ValidVersion(v) && 0 < k < |Release(v, rb)| && Release(v, rb)[k] == '\n'
    ensures k + 8 < |Release(v, rb)|
    ensures Release(v, rb)[k + 1] == 'r' || (Release(v, rb)[k + 1] == 't' && Release(v, rb)[k + 8] == 'e')
  {
    var p, head := Release(v, rb), "\nversion=" + v;
    var n := |head|;
    BackLines(rb, k - n);
    assert p == head + Back(rb);
  }

  lemma BackLines(rb: bool, j: int)
    ensures 0 <= j < |Back(rb)| && Back(rb)[j] == '\n' ==>
      j + 8 < |Back(rb)| && (Back(rb)[j + 1] == 'r' || (Back(rb)[j + 1] == 't' && Back(rb)[j + 8] == 'e'))
  {
  }

  lemma Inside(m: string, lo: nat, hi: nat, i: nat, p: string)
    requires At(m, i, p) && lo <= i && i + |p| <= hi <= |m|
    ensures Contains(m[lo..hi], p)
  {
    var w := m[lo..hi];
    var q := w[i - lo..i - lo + |p|];
    assert forall k :: 0 <= k < |p| ==> q[k] == m[i..i + |p|][k];
    assert q == p;
    assert At(m[lo..hi], i - lo, p);
  }

  lemma ReleaseBegins(m: string, i: nat, v: string, rb: bool)
    requires At(m, i, Release(v, rb))
    ensures At(m, i, "\nversion=")
  {
    hide Back;
    var p, head := Release(v, rb), "\nversion=";
    assert |head| == 9 && p == head + (v + Back(rb));
    assert p[..9] == head;
    assert m[i..i + 9] == m[i..i + |p|][..9];
  }

  lemma TagsLed()
    ensures Led(NODE) && Led(VMODEL) && Led("\nversion=")
    ensures NODE[..9] == "\ntarget_n" && VMODEL[..9] == "\ntarget_v"
  {
  }

  // The second reading has the node tag later: node or vehicle model hold a tag.
  lemma LaterNode(x: Header, y: Header)
    requires Middle(x) == Middle(y) && CutsOf(x).node < CutsOf(y).node
    ensures Contains(x.node, NODE) || Contains(x.vmodel, VMODEL)
  {
    hide Middle, At, Led, Contains, Release;
    var m, c, d := Middle(x), CutsOf(x), CutsOf(y);
    CutsAt(x);
    CutsAt(y);
    TagsLed();
    Ends(m, c.vmodel, VMODEL);
    Apart(m, c.node, NODE, d.node, NODE);
    if d.node < c.vmodel {
      Apart(m, d.node, NODE, c.vmodel, VMODEL);
      Inside(m, c.node + |NODE|, c.vmodel, d.node, NODE);
    } else if d.node == c.vmodel {
      SamePlace(m, d.node, NODE, c.vmodel, VMODEL, d.node + 8);
      assert false;
    } else {
      LaterVmodel(x, y);
    }
  }

  lemma LaterVmodel(x: Header, y: Header)
    requires Middle(x) == Middle(y) && CutsOf(x).vmodel < CutsOf(y).vmodel
    ensures Contains(x.vmodel, VMODEL)
  {
    hide Middle, At, Led, Contains, Release;
    var m, c, d := Middle(x), CutsOf(x), CutsOf(y);
    CutsAt(x);
    CutsAt(y);
    TagsLed();
    Apart(m, c.vmodel, VMODEL, d.vmodel, VMODEL);
    Ends(m, d.vmodel, VMODEL);
    Inside(m, c.vmodel + |VMODEL|, |m|, d.vmodel, VMODEL);
    assert m[c.vmodel + |VMODEL|..|m|] == m[c.vmodel + |VMODEL|..];
  }

  lemma Ends(m: string, i: nat, p: string)
    requires At(m, i, p)
    ensures i + |p| <= |m|
  {
  }

  // The second reading has the release elsewhere: a field holds a release, or the node tag is later.
  lemma MovedRelease(x: Header, y: Header)
    requires ValidVersion(x.version) && ValidVersion(y.version) && Middle(x) == Middle(y)
    requires CutsOf(x).release != CutsOf(y).release
    ensures HoldsRelease(x.tenant) || HoldsRelease(x.ecu) || CutsOf(x).node < CutsOf(y).node
  {
    hide Middle, At, Led, Contains, Release, ValidVersion;
    var m, c, d := Middle(x), CutsOf(x), CutsOf(y);
    var u := Release(y.version, y.rollback);
    CutsAt(x);
    CutsAt(y);
    TagsLed();
    ReleaseBegins(m, c.release, x.version, x.rollback);
    ReleaseBegins(m, d.release, y.version, y.rollback);
    if d.release < c.release {
      ReleaseApart(m, d.release, y.version, y.rollback, c.release, "\nversion=");
      Ends(m, c.release, "\nversion=");
      Inside(m, 0, c.release, d.release, u);
      assert m[0..c.release] == m[..c.release];
    } else {
      ReleaseApart(m, c.release, x.version, x.rollback, d.release, "\nversion=");
      LaterRelease(x, y);
    }
  }

  lemma LaterRelease(x: Header, y: Header)
    requires ValidVersion(y.version) && Middle(x) == Middle(y)
    requires CutsOf(x).release + |Release(x.version, x.rollback)| <= CutsOf(y).release
    ensures HoldsRelease(x.ecu) || CutsOf(x).node < CutsOf(y).node
  {
    hide Middle, At, Led, Contains, Release, ValidVersion;
    var m, c, d := Middle(x), CutsOf(x), CutsOf(y);
    CutsAt(x);
    CutsAt(y);
    TagsLed();
    Ends(m, c.node, NODE);
    if d.release < c.node {
      ReleaseApart(m, d.release, y.version, y.rollback, c.node, NODE);
      Inside(m, c.release + |Release(x.version, x.rollback)|, c.node, d.release, Release(y.version, y.rollback));
    } else if d.release == c.node {
      ReleaseBegins(m, d.release, y.version, y.rollback);
      SamePlace(m, d.release, "\nversion=", c.node, NODE, d.release + 1);
      assert false;
    }
  }

  // The release at one place is read in one way.
  lemma SameRelease(m: string, i: nat, v: string, rb: bool, w: string, sb: bool)
    requires At(m, i, Release(v, rb)) && At(m, i, Release(w, sb)) && OneLine(v) && OneLine(w)
    ensures v == w && rb == sb
  {
    hide Release, At, Bit;
    var p, q := Release(v, rb), Release(w, sb);
    ReleaseText(v, rb);
    ReleaseText(w, sb);
    if |v| < |w| {
      SamePlace(m, i, p, i, q, i + 9 + |v|);
      assert false;
    } else if |w| < |v| {
      SamePlace(m, i, p, i, q, i + 9 + |w|);
      assert false;
    } else {
      forall k | 0 <= k < |v| ensures v[k] == w[k] {
        SamePlace(m, i, p, i, q, i + 9 + k);
      }
      SamePlace(m, i, p, i, q, i + 19 + |v|);
    }
  }

  lemma ReleaseText(v: string, rb: bool)
    requires OneLine(v)
    ensures |Release(v, rb)| == |v| + 32
    ensures forall k :: 0 <= k < |v| ==> Release(v, rb)[9 + k] == v[k]
    ensures forall j :: 9 <= j < 9 + |v| ==> Release(v, rb)[j] != '\n'
    ensures Release(v, rb)[9 + |v|] == '\n' && (Release(v, rb)[19 + |v|] == '1' <==> rb)
  {
    assert forall j :: 9 <= j < 9 + |v| ==> Release(v, rb)[j] == v[j - 9];
  }

  lemma OneReading(x: Header, y: Header)
    requires ValidVersion(x.version) && ValidVersion(y.version) && Middle(x) == Middle(y) && CutsOf(x) == CutsOf(y)
    ensures x.tenant == y.tenant && x.version == y.version && x.rollback == y.rollback
    ensures x.ecu == y.ecu && x.node == y.node && x.vmodel == y.vmodel
  {
    hide Middle, At, Release;
    CutsAt(x);
    CutsAt(y);
    SameRelease(Middle(x), CutsOf(x).release, x.version, x.rollback, y.version, y.rollback);
  }

  // Two readings of the same text: a field holds what separates fields.
  lemma TwoReadings(x: Header, y: Header)
    requires ValidVersion(x.version) && ValidVersion(y.version) && Middle(x) == Middle(y) && CutsOf(x) != CutsOf(y)
    ensures Injects(x)
  {
    hide Middle, At, Led, Contains, Release, ValidVersion, HoldsRelease;
    var m, c, d := Middle(x), CutsOf(x), CutsOf(y);
    if c.release != d.release {
      MovedRelease(x, y);
      if c.node < d.node {
        LaterNode(x, y);
      }
    } else if c.node < d.node {
      LaterNode(x, y);
    } else if c.vmodel < d.vmodel {
      LaterVmodel(x, y);
    } else {
      CutsAt(x);
      CutsAt(y);
      TagsLed();
      ValidOneLine(x.version);
      ValidOneLine(y.version);
      SameRelease(m, c.release, x.version, x.rollback, y.version, y.rollback);
      var r := |Release(x.version, x.rollback)|;
      Ends(m, c.vmodel, VMODEL);
      if d.node < c.node {
        Apart(m, d.node, NODE, c.node, NODE);
        Inside(m, c.release + r, c.node, d.node, NODE);
      } else {
        Apart(m, d.vmodel, VMODEL, c.vmodel, VMODEL);
        Inside(m, c.node + |NODE|, c.vmodel, d.vmodel, VMODEL);
      }
    }
  }

  lemma ValidOneLine(v: string)
    requires ValidVersion(v)
    ensures OneLine(v)
  {
  }

  // ---- the twin of a header that injects

  lemma Held(s: string, p: string) returns (a: string, b: string)
    requires Contains(s, p)
    ensures s == a + p + b
  {
    var i :| 0 <= i <= |s| && At(s, i, p);
    a, b := s[..i], s[i + |p|..];
  }

  lemma Regroup(a: string, p: string, b: string, q: string, c: string)
    ensures a + p + (b + q + c) == (a + p + b) + q + c
  {
  }

  lemma TwinOf(x: Header) returns (y: Header)
    requires ValidVersion(x.version) && Injects(x)
    ensures ValidVersion(y.version) && y != x && Middle(y) == Middle(x)
    ensures y.seqno == x.seqno && y.issuedAt == x.issuedAt && y.expiresAt == x.expiresAt && y.typ == x.typ
  {
    hide Release, Contains, ValidVersion;
    var r := Release(x.version, x.rollback);
    var m2 := x.node + VMODEL + x.vmodel;
    if HoldsRelease(x.tenant) {
      var v: string, rb: bool :| ValidVersion(v) && Contains(x.tenant, Release(v, rb));
      var a, b := Held(x.tenant, Release(v, rb));
      y := x.(tenant := a, version := v, rollback := rb, ecu := b + r + x.ecu);
      ReleaseLong(v, rb);
      Regroup(a, Release(v, rb), b, r, x.ecu + NODE + m2);
      Regroup(b, r, x.ecu, NODE, m2);
      assert |y.tenant| < |x.tenant|;
    } else if HoldsRelease(x.ecu) {
      var v: string, rb: bool :| ValidVersion(v) && Contains(x.ecu, Release(v, rb));
      var a, b := Held(x.ecu, Release(v, rb));
      y := x.(tenant := x.tenant + r + a, version := v, rollback := rb, ecu := b);
      ReleaseLong(x.version, x.rollback);
      Regroup(a, Release(v, rb), b, NODE, m2);
      Regroup(x.tenant, r, a, Release(v, rb), b + NODE + m2);
      assert |y.tenant| > |x.tenant|;
    } else if Contains(x.ecu, NODE) {
      var a, b := Held(x.ecu, NODE);
      y := x.(ecu := a, node := b + NODE + x.node);
      Regroup(a, NODE, b, NODE, m2);
      Regroup(b, NODE, x.node, VMODEL, x.vmodel);
      assert |y.ecu| < |x.ecu|;
    } else if Contains(x.node, NODE) {
      var a, b := Held(x.node, NODE);
      y := x.(ecu := x.ecu + NODE + a, node := b);
      Regroup(a, NODE, b, VMODEL, x.vmodel);
      Regroup(x.ecu, NODE, a, NODE, b + VMODEL + x.vmodel);
      assert |y.ecu| > |x.ecu|;
    } else if Contains(x.node, VMODEL) {
      var a, b := Held(x.node, VMODEL);
      y := x.(node := a, vmodel := b + VMODEL + x.vmodel);
      Regroup(a, VMODEL, b, VMODEL, x.vmodel);
      assert |y.node| < |x.node|;
    } else {
      var a, b := Held(x.vmodel, VMODEL);
      y := x.(node := x.node + VMODEL + a, vmodel := b);
      Regroup(x.node, VMODEL, a, VMODEL, b);
      assert |y.node| > |x.node|;
    }
  }

  lemma ReleaseLong(v: string, rb: bool)
    ensures 0 < |Release(v, rb)|
  {
  }

  // ---- exactly when

  ghost predicate Shares(kx: Kind, x: Header, px: seq<string>, ky: Kind, y: Header, py: seq<string>) {
    && ValidVersion(y.version) && ArePayload(py)
    && (kx, x, px) != (ky, y, py) && CanonicalBytes(kx, x, px) == CanonicalBytes(ky, y, py)
  }

  // Another bundle with a valid version name has the same signed bytes exactly when a free
  // field holds what separates fields.
  lemma AmbiguousIff(kind: Kind, x: Header, px: seq<string>)
    requires ValidVersion(x.version) && ArePayload(px)
    ensures (exists ky, y, py :: Shares(kind, x, px, ky, y, py)) <==> Injects(x)
  {
    hide CanonicalBytes, Middle, Injects, ValidVersion, Release, ArePayload;
    if ky, y, py :| Shares(kind, x, px, ky, y, py) {
      SameOutside(kind, x, px, ky, y, py);
      if CutsOf(x) == CutsOf(y) {
        OneReading(x, y);
        assert false;
      } else {
        TwoReadings(x, y);
      }
    }
    if Injects(x) {
      var y := TwinOf(x);
      TextParts(kind, x, px);
      TextParts(kind, y, px);
      SameTails(kind, x, y, px);
      assert Shares(kind, x, px, kind, y, px);
    }
  }

  lemma SameTails(kind: Kind, x: Header, y: Header, payload: seq<string>)
    requires y.issuedAt == x.issuedAt && y.expiresAt == x.expiresAt && y.typ == x.typ
    ensures Tail(kind, x, payload) == Tail(kind, y, payload)
  {
    hide Dec, Tag;
  }
}
