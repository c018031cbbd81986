/** The IDS message: serializing a qualified security event, and reading it back. */
module IdsProtocol {
  import opened Machine

  const VERSION := 2
  const EVENT_FRAME := 8
  const TIMESTAMP := 8
  const SHORT_MAX := 127

  datatype Timestamp = Timestamp(oem: bool, nanoseconds: uint32, seconds: uint32)

  type Blob = s: seq<byte> | |s| < TWO_16

  datatype Qsev = Qsev(instance: uint16, sensor: byte, event: uint16, count: uint16, stamp: Option<Timestamp>,
                       contextVersion: uint16, context: Option<Blob>)

  // What a message carries.
  datatype Context = Context(version: uint16, data: seq<byte>)
  datatype Message = Message(instance: nat, sensor: nat, event: uint16, count: uint16, stamp: Option<Timestamp>,
                             context: Option<Context>)

  predicate HasContext(q: Qsev) {
    q.context.Some? && |q.context.value| > 0
  }

  function Cropped(t: Timestamp): Timestamp {
    t.(nanoseconds := t.nanoseconds % 0x4000_0000)
  }

  // The transmitted part: 10 bits of the IdsM instance, 6 of the sensor instance, 30 of the
  // nanoseconds, and a context only where there are context bytes.
  function Sent(q: Qsev): Message {
    Message(q.instance % 1024, q.sensor % 64, q.event, q.count,
            if q.stamp.Some? then Some(Cropped(q.stamp.value)) else None,
            if HasContext(q) then Some(Context(q.contextVersion, q.context.value)) else None)
  }

  predicate InRange(q: Qsev) {
    && q.instance < 1024 && q.sensor < 64
    && (q.stamp.Some? ==> q.stamp.value.nanoseconds < 0x4000_0000)
    && (q.context.Some? ==> |q.context.value| > 0)
    && (q.context == None ==> q.contextVersion == 0)
  }

  function High16(x: uint16): byte { x / 0x100 }
  function Low16(x: uint16): byte { x % 0x100 }

  function Bytes32(x: uint32): (b: seq<byte>)
    ensures |b| == 4
  {
    [x / 0x100_0000, x / 0x1_0000 % 0x100, x / 0x100 % 0x100, x % 0x100]
  }

  function EventFrame(q: Qsev): (b: seq<byte>)
    ensures |b| == EVENT_FRAME
  {
    var header := (if HasContext(q) then 1 else 0) + (if q.stamp.Some? then 2 else 0);
    [VERSION * 16 + header, q.instance / 4 % 0x100, q.instance % 4 * 64 + q.sensor % 64,
     High16(q.event), Low16(q.event), High16(q.count), Low16(q.count), 0]
  }

  function TimestampFrame(t: Timestamp): (b: seq<byte>)
    ensures |b| == TIMESTAMP
  {
    var ns := t.nanoseconds % 0x4000_0000;
    [(if t.oem then 0x80 else 0) + ns / 0x100_0000] + Bytes32(ns)[1..] + Bytes32(t.seconds)
  }

  // 7 bits in one byte, or 31 bits in four.
  function LengthField(n: uint16): seq<byte> {
    if n <= SHORT_MAX then [n] else [0x80] + Bytes32(n)[1..]
  }

  function ContextFrame(version: uint16, data: Blob): seq<byte> {
    [High16(version), Low16(version)] + LengthField(|data|) + data
  }

  function Encode(q: Qsev): seq<byte> {
    EventFrame(q) + (if q.stamp.Some? then TimestampFrame(q.stamp.value) else [])
    + (if HasContext(q) then ContextFrame(q.contextVersion, q.context.value) else [])
  }

  // ---- reading a message

  function Read16(s: seq<byte>, i: nat): uint16
    requires i + 2 <= |s|
  {
    s[i] as int * 0x100 + s[i + 1]
  }

  function Read24(s: seq<byte>, i: nat): nat
    requires i + 3 <= |s|
  {
    s[i] as int * 0x1_0000 + s[i + 1] as int * 0x100 + s[i + 2]
  }

  function Read32(s: seq<byte>, i: nat): uint32
    requires i + 4 <= |s|
  {
    s[i] as int * 0x100_0000 + Read24(s, i + 1)
  }

  function DecodeStamp(s: seq<byte>): Timestamp
    requires |s| >= TIMESTAMP
  {
    Timestamp(s[0] >= 0x80, s[0] as int % 64 * 0x100_0000 + Read24(s, 1), Read32(s, 4))
  }

  // A context frame takes up the rest of the message.
  function DecodeContext(s: seq<byte>): Option<Context> {
    if |s| < 3 then None
    else
      var wide := s[2] >= 0x80;
      if wide && |s| < 6 then None
      else
        var n := if wide then s[2] as int % 0x80 * 0x100_0000 + Read24(s, 3) else s[2];
        var rest := s[if wide then 6 else 3..];
        if |rest| != n then None else Some(Context(Read16(s, 0), rest))
  }

  function Decode(s: seq<byte>): Option<Message> {
    if |s| < EVENT_FRAME || s[0] / 16 != VERSION || s[0] % 16 >= 4 then None
    else
      var hasContext, hasStamp := s[0] % 2 == 1, s[0] / 2 % 2 == 1;
      var rest := s[EVENT_FRAME..];
      if hasStamp && |rest| < TIMESTAMP then None
      else
        var stamp := if hasStamp then Some(DecodeStamp(rest)) else None;
        var tail := if hasStamp then rest[TIMESTAMP..] else rest;
        var context := if hasContext then DecodeContext(tail) else None;
        if (hasContext && context == None) || (!hasContext && tail != []) then None
        else Some(Message(s[1] as int * 4 + s[2] / 64, s[2] % 64, Read16(s, 3), Read16(s, 5), stamp, context))
  }

  // ---- sizes

  function LengthFieldSize(n: uint16): uint16 {
    if n <= SHORT_MAX then 1 else 4
  }

  // The size as the 16-bit computation gives it.
  method GetMessageSize(q: Qsev) returns (size: uint16)
    ensures size == |Encode(q)| % TWO_16
  {
    size := EVENT_FRAME;
    if q.stamp.Some? {
      size := (size + TIMESTAMP) % TWO_16;
    }
    if HasContext(q) {
      size := (size + 2 + LengthFieldSize(|q.context.value|) + |q.context.value|) % TWO_16;
    }
  }

  function LargestContext(q: Qsev): nat {
    if q.stamp.Some? then 65513 else 65521
  }

  // The predicted size is right exactly up to these context sizes.
  lemma SizeRight(q: Qsev)
    ensures |Encode(q)| % TWO_16 == |Encode(q)| <==> (HasContext(q) ==> |q.context.value| <= LargestContext(q))
  {
  }

  // ---- writing a message

  // Write bytes one after the other from an offset on.
  method Put(buffer: array<byte>, offset: nat, bytes: seq<byte>) returns (next: nat)
    requires offset + |bytes| <= buffer.Length
    modifies buffer
    ensures next == offset + |bytes|
    ensures buffer[..next] == old(buffer[..offset]) + bytes
    ensures forall k :: next <= k < buffer.Length ==> buffer[k] == old(buffer[k])
  {
    next := offset;
    var i := 0;
    while i < |bytes|
      invariant 0 <= i <= |bytes| && next == offset + i
      invariant forall k :: 0 <= k < offset ==> buffer[k] == old(buffer[k])
      invariant forall k :: offset <= k < next ==> buffer[k] == bytes[k - offset]
      invariant forall k :: next <= k < buffer.Length ==> buffer[k] == old(buffer[k])
    {
      buffer[next] := bytes[i];
      next := next + 1;
      i := i + 1;
    }
  }

  // Fill the buffer with the message, or leave it alone when it is too small. A message
  // longer than its 16-bit size would be written past the end: see SizeRight.
  method Serialize(q: Qsev, buffer: array<byte>, size: uint16) returns (written: uint16)
    requires size <= buffer.Length && (HasContext(q) ==> |q.context.value| <= LargestContext(q))
    modifies buffer
    ensures size < |Encode(q)| ==> written == 0 && buffer[..] == old(buffer[..])
    ensures |Encode(q)| <= size ==>
      written == |Encode(q)| && buffer[..written] == Encode(q) && buffer[written..] == old(buffer[written..])
  {
    hide TimestampFrame, ContextFrame, EventFrame;
    var required := GetMessageSize(q);
    SizeRight(q);
    if required == 0 || size < required {
      return 0;
    }
    var offset := Put(buffer, 0, EventFrame(q));
    if q.stamp.Some? {
      offset := Put(buffer, offset, TimestampFrame(q.stamp.value));
    }
    if HasContext(q) {
      offset := Put(buffer, offset, ContextFrame(q.contextVersion, q.context.value));
    }
    written := offset;
    assert forall k :: written <= k < buffer.Length ==> buffer[k] == old(buffer[k]);
  }

  // ---- round trip

  lemma StampRoundTrip(t: Timestamp)
    ensures DecodeStamp(TimestampFrame(t)) == Cropped(t)
  {
    hide Bytes32;
    var ns := t.nanoseconds % 0x4000_0000;
    var s := TimestampFrame(t);
    Split32(ns);
    Split32(t.seconds);
    assert s[1..4] == Bytes32(ns)[1..] && s[4..] == Bytes32(t.seconds);
    assert s[1] == Bytes32(ns)[1] && s[2] == Bytes32(ns)[2] && s[3] == Bytes32(ns)[3];
    assert s[4] == Bytes32(t.seconds)[0] && s[5] == Bytes32(t.seconds)[1];
    assert s[6] == Bytes32(t.seconds)[2] && s[7] == Bytes32(t.seconds)[3];
  }

  lemma Split32(x: uint32)
    ensures
      var b := Bytes32(x);
      && b[0] == x / 0x100_0000 && x == b[0] as int * 0x100_0000 + x % 0x100_0000
      && x % 0x100_0000 == b[1] as int * 0x1_0000 + b[2] as int * 0x100 + b[3]
  {
    var y := x / 0x100;
    var z := y / 0x100;
    assert x / 0x1_0000 == z && x / 0x100_0000 == z / 0x100;
    assert x == y * 0x100 + x % 0x100 && y == z * 0x100 + y % 0x100 && z == z / 0x100 * 0x100 + z % 0x100;
  }

  lemma ContextRoundTrip(version: uint16, data: Blob)
    requires data != []
    ensures DecodeContext(ContextFrame(version, data)) == Some(Context(version, data))
  {
    hide Bytes32;
    var s := ContextFrame(version, data);
    Split32(|data|);
    if |data| <= SHORT_MAX {
      assert s[3..] == data;
    } else {
      assert s[6..] == data;
      assert s[3] == Bytes32(|data|)[1] && s[4] == Bytes32(|data|)[2] && s[5] == Bytes32(|data|)[3];
    }
  }

  lemma HeaderByte(context: bool, stamp: bool)
    ensures
      var b := VERSION * 16 + (if context then 1 else 0) + (if stamp then 2 else 0);
      b / 16 == VERSION && b % 16 < 4 && (b % 2 == 1 <==> context) && (b / 2 % 2 == 1 <==> stamp)
  {
  }

  lemma InstanceBytes(i: nat, s: nat)
    ensures
      var low := i % 4 * 64 + s % 64;
      i / 4 % 0x100 * 4 + low / 64 == i % 1024 && low % 64 == s % 64
  {
    LowTen(i);
    Parts(i % 4 * 64 + s % 64, 64, i % 4, s % 64);
  }

  lemma LowTen(i: nat)
    ensures i % 1024 == i / 4 % 0x100 * 4 + i % 4
  {
    var y := i / 4;
    assert i == 1024 * (y / 0x100) + (y % 0x100 * 4 + i % 4);
    Parts(i, 1024, y / 0x100, y % 0x100 * 4 + i % 4);
  }

  lemma Parts(x: nat, d: nat, q: nat, r: nat)
    requires d in {64, 0x100, 1024, 0x1_0000, 0x100_0000} && x == d * q + r && r < d
    ensures x / d == q && x % d == r
  {
  }

  lemma Split16(x: uint16)
    ensures High16(x) as int * 0x100 + Low16(x) == x
  {
  }

  lemma FrameRoundTrip(q: Qsev)
    ensures
      var f := EventFrame(q);
      && f[0] / 16 == VERSION && f[0] % 16 < 4
      && (f[0] % 2 == 1 <==> HasContext(q)) && (f[0] / 2 % 2 == 1 <==> q.stamp.Some?)
      && f[1] as int * 4 + f[2] / 64 == q.instance % 1024 && f[2] % 64 == q.sensor % 64
      && f[3] as int * 0x100 + f[4] == q.event && f[5] as int * 0x100 + f[6] == q.count
  {
    hide High16, Low16;
    HeaderByte(HasContext(q), q.stamp.Some?);
    InstanceBytes(q.instance, q.sensor);
    Split16(q.event);
    Split16(q.count);
  }

  // What is sent is read back, field by field, whatever the size.
  lemma RoundTrip(q: Qsev)
    ensures Decode(Encode(q)) == Some(Sent(q))
  {
    hide TimestampFrame, DecodeStamp, ContextFrame, DecodeContext, EventFrame;
    var s, frame := Encode(q), EventFrame(q);
    var stamp := if q.stamp.Some? then TimestampFrame(q.stamp.value) else [];
    var context := if HasContext(q) then ContextFrame(q.contextVersion, q.context.value) else [];
    Cut(frame, stamp, context);
    FrameRoundTrip(q);
    if q.stamp.Some? {
      StampRoundTrip(q.stamp.value);
      PrefixStamp(stamp, context);
    }
    if HasContext(q) {
      ContextRoundTrip(q.contextVersion, q.context.value);
    }
  }

  lemma Cut(frame: seq<byte>, stamp: seq<byte>, context: seq<byte>)
    requires |frame| == EVENT_FRAME
    ensures
      var s := frame + stamp + context;
      s[..EVENT_FRAME] == frame && s[EVENT_FRAME..] == stamp + context && (stamp + context)[|stamp|..] == context
    ensures forall i :: 0 <= i < EVENT_FRAME ==> (frame + stamp + context)[i] == frame[i]
  {
  }

  lemma PrefixStamp(stamp: seq<byte>, context: seq<byte>)
    requires |stamp| == TIMESTAMP
    ensures DecodeStamp(stamp + context) == DecodeStamp(stamp)
  {
  }

  // Messages of in-range events are uniquely decodable.
  lemma EncodeInjective(p: Qsev, q: Qsev)
    requires InRange(p) && InRange(q) && Encode(p) == Encode(q)
    ensures p == q
  {
    hide Encode;
    RoundTrip(p);
    RoundTrip(q);
  }

  // ---- the layout, most significant byte first

  // Version 2 and two bits that tell what follows; instance and sensor share 16 bits, and the
  // origin of a time stamp shares 32 with its nanoseconds.
  function LayoutOf(q: Qsev): seq<byte> {
    [0x20 + (if HasContext(q) then 1 else 0) + (if q.stamp.Some? then 2 else 0)]
    + Be16(q.instance % 1024 * 64 + q.sensor % 64) + Be16(q.event) + Be16(q.count) + [0]
    + (if q.stamp.Some? then StampLayout(q.stamp.value) else [])
    + (if HasContext(q) then ContextLayout(q.contextVersion, q.context.value) else [])
  }

  function StampLayout(t: Timestamp): seq<byte> {
    Be32((if t.oem then 0x8000_0000 else 0) + t.nanoseconds % 0x4000_0000) + Be32(t.seconds)
  }

  function ContextLayout(version: uint16, data: Blob): seq<byte> {
    Be16(version) + (if |data| < 0x80 then [|data|] else Be32(0x8000_0000 + |data|)) + data
  }

  lemma Layout(q: Qsev)
    ensures Encode(q) == LayoutOf(q)
  {
    hide EventFrame, TimestampFrame, ContextFrame, Be16, Be32, StampLayout, ContextLayout;
    FrameLayout(q);
    if q.stamp.Some? {
      StampIs(q.stamp.value);
    }
    if HasContext(q) {
      ContextIs(q.contextVersion, q.context.value);
    }
  }

  lemma FrameLayout(q: Qsev)
    ensures
      EventFrame(q) ==
        [0x20 + (if HasContext(q) then 1 else 0) + (if q.stamp.Some? then 2 else 0)]
        + Be16(q.instance % 1024 * 64 + q.sensor % 64) + Be16(q.event) + Be16(q.count) + [0]
  {
    InstanceIs(q.instance, q.sensor);
  }

  lemma InstanceIs(i: uint16, s: byte)
    ensures Be16(i % 1024 * 64 + s % 64) == [i / 4 % 0x100, i % 4 * 64 + s % 64]
  {
    LowTen(i);
    Parts(i % 1024 * 64 + s % 64, 0x100, i / 4 % 0x100, i % 4 * 64 + s % 64);
  }

  // The bytes of a number, however it is taken apart.
  lemma FourBytes(x: nat, a: nat, b: nat, c: nat, d: nat)
    requires x == 0x100_0000 * a + 0x1_0000 * b + 0x100 * c + d && b < 0x100 && c < 0x100 && d < 0x100
    ensures x / 0x100_0000 == a && x / 0x1_0000 % 0x100 == b && x / 0x100 % 0x100 == c && x % 0x100 == d
    ensures x / 0x1_0000 / 0x100 == a && x % 0x1_0000 / 0x100 == c && x % 0x1_0000 % 0x100 == d
  {
    Parts(x, 0x100_0000, a, 0x1_0000 * b + 0x100 * c + d);
    Parts(x, 0x1_0000, 0x100 * a + b, 0x100 * c + d);
    Parts(x, 0x100, 0x1_0000 * a + 0x100 * b + c, d);
    Parts(0x100 * a + b, 0x100, a, b);
    Parts(0x1_0000 * a + 0x100 * b + c, 0x100, 0x100 * a + b, c);
    Parts(0x100 * c + d, 0x100, c, d);
  }

  lemma TakenApart(x: uint32) returns (a: byte, b: byte, c: byte, d: byte)
    ensures x == 0x100_0000 * a as int + 0x1_0000 * b as int + 0x100 * c as int + d
  {
    var y := x / 0x100;
    var z := y / 0x100;
    a, b, c, d := z / 0x100, z % 0x100, y % 0x100, x % 0x100;
  }

  lemma Bytes32Is(x: uint32)
    ensures Bytes32(x) == Be32(x)
  {
    var a, b, c, d := TakenApart(x);
    FourBytes(x, a, b, c, d);
  }

  // The top bit on its own.
  lemma TopBit(x: uint32)
    requires x < 0x8000_0000
    ensures Be32(0x8000_0000 + x) == [0x80 + x / 0x100_0000] + Bytes32(x)[1..]
  {
    hide Be32;
    Bytes32Is(0x8000_0000 + x);
    Shifted(x);
  }

  lemma Shifted(x: uint32)
    requires x < 0x8000_0000
    ensures
      var y := 0x8000_0000 + x;
      && y / 0x100_0000 == 0x80 + x / 0x100_0000 && y / 0x1_0000 % 0x100 == x / 0x1_0000 % 0x100
      && y / 0x100 % 0x100 == x / 0x100 % 0x100 && y % 0x100 == x % 0x100
  {
    var a, b, c, d := TakenApart(x);
    FourBytes(x, a, b, c, d);
    FourBytes(0x8000_0000 + x, 0x80 + a as int, b, c, d);
  }

  lemma StampIs(t: Timestamp)
    ensures TimestampFrame(t) == StampLayout(t)
  {
    hide Be32;
    var ns := t.nanoseconds % 0x4000_0000;
    Bytes32Is(t.seconds);
    Bytes32Is(ns);
    TopBit(ns);
  }

  lemma ContextIs(version: uint16, data: Blob)
    ensures ContextFrame(version, data) == ContextLayout(version, data)
  {
    hide Be32;
    if |data| > SHORT_MAX {
      TopBit(|data|);
    }
  }
}
