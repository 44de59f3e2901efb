/** The outer frame: its fields, its byte layout, and the code that writes, reads and checks it. */
module Packets {
  import opened Bytes

  const PACKET_HEADER: Byte := 0xEE
  const PACKET_TAIL: Byte := 0x7E
  const MODULE_ID: Byte := 0x01

  /** length, moduleId and the rest are what the sender wrote, right or wrong. */
  datatype Packet = Packet(
    header: Byte, length: Byte, moduleId: Byte, target: Byte, command: Byte,
    body: seq<Byte>, checksum: Byte, tail: Byte)

  /** A packet of this module whose checksum byte is the true outer sum. */
  function Summed(length: Byte, target: Byte, command: Byte, body: seq<Byte>): Packet {
    Packet(PACKET_HEADER, length, MODULE_ID, target, command, body,
           (PACKET_HEADER + length + MODULE_ID + target + command + Sum(body)) % 0x100, PACKET_TAIL)
  }

  /** The bytes of a packet, in wire order. */
  function Wire(p: Packet): seq<Byte> {
    [p.header, p.length, p.moduleId, p.target, p.command] + p.body + [p.checksum, p.tail]
  }

  method Serialize(p: Packet) returns (data: seq<Byte>)
    ensures data == Wire(p)
  {
    data := [];
    data := data + [p.header];
    data := data + [p.length];
    data := data + [p.moduleId];
    data := data + [p.target];
    data := data + [p.command];
    data := data + p.body;
    data := data + [p.checksum];
    data := data + [p.tail];
  }

  lemma LowByte(x: int, k: int)
    ensures (x - 0x100 * k) % 0x100 == x % 0x100
  {
  }

  lemma WrapKeepsLowByte(sum: nat, exact: nat, b: Byte)
    requires sum % 0x100 == exact % 0x100
    ensures ((sum + b) % 0x1_0000_0000) % 0x100 == (exact + b) % 0x100
  {
    var x := sum + b;
    LowByte(x, x / 0x1_0000_0000 * 0x100_0000);
    assert x % 0x1_0000_0000 == x - 0x100 * (x / 0x1_0000_0000 * 0x100_0000);
    LowByte(x, sum / 0x100 - exact / 0x100);
  }

  /** The accumulator is 32 bits wide and may wrap; the low byte is unaffected.
      Below two bytes the unsigned bound size - 2 wraps, so callers pass at least two. */
  method CalculateChecksum(data: seq<Byte>) returns (c: Byte)
    requires |data| >= 2
    ensures c == Sum(data[..|data| - 2]) % 0x100
  {
    var sum: Word32 := 0;
    for i := 0 to |data| - 2
      invariant sum % 0x100 == Sum(data[..i]) % 0x100
    {
      assert data[..i + 1][..i] == data[..i];
      WrapKeepsLowByte(sum, Sum(data[..i]), data[i]);
      sum := (sum + data[i]) % 0x1_0000_0000;
    }
    c := sum % 0x100;
  }

  /** The payload an inner motor frame's check byte covers: all but the two header bytes and itself. */
  function InnerPayload(inner: seq<Byte>): seq<Byte>
    requires |inner| >= 1
  {
    if |inner| < 3 then [] else inner[2..|inner| - 1]
  }

  method CalculateMotorChecksum(inner: seq<Byte>) returns (c: Byte)
    requires |inner| >= 1
    ensures c == Sum(InnerPayload(inner)) % 0x100
  {
    var sum: Word32 := 0;
    var i := 2;
    while i < |inner| - 1
      invariant 2 <= i && (|inner| >= 3 ==> i <= |inner| - 1)
      invariant |inner| < 3 ==> sum == 0
      invariant |inner| >= 3 ==> sum % 0x100 == Sum(inner[2..i]) % 0x100
    {
      assert inner[2..i + 1][..i - 2] == inner[2..i];
      WrapKeepsLowByte(sum, Sum(inner[2..i]), inner[i]);
      sum := (sum + inner[i]) % 0x1_0000_0000;
      i := i + 1;
    }
    c := sum % 0x100;
  }

  predicate IsMotorBody(body: seq<Byte>) {
    |body| >= 4 && (body[..2] == [0x55, 0xAA] || body[..2] == [0xAA, 0x55])
  }

  /** The inner check: it binds only bodies that look like a motor frame. */
  predicate InnerOk(body: seq<Byte>) {
    IsMotorBody(body) ==> Sum(InnerPayload(body)) % 0x100 == body[|body| - 1]
  }

  method ValidateChecksum(p: Packet) returns (ok: bool)
    ensures ok <==> Sum([p.header, p.length, p.moduleId, p.target, p.command] + p.body) % 0x100 == p.checksum
  {
    var serialized := Serialize(p);
    var calculated := CalculateChecksum(serialized);
    assert Wire(p)[..|Wire(p)| - 2] == [p.header, p.length, p.moduleId, p.target, p.command] + p.body;
    ok := calculated == p.checksum;
  }

  method ValidateMotorChecksum(body: seq<Byte>) returns (ok: bool)
    ensures ok <==> InnerOk(body)
  {
    if |body| < 4 {
      return true;
    }
    var isMotorRequest := body[0] == 0x55 && body[1] == 0xAA;
    var isMotorResponse := body[0] == 0xAA && body[1] == 0x55;
    assert IsMotorBody(body) <==> isMotorRequest || isMotorResponse;
    if !isMotorRequest && !isMotorResponse {
      return true;
    }
    var expected := CalculateMotorChecksum(body);
    return expected == body[|body| - 1];
  }

  /** Replies whose firmware writes a wrong length byte (and, for the IMU, a constant checksum). */
  predicate HasImuPrefix(data: seq<Byte>) {
    |data| >= 4 && data[..4] == [0xEE, 0x11, 0x01, 0x02]
  }

  predicate HasEncoderPrefix(data: seq<Byte>) {
    |data| >= 4 && data[..4] == [0xEE, 0x25, 0x01, 0x02]
  }

  predicate LengthOk(data: seq<Byte>)
    requires |data| >= 7
  {
    |data| - 5 == data[1]
  }

  predicate OuterOk(data: seq<Byte>)
    requires |data| >= 7
  {
    Sum(data[..|data| - 2]) % 0x100 == data[|data| - 2]
  }

  function BodyOf(data: seq<Byte>): seq<Byte>
    requires |data| >= 7
  {
    data[5..|data| - 2]
  }

  /** The accepted language, as one condition on raw bytes, in the numbers of the protocol. */
  predicate InLanguage(data: seq<Byte>) {
    && |data| >= 7
    && data[0] == 0xEE
    && data[|data| - 1] == 0x7E
    && (LengthOk(data) || HasImuPrefix(data) || HasEncoderPrefix(data))
    && (OuterOk(data) || HasImuPrefix(data))
    && InnerOk(BodyOf(data))
  }

  function Fields(data: seq<Byte>): Packet
    requires |data| >= 7
  {
    Packet(data[0], data[1], data[2], data[3], data[4], BodyOf(data), data[|data| - 2], data[|data| - 1])
  }

  function Deserialized(data: seq<Byte>): Option<Packet> {
    if InLanguage(data) then Some(Fields(data)) else None
  }

  lemma {:induction false} FieldsInvertWire(p: Packet)
    ensures |Wire(p)| == |p.body| + 7
    ensures Fields(Wire(p)) == p
  {
    assert BodyOf(Wire(p)) == p.body;
  }

  lemma {:induction false} WireInvertsFields(data: seq<Byte>)
    requires |data| >= 7
    ensures Wire(Fields(data)) == data
  {
    var n := |data|;
    assert data == data[..5] + data[5..n - 2] + data[n - 2..];
    assert data[..5] == [data[0], data[1], data[2], data[3], data[4]];
    assert data[n - 2..] == [data[n - 2], data[n - 1]];
  }

  /** The reader, check by check in the order of the source. It validates a re-serialised copy of
      the packet it has built, where the language speaks of the raw bytes. */
  method Deserialize(data: seq<Byte>) returns (r: Option<Packet>)
    ensures r == Deserialized(data)
    ensures r.Some? ==> |data| >= 7 && data[0] == 0xEE && data[|data| - 1] == 0x7E
  {
    if |data| < 7 {
      return None;
    }
    var idx := 0;
    var header := data[idx];
    idx := idx + 1;
    if header != PACKET_HEADER {
      return None;
    }
    var length := data[idx];
    idx := idx + 1;
    var isImuResponse := data[0] == PACKET_HEADER && data[1] == 0x11 && data[2] == 0x01 && data[3] == 0x02;
    var isEncoderResponse := data[0] == PACKET_HEADER && data[1] == 0x25 && data[2] == 0x01 && data[3] == 0x02;
    assert isImuResponse <==> HasImuPrefix(data);
    assert isEncoderResponse <==> HasEncoderPrefix(data);
    var skipLengthCheck := isImuResponse || isEncoderResponse;
    var expectedTotalLength: int := length as int + 5;
    if !skipLengthCheck && expectedTotalLength != |data| {
      return None;
    }
    var moduleId := data[idx];
    idx := idx + 1;
    var target := data[idx];
    idx := idx + 1;
    var command := data[idx];
    idx := idx + 1;
    var bodySize := |data| - 7;
    var body := data[idx..idx + bodySize];
    idx := idx + bodySize;
    var checksum := data[idx];
    idx := idx + 1;
    var tail := data[idx];
    if tail != PACKET_TAIL {
      return None;
    }
    var packet := Packet(header, length, moduleId, target, command, body, checksum, tail);
    assert packet == Fields(data);
    WireInvertsFields(data);
    if !isImuResponse {
      var outer := ValidateChecksum(packet);
      assert [header, length, moduleId, target, command] + body == data[..|data| - 2];
      if !outer {
        return None;
      }
    }
    var inner := ValidateMotorChecksum(packet.body);
    if !inner {
      return None;
    }
    return Some(packet);
  }
}
