/** What the frame reader accepts, that it inverts the writer, and which corruptions it can see. */
module WireLanguage {
  import opened Bytes
  import opened Packets

  predicate HasWorkaroundFields(p: Packet) {
    p.header == 0xEE && p.moduleId == 0x01 && p.target == 0x02
  }

  /** The packets the reader can return, said of their fields. */
  predicate ValidPacket(p: Packet) {
    var imu := HasWorkaroundFields(p) && p.length == 0x11;
    var encoder := HasWorkaroundFields(p) && p.length == 0x25;
    && p.header == 0xEE
    && p.tail == 0x7E
    && (|p.body| + 2 == p.length || imu || encoder)
    && (imu || (p.header + p.length + p.moduleId + p.target + p.command + Sum(p.body)) % 0x100 == p.checksum)
    && InnerOk(p.body)
  }

  /** The outer sum of a packet, taken over its fields. */
  lemma {:induction false} OuterSum(p: Packet)
    ensures |Wire(p)| == |p.body| + 7
    ensures Sum(Wire(p)[..|p.body| + 5])
            == p.header + p.length + p.moduleId + p.target + p.command + Sum(p.body)
  {
    var h := [p.header, p.length, p.moduleId, p.target, p.command];
    assert Wire(p)[..|p.body| + 5] == h + p.body;
    SumConcat(h, p.body);
    assert h[..4][..3] == h[..3];
    assert h[..4][..3][..2] == h[..2];
    assert h[..2][..1] == h[..1];
    assert h[..1][..0] == [];
    assert Sum(h[..1]) == p.header;
    assert Sum(h[..2]) == p.header + p.length;
    assert Sum(h[..3]) == p.header + p.length + p.moduleId;
    assert Sum(h[..4]) == p.header + p.length + p.moduleId + p.target;
  }

  /** Reading what was written gives the packet back when it is valid and nothing otherwise. */
  lemma {:induction false} DeserializeInvertsSerialize(p: Packet)
    ensures Deserialized(Wire(p)) == if ValidPacket(p) then Some(p) else None
  {
    var data := Wire(p);
    FieldsInvertWire(p);
    OuterSum(p);
    assert BodyOf(data) == p.body;
    assert HasImuPrefix(data) <==> HasWorkaroundFields(p) && p.length == 0x11;
    assert HasEncoderPrefix(data) <==> HasWorkaroundFields(p) && p.length == 0x25;
  }

  /** The whole language in numbers: every string of at least seven bytes has this form, and which of
      them are read, and as what, is said of the bytes alone. */
  lemma {:induction false} FrameLaw(
      header: Byte, length: Byte, moduleId: Byte, target: Byte, command: Byte,
      body: seq<Byte>, checksum: Byte, tail: Byte)
    ensures var firmware := moduleId == 0x01 && target == 0x02;
            var sum := header + length + moduleId + target + command + Sum(body);
            Deserialized([header, length, moduleId, target, command] + body + [checksum, tail])
            == if && header == 0xEE && tail == 0x7E && InnerOk(body)
                  && (length == |body| + 2 || (firmware && (length == 0x11 || length == 0x25)))
                  && (sum % 0x100 == checksum || (firmware && length == 0x11))
               then Some(Packet(0xEE, length, moduleId, target, command, body, checksum, 0x7E))
               else None
  {
    var p := Packet(header, length, moduleId, target, command, body, checksum, tail);
    assert Wire(p) == [header, length, moduleId, target, command] + body + [checksum, tail];
    DeserializeInvertsSerialize(p);
  }

  /** And nothing shorter is read. */
  lemma {:induction false} ShortFramesAreRefused(data: seq<Byte>)
    ensures |data| < 7 ==> Deserialized(data) == None
    ensures |data| >= 7 ==>
              data == [data[0], data[1], data[2], data[3], data[4]] + data[5..|data| - 2]
                      + [data[|data| - 2], data[|data| - 1]]
  {
  }

  /** Frames of the IMU firmware get through whatever their checksum byte, unless the body looks like
      a motor frame with a wrong inner sum. */
  lemma {:induction false} ImuFramesAreAccepted(command: Byte, body: seq<Byte>, checksum: Byte)
    ensures Deserialized([0xEE, 0x11, 0x01, 0x02, command] + body + [checksum, 0x7E]).Some?
            <==> (|body| >= 4 && (body[..2] == [0x55, 0xAA] || body[..2] == [0xAA, 0x55])
                  ==> Sum(body[2..|body| - 1]) % 0x100 == body[|body| - 1])
  {
    FrameLaw(0xEE, 0x11, 0x01, 0x02, command, body, checksum, 0x7E);
  }

  /** Writing what was read gives the bytes back, and only valid packets are ever read. */
  lemma {:induction false} SerializeInvertsDeserialize(data: seq<Byte>)
    requires Deserialized(data).Some?
    ensures Wire(Deserialized(data).value) == data
    ensures ValidPacket(Deserialized(data).value)
  {
    WireInvertsFields(data);
    DeserializeInvertsSerialize(Fields(data));
  }

  /** The accepted byte strings are exactly the images of the valid packets, each of exactly one. */
  lemma {:induction false} AcceptedIffWrittenFromValid(data: seq<Byte>)
    ensures Deserialized(data).Some? <==> exists p: Packet :: ValidPacket(p) && Wire(p) == data
    ensures forall p: Packet, q: Packet :: Wire(p) == data && Wire(q) == data ==> p == q
  {
    if Deserialized(data).Some? {
      SerializeInvertsDeserialize(data);
    }
    forall p: Packet | Wire(p) == data
      ensures ValidPacket(p) ==> Deserialized(data).Some?
      ensures |data| >= 7 && p == Fields(data)
    {
      DeserializeInvertsSerialize(p);
      FieldsInvertWire(p);
    }
  }

  /** Any single changed byte is caught, provided neither version carries the IMU prefix. */
  lemma {:induction false} SingleByteErrorDetected(data: seq<Byte>, i: nat, b: Byte)
    requires InLanguage(data) && i < |data| && b != data[i]
    requires !HasImuPrefix(data) && !HasImuPrefix(data[i := b])
    ensures Deserialized(data[i := b]) == None
  {
    SingleByteErrorLaw(data, i, b);
  }

  /** A changed byte is judged by its own frame's checks; without the IMU prefix on either side the
      outer sum alone rejects it. */
  lemma {:induction false} ChangedByteIsJudged(data: seq<Byte>, i: nat, b: Byte)
    requires InLanguage(data) && i < |data| && b != data[i]
    ensures Deserialized(data[i := b]).Some? <==>
            && i != 0 && i != |data| - 1
            && InnerOk(BodyOf(data[i := b]))
            && (HasImuPrefix(data[i := b])
                || (HasImuPrefix(data)
                    && (LengthOk(data[i := b]) || HasEncoderPrefix(data[i := b]))
                    && OuterOk(data[i := b])))
  {
    var n := |data|;
    var bad := data[i := b];
    if !HasImuPrefix(data) && 0 < i < n - 1 {
      if i < n - 2 {
        assert bad[..n - 2] == data[..n - 2][i := b];
        SumUpdate(data[..n - 2], i, b);
      } else {
        assert bad[..n - 2] == data[..n - 2];
      }
      assert !OuterOk(bad);
    }
  }

  /** Which one-byte changes of a good body its inner check lets through: none beyond the first two
      bytes of a motor body, any beyond those of another body; a change in the first two bytes
      unless it makes a motor body of one whose inner sum is wrong. */
  predicate BodyChangePasses(body: seq<Byte>, p: nat, b: Byte)
    requires p < |body|
  {
    if p >= 2 then !IsMotorBody(body)
    else IsMotorBody(body[p := b]) ==> Sum(InnerPayload(body)) % 0x100 == body[|body| - 1]
  }

  lemma {:induction false} BodyChangeLaw(body: seq<Byte>, p: nat, b: Byte)
    requires InnerOk(body) && p < |body| && b != body[p]
    ensures InnerOk(body[p := b]) <==> BodyChangePasses(body, p, b)
  {
    var bad := body[p := b];
    var m := |body| - 1;
    if p < 2 {
      if |body| >= 4 {
        assert InnerPayload(bad) == InnerPayload(body);
      }
    } else {
      assert bad[..2] == body[..2];
      if IsMotorBody(body) && p < m {
        assert InnerPayload(bad) == InnerPayload(body)[p - 2 := b];
        SumUpdate(InnerPayload(body), p - 2, b);
      } else if IsMotorBody(body) {
        assert InnerPayload(bad) == InnerPayload(body);
      }
    }
  }

  /** Which changes of length, module or target go through although they cost a frame its IMU prefix:
      the new frame must be of the right length, or carry the encoder reply's wrong one, and the
      checksum byte, which was not looked at before, must be right for it. */
  predicate PrefixLossPasses(data: seq<Byte>, i: nat, b: Byte)
    requires |data| >= 7 && i < |data|
  {
    && (if i == 1 then b == |data| - 5 || b == 0x25 else (i == 2 || i == 3) && |data| - 5 == 0x11)
    && (Sum(data[..|data| - 2]) - data[i] + b) % 0x100 == data[|data| - 2]
  }

  /** Exactly which one-byte changes go through, by position. A frame that has the IMU prefix
      afterwards: any but the tail and the body bytes its inner check refuses; so always length,
      module, target, command and checksum byte. One that has lost it: see PrefixLossPasses. All others: none. */
  lemma {:induction false} SingleByteErrorLaw(data: seq<Byte>, i: nat, b: Byte)
    requires InLanguage(data) && i < |data| && b != data[i]
    ensures Deserialized(data[i := b]).Some? <==>
            if HasImuPrefix(data[i := b]) then
              i != |data| - 1 && (5 <= i < |data| - 2 ==> BodyChangePasses(BodyOf(data), i - 5, b))
            else HasImuPrefix(data) && PrefixLossPasses(data, i, b)
  {
    ChangedByteIsJudged(data, i, b);
    ChangedBody(data, i, b);
    if HasImuPrefix(data[i := b]) {
      assert data[i := b][..4][0] == 0xEE;
    } else if HasImuPrefix(data) {
      LostPrefix(data, i, b);
    }
  }

  lemma {:induction false} ChangedBody(data: seq<Byte>, i: nat, b: Byte)
    requires InLanguage(data) && i < |data| && b != data[i]
    ensures InnerOk(BodyOf(data[i := b])) <==> (5 <= i < |data| - 2 ==> BodyChangePasses(BodyOf(data), i - 5, b))
  {
    if 5 <= i < |data| - 2 {
      assert BodyOf(data[i := b]) == BodyOf(data)[i - 5 := b];
      BodyChangeLaw(BodyOf(data), i - 5, b);
    } else {
      assert BodyOf(data[i := b]) == BodyOf(data);
    }
  }

  /** Only a change of one of its four bytes costs a frame the prefix. */
  lemma {:induction false} LostPrefix(data: seq<Byte>, i: nat, b: Byte)
    requires InLanguage(data) && i < |data| && b != data[i]
    requires HasImuPrefix(data) && !HasImuPrefix(data[i := b])
    ensures i < 4
    ensures i != 0 ==>
            (PrefixLossPasses(data, i, b) <==>
              (LengthOk(data[i := b]) || HasEncoderPrefix(data[i := b])) && OuterOk(data[i := b]))
    ensures !PrefixLossPasses(data, 0, b)
  {
    var n, bad := |data|, data[i := b];
    assert data[..4][0] == data[0] && data[..4][1] == data[1] && data[..4][2] == data[2] && data[..4][3] == data[3];
    assert bad[..n - 2] == data[..n - 2][i := b];
    SumUpdate(data[..n - 2], i, b);
    assert HasEncoderPrefix(bad) <==> i == 1 && b == 0x25 by {
      assert bad[..4] == [bad[0], bad[1], bad[2], bad[3]];
    }
  }

  /** Two accepted-or-not motor frames that agree outside body[2..]: the inner payload and check
      byte are all that can differ, and the outer checksum byte is the same. */
  ghost predicate DifferOnlyInMotorBody(a: seq<Byte>, b: seq<Byte>) {
    && |a| == |b| >= 11
    && a[..7] == b[..7]
    && a[|a| - 2..] == b[|a| - 2..]
  }

  /** The outer sum splits into the five header bytes, the 0xFF of the motor header, the payload
      and the inner check byte. */
  lemma {:induction false} MotorFrameSum(data: seq<Byte>)
    requires |data| >= 11 && IsMotorBody(BodyOf(data))
    ensures Sum(data[..|data| - 2])
            == Sum(data[..5]) + 0xFF + Sum(InnerPayload(BodyOf(data))) + data[|data| - 3]
  {
    var n := |data|;
    var body := BodyOf(data);
    assert data[..n - 2] == data[..5] + body;
    SumConcat(data[..5], body);
    assert body == body[..2] + (InnerPayload(body) + [body[|body| - 1]]);
    SumConcat(body[..2], InnerPayload(body) + [body[|body| - 1]]);
    SumConcat(InnerPayload(body), [body[|body| - 1]]);
    assert body[..2][..1] == [body[0]] && [body[0]][..0] == [];
    assert Sum(body[..2]) == 0xFF;
    assert Sum([body[|body| - 1]]) == body[|body| - 1];
  }

  /** The undetected corruptions of a motor frame's body beyond its two header bytes, exactly: the
      payload sum moves by 0 or 128 modulo 256 and the inner check byte moves by the same amount. */
  lemma {:induction false} MotorBodyErrorLaw(data: seq<Byte>, bad: seq<Byte>)
    requires InLanguage(data) && IsMotorBody(BodyOf(data)) && !HasImuPrefix(data)
    requires DifferOnlyInMotorBody(data, bad)
    ensures var payload := (Sum(InnerPayload(BodyOf(bad))) - Sum(InnerPayload(BodyOf(data)))) % 0x100;
            var check := (bad[|bad| - 3] as int - data[|data| - 3]) % 0x100;
            Deserialized(bad).Some? <==> (payload == 0 || payload == 0x80) && check == payload
  {
    var n := |data|;
    assert forall k :: 0 <= k < 7 ==> data[..7][k] == bad[..7][k];
    assert data[n - 2..][0] == bad[n - 2..][0] && data[n - 2..][1] == bad[n - 2..][1];
    assert BodyOf(bad)[..2] == bad[..7][5..] && BodyOf(data)[..2] == data[..7][5..];
    assert data[..7][..5] == data[..5] && bad[..7][..5] == bad[..5];
    MotorFrameSum(data);
    MotorFrameSum(bad);
    assert data[..4] == bad[..4];
    assert bad[0] == data[0] && bad[1] == data[1];
    var p, q := Sum(InnerPayload(BodyOf(data))), Sum(InnerPayload(BodyOf(bad)));
    TwoSumsAgree(Sum(data[..5]) + 0xFF, p, q, data[n - 3], bad[n - 3], data[n - 2]);
    assert BodyOf(data)[|BodyOf(data)| - 1] == data[n - 3];
    assert BodyOf(bad)[|BodyOf(bad)| - 1] == bad[n - 3];
  }

  /** Both congruences hold of the changed frame exactly when the two differences agree and double to zero. */
  lemma {:induction false} TwoSumsAgree(rest: nat, p: nat, q: nat, c: Byte, d: Byte, outer: Byte)
    requires p % 0x100 == c && (rest + p + c) % 0x100 == outer
    ensures (q % 0x100 == d && (rest + q + d) % 0x100 == outer) <==>
            (((q - p) % 0x100 == 0 || (q - p) % 0x100 == 0x80) && (d as int - c) % 0x100 == (q - p) % 0x100)
  {
    var u, v: int := q - p, d as int - c;
    if q % 0x100 == d && (rest + q + d) % 0x100 == outer {
      SumsAgreeOnlyIf(rest, p, q, c, d, u, v);
    }
    if (u % 0x100 == 0 || u % 0x100 == 0x80) && v % 0x100 == u % 0x100 {
      SumsAgreeIf(rest, p, q, c, d, u, v);
    }
  }

  lemma {:induction false} SumsAgreeOnlyIf(rest: nat, p: nat, q: nat, c: Byte, d: Byte, u: int, v: int)
    requires u == q - p && v == d as int - c && p % 0x100 == c && q % 0x100 == d
    requires (rest + p + c) % 0x100 == (rest + q + d) % 0x100
    ensures (u % 0x100 == 0 || u % 0x100 == 0x80) && v % 0x100 == u % 0x100
  {
    var before, after := rest + p + c, rest + q + d;
    LowByte(u, q / 0x100 - p / 0x100);
    assert v == u - 0x100 * (q / 0x100 - p / 0x100);
    var k := after / 0x100 - before / 0x100 + q / 0x100 - p / 0x100;
    assert u == 0x80 * k;
    HalfByte(k);
  }

  lemma {:induction false} SumsAgreeIf(rest: nat, p: nat, q: nat, c: Byte, d: Byte, u: int, v: int)
    requires u == q - p && v == d as int - c && p % 0x100 == c
    requires (u % 0x100 == 0 || u % 0x100 == 0x80) && v % 0x100 == u % 0x100
    ensures q % 0x100 == d && (rest + q + d) % 0x100 == (rest + p + c) % 0x100
  {
    var before, after := rest + p + c, rest + q + d;
    var y := u / 0x100 - v / 0x100;
    assert q - d == 0x100 * (p / 0x100 + y);
    LowByte(q, p / 0x100 + y);
    var z := if u % 0x100 == 0 then 2 * (u / 0x100) else 2 * (u / 0x100) + 1;
    assert after == before - 0x100 * (y - z);
    LowByte(before, y - z);
  }

  lemma HalfByte(k: int)
    ensures (0x80 * k) % 0x100 == 0 || (0x80 * k) % 0x100 == 0x80
  {
    LowByte(0x80 * k, k / 2);
  }
}
