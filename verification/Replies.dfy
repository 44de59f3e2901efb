/** The three reply parsers, the replies the firmware really sends, and which parser takes which. */
module Replies {
  import opened Bytes
  import opened Packets
  import opened WireLanguage
  import opened Commands

  const NUM_ENCODER_CHANNELS: nat := 16

  datatype MotorStatus = MotorStatus(
    motorId: Byte, targetPosition: Word, actualPosition: Word, actualCurrent: Word,
    forceValue: Word, forceRaw: Word, temperature: Byte, faultCode: Byte)

  /** Bit patterns of the three big-endian binary32 angles. */
  datatype ImuWords = ImuWords(roll: Word32, pitch: Word32, yaw: Word32)

  predicate IsMotorResponse(p: Packet) {
    p.moduleId == MODULE_ID && p.target == TARGET_MOTOR && |p.body| >= 18 && p.body[..2] == [0xAA, 0x55]
  }

  /** The size guard lets an 18-byte motor response through although byte 18 is then read. */
  predicate MotorReadsDefined(p: Packet) {
    !(IsMotorResponse(p) && |p.body| == 18)
  }

  function ParseMotorStatus(p: Packet): (r: Option<MotorStatus>)
    requires MotorReadsDefined(p)
    ensures r.Some? <==> IsMotorResponse(p)
    ensures r.Some? <==> p.moduleId == 0x01 && p.target == 0x01 && |p.body| >= 18 && p.body[0] == 0xAA && p.body[1] == 0x55
  {
    var b := p.body;
    if p.moduleId != MODULE_ID || p.target != TARGET_MOTOR then None
    else if |b| < 18 then None
    else
      assert b[..2] == [b[0], b[1]];
      if b[0] != 0xAA || b[1] != 0x55 then None
      else
        var o := 7;
        Some(MotorStatus(b[3], Le16(b[o], b[o + 1]), Le16(b[o + 2], b[o + 3]), Le16(b[o + 4], b[o + 5]),
                         Le16(b[o + 6], b[o + 7]), Le16(b[o + 8], b[o + 9]), b[o + 10], b[o + 11]))
  }

  predicate IsEncoderResponse(p: Packet) {
    p.moduleId == MODULE_ID && p.target == TARGET_ENCODER && |p.body| >= 32
  }

  function EncoderWords(body: seq<Byte>): (adc: seq<Word>)
    requires |body| >= 32
    ensures |adc| == 16
  {
    seq(16, (i: nat) requires i < 16 => Be16(body[2 * i], body[2 * i + 1]))
  }

  function ParsedEncoderData(p: Packet): Option<seq<Word>> {
    if IsEncoderResponse(p) then Some(EncoderWords(p.body)) else None
  }

  method ParseEncoderData(p: Packet) returns (r: Option<seq<Word>>)
    ensures r == ParsedEncoderData(p)
    ensures r.Some? <==> p.moduleId == 0x01 && p.target == 0x02 && |p.body| >= 32
    ensures r.Some? ==>
              |r.value| == 16
              && forall i :: 0 <= i < 16 ==> r.value[i] == p.body[2 * i] as int * 0x100 + p.body[2 * i + 1]
  {
    if p.moduleId != MODULE_ID || p.target != TARGET_ENCODER {
      return None;
    }
    if |p.body| < 32 {
      return None;
    }
    var adcValues := new Word[16];
    for i := 0 to NUM_ENCODER_CHANNELS
      invariant adcValues[..i] == EncoderWords(p.body)[..i]
    {
      adcValues[i] := Be16(p.body[i * 2], p.body[i * 2 + 1]);
    }
    assert adcValues[..] == EncoderWords(p.body);
    return Some(adcValues[..]);
  }

  predicate IsImuResponse(p: Packet) {
    p.moduleId == MODULE_ID && |p.body| >= 12
  }

  /** The target is not looked at: the firmware writes a wrong one. */
  function ParseImuData(p: Packet): (r: Option<ImuWords>)
    ensures r.Some? <==> IsImuResponse(p)
    ensures r.Some? <==> p.moduleId == 0x01 && |p.body| >= 12
  {
    var b := p.body;
    if p.moduleId != MODULE_ID then None
    else if |b| < 12 then None
    else Some(ImuWords(Be32(b[0], b[1], b[2], b[3]), Be32(b[4], b[5], b[6], b[7]), Be32(b[8], b[9], b[10], b[11])))
  }

  /** No packet is both a motor and an encoder reply, and whatever either of them takes the IMU
      parser takes too: only the pairing of replies with requests tells those apart. */
  lemma {:induction false} ParsersByKind(p: Packet)
    requires MotorReadsDefined(p)
    ensures !(ParseMotorStatus(p).Some? && ParsedEncoderData(p).Some?)
    ensures ParseMotorStatus(p).Some? <==> IsMotorResponse(p)
    ensures ParsedEncoderData(p).Some? <==> IsEncoderResponse(p)
    ensures ParseMotorStatus(p).Some? || ParsedEncoderData(p).Some? ==> ParseImuData(p).Some?
  {
    if |p.body| >= 18 {
      assert p.body[..2] == [p.body[0], p.body[1]];
    }
  }

  // ---- what the firmware sends ----

  function WordBytes(adc: seq<Word>): (b: seq<Byte>)
    ensures |b| == 2 * |adc|
  {
    if adc == [] then [] else WordBytes(adc[..|adc| - 1]) + [Hi(adc[|adc| - 1]), Lo(adc[|adc| - 1])]
  }

  lemma {:induction false} WordBytesAt(adc: seq<Word>, k: nat)
    requires k < |adc|
    ensures WordBytes(adc)[2 * k] == Hi(adc[k]) && WordBytes(adc)[2 * k + 1] == Lo(adc[k])
  {
    var front := adc[..|adc| - 1];
    if front == [] {
    } else if k < |front| {
      WordBytesAt(front, k);
    } else {
      WordBytesAt(front, 0);
    }
  }

  function EncoderReply(adc: seq<Word>, length: Byte, command: Byte): seq<Byte> {
    Wire(Summed(length, TARGET_ENCODER, command, WordBytes(adc)))
  }

  /** The words look like a motor frame whose check fails: channel 0 reads 0x55AA or 0xAA55 and the
      inner sum is not the low byte of channel 15. */
  predicate EncoderDropped(adc: seq<Word>)
    requires |adc| == 16
  {
    (adc[0] == 0x55AA || adc[0] == 0xAA55) && Sum(WordBytes(adc)[2..31]) % 0x100 != WordBytes(adc)[31]
  }

  /** Encoder replies, with the right length byte or the firmware's wrong one, deliver exactly their
      sixteen words, or are dropped, exactly when channel 0 is 0x55AA or 0xAA55 and the inner sum fails. */
  lemma {:induction false} EncoderReplyLaw(adc: seq<Word>, length: Byte, command: Byte)
    requires |adc| == 16 && (length == 0x22 || length == 0x25)
    ensures match Deserialized(EncoderReply(adc, length, command))
            case None => EncoderDropped(adc)
            case Some(p) => !EncoderDropped(adc) && ParsedEncoderData(p) == Some(adc)
  {
    var body := WordBytes(adc);
    var p := Summed(length, TARGET_ENCODER, command, body);
    WordsParse(adc);
    DeserializeInvertsSerialize(p);
    assert IsMotorBody(body) <==> (adc[0] == 0x55AA || adc[0] == 0xAA55) by {
      WordBytesAt(adc, 0);
      assert body[..2] == [Hi(adc[0]), Lo(adc[0])];
      BytesOfWord(adc[0]);
    }
    assert InnerPayload(body) == body[2..31];
  }

  lemma {:induction false} SumOfZeros(s: seq<Byte>)
    requires forall i :: 0 <= i < |s| ==> s[i] == 0
    ensures Sum(s) == 0
  {
    if s != [] {
      SumOfZeros(s[..|s| - 1]);
    }
  }

  /** Channel 0 reads like a motor header, channel 15 reads 1, the others 0. */
  function HeaderLikeReading(): (adc: seq<Word>)
    ensures |adc| == 16
  {
    seq(16, (i: nat) requires i < 16 => if i == 0 then 0x55AA else if i == 15 then 1 else 0)
  }

  /** A good reading that never gets through, whatever the command byte and with either length byte. */
  lemma {:induction false} EncoderReplyMayBeDropped(length: Byte, command: Byte)
    requires length == 0x22 || length == 0x25
    ensures Deserialized(EncoderReply(HeaderLikeReading(), length, command)) == None
  {
    HeaderLikeIsDropped();
    EncoderReplyLaw(HeaderLikeReading(), length, command);
  }

  lemma {:induction false} HeaderLikeIsDropped()
    ensures EncoderDropped(HeaderLikeReading())
  {
    HeaderLikeBytes();
  }

  lemma {:induction false} HeaderLikeBytes()
    ensures var b := WordBytes(HeaderLikeReading());
            |b| == 32 && Sum(b[2..31]) == 0 && b[31] == 1
  {
    var adc := HeaderLikeReading();
    var b := WordBytes(adc);
    WordBytesAt(adc, 15);
    forall i | 2 <= i < 31
      ensures b[i] == 0
    {
      WordBytesAt(adc, i / 2);
    }
    SumOfZeros(b[2..31]);
  }

  lemma BytesOfWord(w: Word)
    ensures w == 0x55AA <==> Hi(w) == 0x55 && Lo(w) == 0xAA
    ensures w == 0xAA55 <==> Hi(w) == 0xAA && Lo(w) == 0x55
  {
  }

  lemma {:induction false} WordsParse(adc: seq<Word>)
    requires |adc| == 16
    ensures |WordBytes(adc)| == 32 && EncoderWords(WordBytes(adc)) == adc
  {
    WordBytesAt(adc, 0);
    forall k | 0 <= k < 16
      ensures EncoderWords(WordBytes(adc))[k] == adc[k]
    {
      WordBytesAt(adc, k);
    }
  }

  function Word32Bytes(w: Word32): seq<Byte> {
    [w / 0x100_0000, w / 0x1_0000 % 0x100, w / 0x100 % 0x100, w % 0x100]
  }

  function ImuBody(w: ImuWords): seq<Byte> {
    Word32Bytes(w.roll) + Word32Bytes(w.pitch) + Word32Bytes(w.yaw)
  }

  /** The firmware's IMU reply: wrong length, wrong target, arbitrary checksum. */
  function ImuReply(w: ImuWords, command: Byte, checksum: Byte): Packet {
    Packet(PACKET_HEADER, 0x11, MODULE_ID, TARGET_ENCODER, command, ImuBody(w), checksum, PACKET_TAIL)
  }

  lemma {:induction false} Word32RoundTrip(w: Word32)
    ensures var b := Word32Bytes(w); Be32(b[0], b[1], b[2], b[3]) == w
  {
    assert w == w / 0x100 * 0x100 + w % 0x100;
    assert w / 0x100 == w / 0x1_0000 * 0x100 + w / 0x100 % 0x100;
    assert w / 0x1_0000 == w / 0x100_0000 * 0x100 + w / 0x1_0000 % 0x100;
  }

  /** The same for angles: the top half of roll and the last byte of yaw. */
  predicate ImuDropped(w: ImuWords) {
    && (w.roll / 0x1_0000 == 0x55AA || w.roll / 0x1_0000 == 0xAA55)
    && Sum(ImuBody(w)[2..11]) % 0x100 != ImuBody(w)[11]
  }

  /** IMU replies deliver exactly their three words whatever the checksum byte says, or are dropped,
      exactly when the top half of roll is a motor header and the inner sum fails. They never parse
      as encoder data, although they carry the encoder's target. */
  lemma {:induction false} ImuReplyLaw(w: ImuWords, command: Byte, checksum: Byte)
    ensures match Deserialized(Wire(ImuReply(w, command, checksum)))
            case None => ImuDropped(w)
            case Some(p) => !ImuDropped(w) && ParseImuData(p) == Some(w) && ParsedEncoderData(p) == None
  {
    DeserializeInvertsSerialize(ImuReply(w, command, checksum));
    ImuInnerCheck(w);
    ImuWordsParse(w, command, checksum);
  }

  lemma {:induction false} ImuInnerCheck(w: ImuWords)
    ensures InnerOk(ImuBody(w)) <==> !ImuDropped(w)
  {
    var b := ImuBody(w);
    assert b[..2] == [b[0], b[1]];
    assert b[0] == w.roll / 0x1_0000 / 0x100 && b[1] == w.roll / 0x1_0000 % 0x100;
    assert InnerPayload(b) == b[2..11];
  }

  lemma {:induction false} ImuWordsParse(w: ImuWords, command: Byte, checksum: Byte)
    ensures ParseImuData(ImuReply(w, command, checksum)) == Some(w)
    ensures ParsedEncoderData(ImuReply(w, command, checksum)) == None
  {
    Word32RoundTrip(w.roll);
    Word32RoundTrip(w.pitch);
    Word32RoundTrip(w.yaw);
  }

  /** An IMU reading that never gets through: only yaw's last byte is not zero, but roll reads like a header. */
  lemma {:induction false} ImuReplyMayBeDropped(command: Byte, checksum: Byte)
    ensures Deserialized(Wire(ImuReply(ImuWords(0x55AA_0000, 0, 1), command, checksum))) == None
  {
    ImuReplyLaw(ImuWords(0x55AA_0000, 0, 1), command, checksum);
    HeaderLikeAngles();
  }

  lemma {:induction false} HeaderLikeAngles()
    ensures var b := ImuBody(ImuWords(0x55AA_0000, 0, 1)); Sum(b[2..11]) == 0 && b[11] == 1
  {
    SumOfZeros(ImuBody(ImuWords(0x55AA_0000, 0, 1))[2..11]);
  }

  function StatusPayload(s: MotorStatus, instruction: Byte, register: Word): seq<Byte> {
    [0x0F, s.motorId, instruction, Lo(register), Hi(register),
     Lo(s.targetPosition), Hi(s.targetPosition), Lo(s.actualPosition), Hi(s.actualPosition),
     Lo(s.actualCurrent), Hi(s.actualCurrent), Lo(s.forceValue), Hi(s.forceValue),
     Lo(s.forceRaw), Hi(s.forceRaw), s.temperature, s.faultCode]
  }

  /** A motor's status reply, as the parser and its unit test lay it out: after target and command. */
  function StatusReply(s: MotorStatus, command: Byte, instruction: Byte, register: Word): seq<Byte> {
    Wire(Summed(22, TARGET_MOTOR, command, MotorBody(StatusPayload(s, instruction, register))))
  }

  /** A motor response body around a payload: header, payload, check byte. */
  function MotorBody(payload: seq<Byte>): seq<Byte> {
    [0xAA, 0x55] + payload + [Sum(payload) % 0x100]
  }

  /** A status reply, byte by byte. */
  lemma {:induction false} StatusReplyInNumbers(s: MotorStatus, command: Byte, instruction: Byte, register: Word)
    ensures var payload: seq<Byte> :=
              [0x0F, s.motorId, instruction, register % 0x100, register / 0x100,
               s.targetPosition % 0x100, s.targetPosition / 0x100, s.actualPosition % 0x100, s.actualPosition / 0x100,
               s.actualCurrent % 0x100, s.actualCurrent / 0x100, s.forceValue % 0x100, s.forceValue / 0x100,
               s.forceRaw % 0x100, s.forceRaw / 0x100, s.temperature, s.faultCode];
            var inner: seq<Byte> := [0xAA, 0x55] + payload + [Sum(payload) % 0x100];
            StatusReply(s, command, instruction, register)
            == [0xEE, 0x16, 0x01, 0x01, command] + inner + [(0x106 + command + Sum(inner)) % 0x100, 0x7E]
  {
  }

  /** An encoder reply, byte by byte. */
  lemma {:induction false} EncoderReplyInNumbers(adc: seq<Word>, length: Byte, command: Byte, k: nat)
    requires |adc| == 16 && k < 16
    ensures var reply := EncoderReply(adc, length, command);
            && |reply| == 39 && reply[..5] == [0xEE, length, 0x01, 0x02, command] && reply[38] == 0x7E
            && reply[5 + 2 * k] == adc[k] / 0x100 && reply[6 + 2 * k] == adc[k] % 0x100
            && reply[37] == (0xF1 + length + command + Sum(reply[5..37])) % 0x100
  {
    WordBytesAt(adc, k);
    assert EncoderReply(adc, length, command)[5..37] == WordBytes(adc);
  }

  /** An IMU reply, byte by byte. */
  lemma {:induction false} ImuReplyInNumbers(w: ImuWords, command: Byte, checksum: Byte)
    ensures Wire(ImuReply(w, command, checksum))
            == [0xEE, 0x11, 0x01, 0x02, command,
                w.roll / 0x100_0000, w.roll / 0x1_0000 % 0x100, w.roll / 0x100 % 0x100, w.roll % 0x100,
                w.pitch / 0x100_0000, w.pitch / 0x1_0000 % 0x100, w.pitch / 0x100 % 0x100, w.pitch % 0x100,
                w.yaw / 0x100_0000, w.yaw / 0x1_0000 % 0x100, w.yaw / 0x100 % 0x100, w.yaw % 0x100,
                checksum, 0x7E]
  {
  }

  lemma {:induction false} MotorBodyIsOk(payload: seq<Byte>)
    requires payload != []
    ensures InnerOk(MotorBody(payload))
  {
    assert InnerPayload(MotorBody(payload)) == payload;
  }

  /** Status replies always get through and deliver exactly the status that was sent. */
  lemma {:induction false} StatusReplyLaw(s: MotorStatus, command: Byte, instruction: Byte, register: Word)
    ensures var r := Deserialized(StatusReply(s, command, instruction, register));
            r.Some? && MotorReadsDefined(r.value) && ParseMotorStatus(r.value) == Some(s)
  {
    MotorReplyIsRead(StatusPayload(s, instruction, register), command);
    StatusParses(Deserialized(StatusReply(s, command, instruction, register)).value, s, instruction, register);
  }

  lemma {:induction false} MotorReplyIsRead(payload: seq<Byte>, command: Byte)
    requires |payload| == 17
    ensures var p := Summed(22, TARGET_MOTOR, command, MotorBody(payload));
            && Deserialized(Wire(p)) == Some(p)
            && |p.body| == 20 && p.body[..2] == [0xAA, 0x55] && p.body[2..19] == payload
  {
    var p := Summed(22, TARGET_MOTOR, command, MotorBody(payload));
    MotorBodyIsOk(payload);
    DeserializeInvertsSerialize(p);
  }

  lemma {:induction false} StatusParses(p: Packet, s: MotorStatus, instruction: Byte, register: Word)
    requires p.moduleId == MODULE_ID && p.target == TARGET_MOTOR && |p.body| == 20
    requires p.body[..2] == [0xAA, 0x55] && p.body[2..19] == StatusPayload(s, instruction, register)
    ensures MotorReadsDefined(p) && ParseMotorStatus(p) == Some(s)
  {
    assert p.body[..2][0] == 0xAA && p.body[..2][1] == 0x55;
    assert forall k :: 2 <= k < 19 ==> p.body[k] == p.body[2..19][k - 2];
    Le16OfBytes(s.targetPosition);
    Le16OfBytes(s.actualPosition);
    Le16OfBytes(s.actualCurrent);
    Le16OfBytes(s.forceValue);
    Le16OfBytes(s.forceRaw);
  }
}
