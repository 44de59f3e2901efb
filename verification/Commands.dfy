/** The eight request encoders, and a reader of requests that they are proved against. */
module Commands {
  import opened Bytes
  import opened Packets
  import opened WireLanguage

  const TARGET_MOTOR: Byte := 0x01
  const TARGET_ENCODER: Byte := 0x02
  const TARGET_IMU: Byte := 0x03

  const CMD_READ_MOTOR_ID: Byte := 0x10
  const CMD_READ_STATUS: Byte := 0x20
  const CMD_SET_MODE: Byte := 0x30
  const CMD_SET_POSITION: Byte := 0x31
  const CMD_SET_SPEED: Byte := 0x32
  const CMD_SET_FORCE: Byte := 0x33

  datatype Command =
    | ReadMotorId(id: Byte)
    | ReadMotorStatus(id: Byte)
    | SetMode(id: Byte, mode: Byte)
    | SetPosition(id: Byte, position: Word)
    | SetForce(id: Byte, force: Word)
    | SetSpeed(id: Byte, speed: Word, position: Word)
    | ReadEncoders
    | ReadImu

  predicate IsMotorCommand(c: Command) {
    !c.ReadEncoders? && !c.ReadImu?
  }

  function TargetOf(c: Command): Byte {
    match c
    case ReadEncoders => TARGET_ENCODER
    case ReadImu => TARGET_IMU
    case _ => TARGET_MOTOR
  }

  function CodeOf(c: Command): Byte {
    match c
    case ReadMotorId(_) => CMD_READ_MOTOR_ID
    case ReadMotorStatus(_) => CMD_READ_STATUS
    case SetMode(_, _) => CMD_SET_MODE
    case SetPosition(_, _) => CMD_SET_POSITION
    case SetForce(_, _) => CMD_SET_FORCE
    case SetSpeed(_, _, _) => CMD_SET_SPEED
    case ReadEncoders => 0x00
    case ReadImu => 0x00
  }

  /** What the inner check byte of a motor request covers: length, motor, instruction, register, data. */
  function MotorPayload(c: Command): seq<Byte>
    requires IsMotorCommand(c)
  {
    match c
    case ReadMotorId(id) => [0x04, id, 0x31, 0x16, 0x00, 0x01]
    case ReadMotorStatus(id) => [0x03, id, 0x30, 0x00, 0x00]
    case SetMode(id, mode) => [0x05, id, 0x32, 0x25, 0x00, mode, 0x00]
    case SetPosition(id, position) => [0x05, id, 0x32, 0x29, 0x00, Lo(position), Hi(position)]
    case SetForce(id, force) => [0x05, id, 0x32, 0x27, 0x00, Lo(force), Hi(force)]
    case SetSpeed(id, speed, position) =>
      [0x07, id, 0x32, 0x28, 0x00, Lo(speed), Hi(speed), Lo(position), Hi(position)]
  }

  function CommandBody(c: Command): seq<Byte> {
    if c.ReadEncoders? then [0xFF, 0xFF]
    else if c.ReadImu? then []
    else [0x55, 0xAA] + MotorPayload(c) + [Sum(MotorPayload(c)) % 0x100]
  }

  /** The packet of a command. Its checksum is fixed by its other fields. */
  function Frame(c: Command): Packet {
    Summed(|CommandBody(c)| + 2, TargetOf(c), CodeOf(c), CommandBody(c))
  }

  method WriteUint16Le(data: seq<Byte>, value: Word) returns (r: seq<Byte>)
    ensures r == data + [Lo(value), Hi(value)]
    ensures Le16(r[|data|], r[|data| + 1]) == value
  {
    r := data + [value % 0x100];
    r := r + [(value / 0x100) % 0x100];
  }

  /** The common end of every encoder: outer length, then the outer sum of the packet written with
      its checksum byte still zero. */
  method Seal(command: Byte, target: Byte, body: seq<Byte>) returns (p: Packet)
    requires |body| <= 0xFD
    ensures p == Summed(|body| + 2, target, command, body)
  {
    p := Packet(PACKET_HEADER, 2 + |body| % 0x100, MODULE_ID, target, command, body, 0, PACKET_TAIL);
    OuterSum(p);
    var serialized := Serialize(p);
    var checksum := CalculateChecksum(serialized);
    p := p.(checksum := checksum);
  }

  /** The motor encoders patch the inner check byte over the zero they pushed for it. */
  method SealMotor(command: Byte, unchecked: seq<Byte>) returns (p: Packet)
    requires 4 <= |unchecked| <= 0xFD && unchecked[..2] == [0x55, 0xAA] && unchecked[|unchecked| - 1] == 0
    ensures var body := unchecked[|unchecked| - 1 := Sum(unchecked[2..|unchecked| - 1]) % 0x100];
            p == Summed(|body| + 2, TARGET_MOTOR, command, body)
  {
    var inner := unchecked;
    var check := CalculateMotorChecksum(inner);
    inner := inner[|inner| - 1 := check];
    p := Seal(command, TARGET_MOTOR, inner);
  }

  method EncodeReadMotorId(motorId: Byte) returns (p: Packet)
    ensures p == Frame(ReadMotorId(motorId))
  {
    var inner: seq<Byte> := [];
    inner := inner + [0x55];
    inner := inner + [0xAA];
    inner := inner + [0x04];
    inner := inner + [motorId];
    inner := inner + [0x31];
    inner := inner + [0x16];
    inner := inner + [0x00];
    inner := inner + [0x01];
    inner := inner + [0x00];
    assert inner[2..8] == MotorPayload(ReadMotorId(motorId));
    p := SealMotor(CMD_READ_MOTOR_ID, inner);
    assert p.body == CommandBody(ReadMotorId(motorId));
  }

  method EncodeReadMotorStatus(motorId: Byte) returns (p: Packet)
    ensures p == Frame(ReadMotorStatus(motorId))
  {
    var inner: seq<Byte> := [];
    inner := inner + [0x55];
    inner := inner + [0xAA];
    inner := inner + [0x03];
    inner := inner + [motorId];
    inner := inner + [0x30];
    inner := inner + [0x00];
    inner := inner + [0x00];
    inner := inner + [0x00];
    assert inner[2..7] == MotorPayload(ReadMotorStatus(motorId));
    p := SealMotor(CMD_READ_STATUS, inner);
    assert p.body == CommandBody(ReadMotorStatus(motorId));
  }

  /** The shared shape of the three one-register writes. */
  method EncodeRegisterWrite(command: Byte, motorId: Byte, register: Byte, value: Word) returns (p: Packet)
    ensures var payload := [0x05, motorId, 0x32, register, 0x00, Lo(value), Hi(value)];
            p == Summed(12, TARGET_MOTOR, command, [0x55, 0xAA] + payload + [Sum(payload) % 0x100])
  {
    var inner: seq<Byte> := [];
    inner := inner + [0x55];
    inner := inner + [0xAA];
    inner := inner + [0x05];
    inner := inner + [motorId];
    inner := inner + [0x32];
    inner := inner + [register];
    inner := inner + [0x00];
    inner := WriteUint16Le(inner, value);
    inner := inner + [0x00];
    var payload: seq<Byte> := [0x05, motorId, 0x32, register, 0x00, Lo(value), Hi(value)];
    assert inner[2..9] == payload;
    p := SealMotor(command, inner);
    assert p.body == [0x55, 0xAA] + payload + [Sum(payload) % 0x100];
  }

  method EncodeSetMotorMode(motorId: Byte, mode: Byte) returns (p: Packet)
    ensures p == Frame(SetMode(motorId, mode))
  {
    p := EncodeRegisterWrite(CMD_SET_MODE, motorId, 0x25, mode);
    assert MotorPayload(SetMode(motorId, mode)) == [0x05, motorId, 0x32, 0x25, 0x00, Lo(mode), Hi(mode)];
  }

  method EncodeSetMotorPosition(motorId: Byte, position: Word) returns (p: Packet)
    ensures p == Frame(SetPosition(motorId, position))
  {
    p := EncodeRegisterWrite(CMD_SET_POSITION, motorId, 0x29, position);
  }

  method EncodeSetMotorForce(motorId: Byte, force: Word) returns (p: Packet)
    ensures p == Frame(SetForce(motorId, force))
  {
    p := EncodeRegisterWrite(CMD_SET_FORCE, motorId, 0x27, force);
  }

  method EncodeSetMotorSpeed(motorId: Byte, speed: Word, targetPosition: Word) returns (p: Packet)
    ensures p == Frame(SetSpeed(motorId, speed, targetPosition))
  {
    var inner: seq<Byte> := [];
    inner := inner + [0x55];
    inner := inner + [0xAA];
    inner := inner + [0x07];
    inner := inner + [motorId];
    inner := inner + [0x32];
    inner := inner + [0x28];
    inner := inner + [0x00];
    ghost var start := inner;
    inner := WriteUint16Le(inner, speed);
    inner := WriteUint16Le(inner, targetPosition);
    inner := inner + [0x00];
    ghost var payload := MotorPayload(SetSpeed(motorId, speed, targetPosition));
    assert start == [0x55, 0xAA] + payload[..5];
    assert inner == [0x55, 0xAA] + payload + [0x00];
    p := SealMotor(CMD_SET_SPEED, inner);
    assert inner[2..11] == payload;
  }

  method EncodeReadAllEncoders() returns (p: Packet)
    ensures p == Frame(ReadEncoders)
  {
    var body: seq<Byte> := [];
    body := body + [0xFF];
    body := body + [0xFF];
    assert body == [0xFF, 0xFF];
    p := Seal(0x00, TARGET_ENCODER, body);
  }

  method EncodeReadImu() returns (p: Packet)
    ensures p == Frame(ReadImu)
  {
    p := Seal(0x00, TARGET_IMU, []);
  }

  /** A request read back by the protocol tables: which command, for which motor, with which values. */
  function Understood(data: seq<Byte>): Option<Command> {
    match Deserialized(data)
    case None => None
    case Some(p) => UnderstoodPacket(p)
  }

  function UnderstoodPacket(p: Packet): Option<Command> {
    if p.moduleId != MODULE_ID || p.length != |p.body| + 2 then None
    else if p.target == TARGET_MOTOR then UnderstoodMotor(p.command, p.body)
    else if p.target == TARGET_ENCODER && p.command == 0 && p.body == [0xFF, 0xFF] then Some(ReadEncoders)
    else if p.target == TARGET_IMU && p.command == 0 && p.body == [] then Some(ReadImu)
    else None
  }

  function UnderstoodMotor(command: Byte, body: seq<Byte>): Option<Command> {
    if |body| < 8 || body[..2] != [0x55, 0xAA] then None
    else if command == CMD_READ_MOTOR_ID && |body| == 9 && body[2] == 0x04 && body[4..8] == [0x31, 0x16, 0x00, 0x01]
    then Some(ReadMotorId(body[3]))
    else if command == CMD_READ_STATUS && |body| == 8 && body[2] == 0x03 && body[4..7] == [0x30, 0x00, 0x00]
    then Some(ReadMotorStatus(body[3]))
    else if command == CMD_SET_MODE && IsRegisterWrite(body, 0x05, 0x25) && body[8] == 0x00
    then Some(SetMode(body[3], body[7]))
    else if command == CMD_SET_POSITION && IsRegisterWrite(body, 0x05, 0x29)
    then Some(SetPosition(body[3], Le16(body[7], body[8])))
    else if command == CMD_SET_FORCE && IsRegisterWrite(body, 0x05, 0x27)
    then Some(SetForce(body[3], Le16(body[7], body[8])))
    else if command == CMD_SET_SPEED && IsRegisterWrite(body, 0x07, 0x28)
    then Some(SetSpeed(body[3], Le16(body[7], body[8]), Le16(body[9], body[10])))
    else None
  }

  predicate IsRegisterWrite(body: seq<Byte>, innerLength: Byte, register: Byte) {
    |body| == innerLength + 5 && |body| >= 7 && body[2] == innerLength && body[4..7] == [0x32, register, 0x00]
  }

  /** Every request is accepted by the frame reader, carries no workaround prefix, and is read back
      as the command it was made from. */
  lemma {:induction false} CommandsReadBack(c: Command)
    ensures Deserialized(Wire(Frame(c))) == Some(Frame(c))
    ensures !HasImuPrefix(Wire(Frame(c))) && !HasEncoderPrefix(Wire(Frame(c)))
    ensures Understood(Wire(Frame(c))) == Some(c)
  {
    FrameIsValid(c);
    DeserializeInvertsSerialize(Frame(c));
    assert Wire(Frame(c))[1] == Frame(c).length && Wire(Frame(c))[3] == Frame(c).target;
    if IsMotorCommand(c) {
      MotorBodyReadBack(c);
    }
  }

  lemma {:induction false} FrameIsValid(c: Command)
    ensures ValidPacket(Frame(c))
  {
    if IsMotorCommand(c) {
      assert InnerPayload(CommandBody(c)) == MotorPayload(c);
    }
  }

  lemma {:induction false} MotorBodyReadBack(c: Command)
    requires IsMotorCommand(c)
    ensures UnderstoodMotor(CodeOf(c), CommandBody(c)) == Some(c)
  {
    var body := CommandBody(c);
    assert body[..2] == [0x55, 0xAA];
    assert body[4..7] == MotorPayload(c)[2..5];
    if c.ReadMotorId? {
      assert body[4..8] == [0x31, 0x16, 0x00, 0x01];
    }
  }

  lemma {:induction false} UnderstoodPacketIsTheFrame(p: Packet, c: Command)
    requires ValidPacket(p) && UnderstoodPacket(p) == Some(c)
    ensures p == Frame(c)
  {
    UnderstoodFields(p, c);
    if IsMotorCommand(c) {
      MotorBodyIsDetermined(p, c);
    }
    ValidPacketIsSummed(p);
  }

  lemma {:induction false} UnderstoodFields(p: Packet, c: Command)
    requires UnderstoodPacket(p) == Some(c)
    ensures p.moduleId == MODULE_ID && p.length == |p.body| + 2 && p.target == TargetOf(c)
    ensures IsMotorCommand(c) ==> UnderstoodMotor(p.command, p.body) == Some(c)
    ensures !IsMotorCommand(c) ==> p.command == CodeOf(c) && p.body == CommandBody(c)
  {
  }

  /** A valid packet of this module with the right length byte is the sealed form of its own fields. */
  lemma {:induction false} ValidPacketIsSummed(p: Packet)
    requires ValidPacket(p) && p.moduleId == MODULE_ID && p.length == |p.body| + 2
    requires p.length == 0x11 ==> p.target != 0x02
    ensures p == Summed(p.length, p.target, p.command, p.body)
  {
  }

  /** No other bytes are read as that command: the reader of requests and the encoders agree exactly. */
  lemma {:induction false} OnlyItsOwnBytesReadAsACommand(data: seq<Byte>, c: Command)
    ensures Understood(data) == Some(c) <==> data == Wire(Frame(c))
  {
    if Understood(data) == Some(c) {
      SerializeInvertsDeserialize(data);
      UnderstoodPacketIsTheFrame(Deserialized(data).value, c);
    }
    if data == Wire(Frame(c)) {
      CommandsReadBack(c);
    }
  }

  lemma {:induction false} MotorBodyIsDetermined(p: Packet, c: Command)
    requires InnerOk(p.body) && UnderstoodMotor(p.command, p.body) == Some(c)
    ensures p.body == CommandBody(c) && p.command == CodeOf(c)
  {
    var body := p.body;
    var n := |body|;
    assert InnerPayload(body) == MotorPayload(c) by {
      MotorPayloadIsDetermined(p.command, body, c);
    }
    assert body == body[..2] + InnerPayload(body) + [body[n - 1]];
  }

  lemma {:induction false} MotorPayloadIsDetermined(command: Byte, body: seq<Byte>, c: Command)
    requires UnderstoodMotor(command, body) == Some(c)
    ensures InnerPayload(body) == MotorPayload(c)
  {
    match c
    case ReadMotorId(id) =>
      assert body[2..8] == [0x04, id] + body[4..8];
    case ReadMotorStatus(id) =>
      assert body[2..7] == [0x03, id] + body[4..7];
    case SetMode(id, mode) =>
      RegisterWritePayload(body, 0x05, 0x25);
      assert body[7] == mode && body[8] == 0x00;
      assert body[7..9] == [mode, 0x00];
    case SetPosition(id, position) =>
      RegisterWritePayload(body, 0x05, 0x29);
      Le16Bytes(body[7], body[8]);
      assert body[7..9] == [Lo(position), Hi(position)];
    case SetForce(id, force) =>
      RegisterWritePayload(body, 0x05, 0x27);
      Le16Bytes(body[7], body[8]);
      assert body[7..9] == [Lo(force), Hi(force)];
    case SetSpeed(id, speed, position) =>
      RegisterWritePayload(body, 0x07, 0x28);
      Le16Bytes(body[7], body[8]);
      Le16Bytes(body[9], body[10]);
      assert body[7..11] == [Lo(speed), Hi(speed), Lo(position), Hi(position)];
  }

  lemma {:induction false} RegisterWritePayload(body: seq<Byte>, innerLength: Byte, register: Byte)
    requires IsRegisterWrite(body, innerLength, register) && innerLength >= 5
    ensures InnerPayload(body) == [innerLength, body[3], 0x32, register, 0x00] + body[7..|body| - 1]
  {
    assert InnerPayload(body) == body[2..4] + body[4..7] + body[7..|body| - 1];
  }

  /** Equal bytes, equal command and arguments. */
  lemma {:induction false} CommandsAreUnambiguous(c: Command, d: Command)
    requires Wire(Frame(c)) == Wire(Frame(d))
    ensures c == d
  {
    CommandsReadBack(c);
    CommandsReadBack(d);
  }

  /** The outer checksum of a motor request counts its inner check byte twice. */
  lemma {:induction false} MotorChecksumLaw(c: Command)
    requires IsMotorCommand(c)
    ensures var p := Frame(c);
            var inner: int := p.body[|p.body| - 1];
            p.checksum == (0xEE + p.length + p.moduleId + p.target + p.command + 0xFF + 2 * inner) % 0x100
  {
    MotorBodySum(c);
    var payload := Sum(MotorPayload(c));
    var p := Frame(c);
    var rest := 0xEE + p.length + p.moduleId + p.target + p.command + 0xFF;
    LowByte(rest + payload + payload % 0x100, payload / 0x100);
  }

  lemma {:induction false} MotorBodySum(c: Command)
    requires IsMotorCommand(c)
    ensures var payload := Sum(MotorPayload(c));
            Sum(CommandBody(c)) == 0xFF + payload + payload % 0x100
    ensures CommandBody(c)[|CommandBody(c)| - 1] == Sum(MotorPayload(c)) % 0x100
  {
    var payload := MotorPayload(c);
    var check: seq<Byte> := [Sum(payload) % 0x100];
    var header: seq<Byte> := [0x55, 0xAA];
    SumConcat(header + payload, check);
    SumConcat(header, payload);
    assert header[..1] == [0x55] && [0x55][..0] == [];
    assert Sum(header) == 0xFF;
    assert Sum(check) == check[0];
  }

  // ---- the requests in numbers ----

  /** A motor request: the outer header, the inner frame around the given payload, whose bytes add up
      to sum, and the outer sum. */
  function MotorRequest(length: Byte, command: Byte, payload: seq<Byte>, sum: nat): seq<Byte> {
    [0xEE, length, 0x01, 0x01, command, 0x55, 0xAA] + payload
    + [sum % 0x100, (0x1EF + length + command + sum + sum % 0x100) % 0x100, 0x7E]
  }

  /** Every request, byte by byte, as the protocol documents it. */
  function RequestBytes(c: Command): seq<Byte> {
    match c
    case ReadMotorId(id) => MotorRequest(0x0B, 0x10, [0x04, id, 0x31, 0x16, 0x00, 0x01], 0x4C + id)
    case ReadMotorStatus(id) => MotorRequest(0x0A, 0x20, [0x03, id, 0x30, 0x00, 0x00], 0x33 + id)
    case SetMode(id, mode) =>
      MotorRequest(0x0C, 0x30, [0x05, id, 0x32, 0x25, 0x00, mode, 0x00], 0x5C + id + mode)
    case SetPosition(id, v) =>
      MotorRequest(0x0C, 0x31, [0x05, id, 0x32, 0x29, 0x00, v % 0x100, v / 0x100], 0x60 + id + v % 0x100 + v / 0x100)
    case SetForce(id, v) =>
      MotorRequest(0x0C, 0x33, [0x05, id, 0x32, 0x27, 0x00, v % 0x100, v / 0x100], 0x5E + id + v % 0x100 + v / 0x100)
    case SetSpeed(id, v, w) =>
      MotorRequest(0x0E, 0x32, [0x07, id, 0x32, 0x28, 0x00, v % 0x100, v / 0x100, w % 0x100, w / 0x100],
                   0x61 + id + v % 0x100 + v / 0x100 + w % 0x100 + w / 0x100)
    case ReadEncoders => [0xEE, 0x04, 0x01, 0x02, 0x00, 0xFF, 0xFF, 0xF3, 0x7E]
    case ReadImu => [0xEE, 0x02, 0x01, 0x03, 0x00, 0xF4, 0x7E]
  }

  lemma {:induction false} SumOne(a: Byte)
    ensures Sum([a]) == a
  {
    assert [a][..0] == [];
  }

  lemma {:induction false} SumTwo(a: Byte, b: Byte)
    ensures Sum([a, b]) == a + b
  {
    SumOne(a);
    assert [a, b][..1] == [a];
  }

  lemma {:induction false} SumFive(a: Byte, b: Byte, c: Byte, d: Byte, e: Byte)
    ensures Sum([a, b, c, d, e]) == a + b + c + d + e
  {
    SumTwo(a, b);
    SumTwo(c, d);
    SumConcat([a, b], [c, d]);
    assert [a, b, c, d, e][..4] == [a, b] + [c, d];
  }

  lemma {:induction false} MotorPayloadSum(c: Command)
    requires IsMotorCommand(c)
    ensures var sum := match c
              case ReadMotorId(id) => 0x4C + id
              case ReadMotorStatus(id) => 0x33 + id
              case SetMode(id, mode) => 0x5C + id + mode
              case SetPosition(id, v) => 0x60 + id + v % 0x100 + v / 0x100
              case SetForce(id, v) => 0x5E + id + v % 0x100 + v / 0x100
              case SetSpeed(id, v, w) => 0x61 + id + v % 0x100 + v / 0x100 + w % 0x100 + w / 0x100;
            Sum(MotorPayload(c)) == sum
  {
    var p := MotorPayload(c);
    SumFive(p[0], p[1], p[2], p[3], p[4]);
    assert p == [p[0], p[1], p[2], p[3], p[4]] + p[5..];
    SumConcat([p[0], p[1], p[2], p[3], p[4]], p[5..]);
    match c
    case ReadMotorId(_) =>
      SumOne(p[5]);
      assert p[5..] == [p[5]];
    case ReadMotorStatus(_) =>
      assert p[5..] == [];
    case SetSpeed(_, _, _) =>
      SumTwo(p[5], p[6]);
      SumTwo(p[7], p[8]);
      SumConcat([p[5], p[6]], [p[7], p[8]]);
      assert p[5..] == [p[5], p[6]] + [p[7], p[8]];
    case SetMode(_, _) => LastTwo(p);
    case SetPosition(_, _) => LastTwo(p);
    case SetForce(_, _) => LastTwo(p);
  }

  lemma {:induction false} LastTwo(p: seq<Byte>)
    requires |p| == 7
    ensures Sum(p[5..]) == p[5] as int + p[6]
  {
    SumTwo(p[5], p[6]);
    assert p[5..] == [p[5], p[6]];
  }

  /** Every encoder writes exactly the documented bytes, for all arguments. */
  lemma {:induction false} RequestsInNumbers(c: Command)
    ensures Wire(Frame(c)) == RequestBytes(c)
  {
    if IsMotorCommand(c) {
      MotorRequestInNumbers(c);
    } else {
      SumTwo(0xFF, 0xFF);
    }
  }

  lemma {:induction false} MotorRequestInNumbers(c: Command)
    requires IsMotorCommand(c)
    ensures Wire(Frame(c)) == RequestBytes(c)
  {
    MotorPayloadSum(c);
    MotorBodySum(c);
    RequestForm(c, Sum(MotorPayload(c)));
  }

  lemma {:induction false} RequestForm(c: Command, sum: nat)
    requires IsMotorCommand(c) && sum == Sum(MotorPayload(c))
    requires Sum(CommandBody(c)) == 0xFF + sum + sum % 0x100
    ensures Wire(Frame(c)) == MotorRequest(|MotorPayload(c)| + 5, CodeOf(c), MotorPayload(c), sum)
  {
    assert |CommandBody(c)| == |MotorPayload(c)| + 3;
  }
}
