/** The IMU reader: calibration is applied when a reading is stored, and yaw is wrapped with a
    truncating remainder. Angles are real numbers here; binary32 rounding is not part of this model. */
module Imu {
  import opened Bytes
  import Packets
  import opened Commands
  import opened Replies
  import opened Client

  datatype Orientation = Orientation(roll: real, pitch: real, yaw: real)

  datatype ImuCalibration = ImuCalibration(offset: Orientation, isCalibrated: bool)

  const LEVEL := Orientation(0.0, 0.0, 0.0)
  const UNCALIBRATED := ImuCalibration(LEVEL, false)

  /** How a 32-bit pattern reads as a number (section 3.4 of IEEE 754-2019), left open. */
  type Decoding = Word32 -> real

  function Decoded(d: Decoding, w: ImuWords): Orientation {
    Orientation(d(w.roll), d(w.pitch), d(w.yaw))
  }

  /** Division rounded toward zero, and the remainder that goes with it (section 7.12.10.1 of ISO/IEC 9899:2018). */
  function Truncated(x: real): int {
    if x >= 0.0 then x.Floor else -((-x).Floor)
  }

  function Fmod(x: real, y: real): real
    requires y != 0.0
  {
    x - y * Truncated(x / y) as real
  }

  function WrappedYaw(raw: real, offset: real): real {
    Fmod(raw - offset + 360.0, 360.0)
  }

  function Applied(c: ImuCalibration, raw: Orientation): Orientation {
    if !c.isCalibrated then raw
    else Orientation(raw.roll - c.offset.roll, raw.pitch - c.offset.pitch, WrappedYaw(raw.yaw, c.offset.yaw))
  }

  /** The calibration that takes an orientation as zero. */
  function LevelAt(raw: Orientation): ImuCalibration {
    ImuCalibration(raw, true)
  }

  function Turns(k: int): real {
    360.0 * k as real
  }

  ghost predicate CongruentMod360(x: real, y: real) {
    exists k: int :: x == y + Turns(k)
  }

  /** The remainder by 360 keeps the class modulo 360, the sign of its argument, and stays below 360. */
  lemma {:induction false} Fmod360(x: real)
    ensures CongruentMod360(Fmod(x, 360.0), x)
    ensures x >= 0.0 ==> 0.0 <= Fmod(x, 360.0) < 360.0
    ensures x <= 0.0 ==> -360.0 < Fmod(x, 360.0) <= 0.0
  {
    var k := Truncated(x / 360.0);
    assert Fmod(x, 360.0) == x + Turns(-k);
  }

  /** Wrapped yaw is always the raw difference modulo 360. It lies in [0, 360) exactly when the raw
      yaw is at most 360 degrees below the offset or a whole number of turns from it; further
      below it lies in (-360, 0]. */
  lemma {:induction false} YawWrapLaw(raw: real, offset: real)
    ensures var yaw := WrappedYaw(raw, offset);
            && CongruentMod360(yaw, raw - offset)
            && (0.0 <= yaw < 360.0 <==> raw - offset >= -360.0 || CongruentMod360(raw, offset))
            && (raw - offset < -360.0 ==> -360.0 < yaw <= 0.0)
            && (raw == offset ==> yaw == 0.0)
  {
    var x := raw - offset + 360.0;
    var yaw := WrappedYaw(raw, offset);
    Fmod360(x);
    var k: int :| yaw == x + Turns(k);
    assert yaw == (raw - offset) + Turns(k + 1);
    if CongruentMod360(raw, offset) {
      var j: int :| raw == offset + Turns(j);
      assert yaw == Turns(j + k + 1);
    }
    if yaw == 0.0 {
      assert raw == offset + Turns(-(k + 1));
    }
  }

  /** Below the offset by more than one turn and less than two the result is negative. */
  lemma {:induction false} YawMayBeNegative(raw: real, offset: real)
    requires -720.0 < raw - offset < -360.0
    ensures WrappedYaw(raw, offset) == raw - offset + 360.0 < 0.0
    ensures WrappedYaw(-181.0, 180.0) == -1.0
  {
    var x := raw - offset + 360.0;
    assert (-(x / 360.0)).Floor == 0;
    assert (1.0 / 360.0).Floor == 0;
  }

  /** What calibrating a reading means: without a calibration nothing; with one, roll and pitch lose
      their offsets, and yaw its own up to whole turns, in the range the wrap gives it. */
  ghost predicate IsCalibrated(c: ImuCalibration, raw: Orientation, o: Orientation) {
    if !c.isCalibrated then o == raw
    else
      && o.roll + c.offset.roll == raw.roll
      && o.pitch + c.offset.pitch == raw.pitch
      && CongruentMod360(o.yaw, raw.yaw - c.offset.yaw)
      && (raw.yaw - c.offset.yaw >= -360.0 ==> 0.0 <= o.yaw < 360.0)
      && (raw.yaw - c.offset.yaw < -360.0 ==> -360.0 < o.yaw <= 0.0)
  }

  lemma {:induction false} AppliedIsCalibrated(c: ImuCalibration, raw: Orientation)
    ensures IsCalibrated(c, raw, Applied(c, raw))
  {
    YawWrapLaw(raw.yaw, c.offset.yaw);
  }

  /** And it means one orientation only. */
  lemma {:induction false} CalibratedIsUnique(c: ImuCalibration, raw: Orientation, o: Orientation, p: Orientation)
    requires IsCalibrated(c, raw, o) && IsCalibrated(c, raw, p)
    ensures o == p
  {
    if c.isCalibrated {
      var x := raw.yaw - c.offset.yaw;
      var j: int :| o.yaw == x + Turns(j);
      var k: int :| p.yaw == x + Turns(k);
      assert o.yaw - p.yaw == Turns(j - k);
    }
  }

  function ReadingFrom(d: Decoding, l: Link, n: Net): Option<Orientation> {
    var reply := Reply(l, n);
    if reply.None? then None
    else
      var words := ParseImuData(reply.value);
      if words.None? then None else Some(Decoded(d, words.value))
  }

  /** A reply of the firmware that gets through is read as the three angles it carries. */
  lemma {:induction false} RepliesAreRead(d: Decoding, l: Link, w: ImuWords, command: Byte, checksum: Byte)
    requires l.connected
    ensures ReadingFrom(d, l, Net(Whole, Arrived(Packets.Wire(ImuReply(w, command, checksum)))))
            == if ImuDropped(w) then None else Some(Orientation(d(w.roll), d(w.pitch), d(w.yaw)))
  {
    ImuReplyLaw(w, command, checksum);
  }

  function AfterUpdate(c: ImuCalibration, cached: Orientation, reading: Option<Orientation>): Orientation {
    if reading.None? then cached else Applied(c, reading.value)
  }

  class ImuReader {
    const client: UdpClient
    var cachedData: Orientation
    var calibration: ImuCalibration

    constructor (client: UdpClient)
      ensures this.client == client && cachedData == LEVEL && calibration == UNCALIBRATED
      ensures cachedData == Orientation(0.0, 0.0, 0.0) && !calibration.isCalibrated
    {
      this.client := client;
      cachedData := LEVEL;
      calibration := UNCALIBRATED;
    }

    method ReadImu(d: Decoding, n: Net) returns (r: Option<Orientation>)
      requires client.Valid()
      modifies client`stats, client`handed
      ensures client.Valid()
      ensures client.State() == AfterExchange(old(client.State()), Frame(Command.ReadImu), n)
      ensures r == ReadingFrom(d, old(client.State()), n)
    {
      var packet := EncodeReadImu();
      var response := client.SendAndReceive(packet, n);
      if response.None? {
        return None;
      }
      var words := ParseImuData(response.value);
      if words.None? {
        return None;
      }
      return Some(Decoded(d, words.value));
    }

    method Initialize(d: Decoding, n: Net) returns (ok: bool)
      requires client.Valid()
      modifies client`stats, client`handed, this`cachedData
      ensures client.Valid()
      ensures client.State() == AfterExchange(old(client.State()), Frame(Command.ReadImu), n)
      ensures ok == ReadingFrom(d, old(client.State()), n).Some?
      ensures cachedData == AfterUpdate(calibration, old(cachedData), ReadingFrom(d, old(client.State()), n))
      ensures if ok then IsCalibrated(calibration, ReadingFrom(d, old(client.State()), n).value, cachedData)
              else cachedData == old(cachedData)
    {
      var data := ReadImu(d, n);
      if data.Some? {
        AppliedIsCalibrated(calibration, data.value);
        cachedData := Applied(calibration, data.value);
      }
      return data.Some?;
    }

    method UpdateOnce(d: Decoding, n: Net) returns (ok: bool)
      requires client.Valid()
      modifies client`stats, client`handed, this`cachedData
      ensures client.Valid()
      ensures client.State() == AfterExchange(old(client.State()), Frame(Command.ReadImu), n)
      ensures ok == ReadingFrom(d, old(client.State()), n).Some?
      ensures cachedData == AfterUpdate(calibration, old(cachedData), ReadingFrom(d, old(client.State()), n))
      ensures if ok then IsCalibrated(calibration, ReadingFrom(d, old(client.State()), n).value, cachedData)
              else cachedData == old(cachedData)
    {
      var data := ReadImu(d, n);
      if data.Some? {
        AppliedIsCalibrated(calibration, data.value);
        var calibrated := Applied(calibration, data.value);
        cachedData := calibrated;
        return true;
      }
      return false;
    }

    /** After a success the cached orientation is level: zero in all three axes. */
    method CalibrateZeroOrientation(d: Decoding, n: Net) returns (ok: bool)
      requires client.Valid()
      modifies client`stats, client`handed, this`cachedData, this`calibration
      ensures client.Valid()
      ensures client.State() == AfterExchange(old(client.State()), Frame(Command.ReadImu), n)
      ensures ok == ReadingFrom(d, old(client.State()), n).Some?
      ensures ok ==> calibration == ImuCalibration(ReadingFrom(d, old(client.State()), n).value, true)
                     && cachedData == Orientation(0.0, 0.0, 0.0)
      ensures !ok ==> calibration == old(calibration) && cachedData == old(cachedData)
    {
      var data := ReadImu(d, n);
      if data.None? {
        return false;
      }
      calibration := ImuCalibration(data.value, true);
      cachedData := Applied(calibration, data.value);
      YawWrapLaw(data.value.yaw, data.value.yaw);
      return true;
    }

    method SetCalibration(c: ImuCalibration)
      modifies this`calibration
      ensures calibration == c
    {
      calibration := c;
    }
  }
}
