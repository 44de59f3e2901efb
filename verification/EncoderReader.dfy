/** The encoder reader: a cache of raw words, and a zero point applied only when angles are read. */
module Encoders {
  import opened Bytes
  import opened Commands
  import opened Replies
  import opened Client
  import opened Binary32

  const CHANNELS: nat := NUM_ENCODER_CHANNELS

  type AdcWords = s: seq<Word> | |s| == 16 witness [0, 0, 0, 0, 0, 0, 0, 0, 0, 0, 0, 0, 0, 0, 0, 0]
  type Floats = s: seq<real> | |s| == 16
    witness [0.0, 0.0, 0.0, 0.0, 0.0, 0.0, 0.0, 0.0, 0.0, 0.0, 0.0, 0.0, 0.0, 0.0, 0.0, 0.0]

  datatype Calibration = Calibration(zeroVoltages: Floats, scaleFactors: Floats, isCalibrated: bool)

  const ZEROS: Floats := [0.0, 0.0, 0.0, 0.0, 0.0, 0.0, 0.0, 0.0, 0.0, 0.0, 0.0, 0.0, 0.0, 0.0, 0.0, 0.0]
  const ONES: Floats := [1.0, 1.0, 1.0, 1.0, 1.0, 1.0, 1.0, 1.0, 1.0, 1.0, 1.0, 1.0, 1.0, 1.0, 1.0, 1.0]
  const UNCALIBRATED := Calibration(ZEROS, ONES, false)
  const NO_READING: AdcWords := [0, 0, 0, 0, 0, 0, 0, 0, 0, 0, 0, 0, 0, 0, 0, 0]

  function ChannelAngle(rnd: Rounding, c: Calibration, adc: Word, i: nat): real
    requires i < CHANNELS
  {
    Angle(rnd, CalibratedVoltage(rnd, c, Voltage(rnd, adc), i))
  }

  function CalibratedVoltage(rnd: Rounding, c: Calibration, voltage: real, i: nat): real
    requires i < CHANNELS
  {
    if c.isCalibrated then Shifted(rnd, voltage, c.zeroVoltages[i], c.scaleFactors[i]) else voltage
  }

  function Voltages(rnd: Rounding, adc: AdcWords): Floats {
    seq(16, (i: nat) requires i < 16 => Voltage(rnd, adc[i]))
  }

  function CalibratedVoltages(rnd: Rounding, c: Calibration, voltages: Floats): Floats {
    seq(16, (i: nat) requires i < 16 => CalibratedVoltage(rnd, c, voltages[i], i))
  }

  function Angles(rnd: Rounding, c: Calibration, voltages: Floats): Floats {
    seq(16, (i: nat) requires i < 16 => Angle(rnd, CalibratedVoltage(rnd, c, voltages[i], i)))
  }

  /** The calibration that takes a reading as zero, with unit scale. */
  function ZeroAt(rnd: Rounding, adc: AdcWords): Calibration {
    Calibration(Voltages(rnd, adc), ONES, true)
  }

  /** What one encoder request yields. */
  function ReadingFrom(l: Link, n: Net): (r: Option<AdcWords>) {
    var reply := Reply(l, n);
    if reply.None? then None else ParsedEncoderData(reply.value)
  }

  method AdcToVoltages(rnd: Rounding, adcValues: AdcWords) returns (voltages: Floats)
    ensures voltages == Voltages(rnd, adcValues)
  {
    var v := new real[16];
    for i := 0 to CHANNELS
      invariant v[..i] == Voltages(rnd, adcValues)[..i]
    {
      v[i] := rnd(rnd(rnd(adcValues[i] as real) * 4.0) / 65536.0);
    }
    assert v[..] == Voltages(rnd, adcValues);
    return v[..];
  }

  class EncoderReader {
    const client: UdpClient
    var cachedData: AdcWords
    var calibration: Calibration

    constructor (client: UdpClient)
      ensures this.client == client && cachedData == NO_READING && calibration == UNCALIBRATED
      ensures !calibration.isCalibrated && forall i :: 0 <= i < 16 ==> cachedData[i] == 0
    {
      this.client := client;
      cachedData := NO_READING;
      calibration := UNCALIBRATED;
    }

    method ReadEncoders(n: Net) returns (r: Option<AdcWords>)
      requires client.Valid()
      modifies client`stats, client`handed
      ensures client.Valid()
      ensures client.State() == AfterExchange(old(client.State()), Frame(Command.ReadEncoders), n)
      ensures r == ReadingFrom(old(client.State()), n)
    {
      var packet := EncodeReadAllEncoders();
      var response := client.SendAndReceive(packet, n);
      if response.None? {
        return None;
      }
      r := ParseEncoderData(response.value);
    }

    method Initialize(n: Net) returns (ok: bool)
      requires client.Valid()
      modifies client`stats, client`handed, this`cachedData
      ensures client.Valid()
      ensures client.State() == AfterExchange(old(client.State()), Frame(Command.ReadEncoders), n)
      ensures ok == ReadingFrom(old(client.State()), n).Some?
      ensures cachedData == AfterUpdate(old(cachedData), ReadingFrom(old(client.State()), n))
    {
      var data := ReadEncoders(n);
      if data.Some? {
        cachedData := data.value;
      }
      return data.Some?;
    }

    method UpdateOnce(n: Net) returns (ok: bool)
      requires client.Valid()
      modifies client`stats, client`handed, this`cachedData
      ensures client.Valid()
      ensures client.State() == AfterExchange(old(client.State()), Frame(Command.ReadEncoders), n)
      ensures ok == ReadingFrom(old(client.State()), n).Some?
      ensures cachedData == AfterUpdate(old(cachedData), ReadingFrom(old(client.State()), n))
    {
      var data := ReadEncoders(n);
      if data.Some? {
        cachedData := data.value;
        return true;
      }
      return false;
    }

    method CalibrateZeroPoint(rnd: Rounding, n: Net) returns (ok: bool)
      requires client.Valid()
      modifies client`stats, client`handed, this`cachedData, this`calibration
      ensures client.Valid()
      ensures client.State() == AfterExchange(old(client.State()), Frame(Command.ReadEncoders), n)
      ensures ok == ReadingFrom(old(client.State()), n).Some?
      ensures (cachedData, calibration)
              == AfterEvent(rnd, (old(cachedData), old(calibration)), Calibrate(ReadingFrom(old(client.State()), n)))
    {
      var data := ReadEncoders(n);
      if data.None? {
        return false;
      }
      var voltages := AdcToVoltages(rnd, data.value);
      calibration := Calibration(voltages, ONES, true);
      cachedData := data.value;
      return true;
    }

    method SetCalibration(c: Calibration)
      modifies this`calibration
      ensures calibration == c
    {
      calibration := c;
    }

    method ApplyCalibration(rnd: Rounding, rawVoltages: Floats) returns (calibrated: Floats)
      ensures calibrated == CalibratedVoltages(rnd, calibration, rawVoltages)
    {
      ghost var goal := CalibratedVoltages(rnd, calibration, rawVoltages);
      if !calibration.isCalibrated {
        assert rawVoltages == goal;
        return rawVoltages;
      }
      var c := new real[16];
      for i := 0 to CHANNELS
        invariant c[..i] == goal[..i]
      {
        var shifted := rnd(rawVoltages[i] - calibration.zeroVoltages[i]);
        c[i] := rnd(Times(shifted, calibration.scaleFactors[i]));
        assert c[i] == goal[i];
      }
      assert c[..] == goal;
      return c[..];
    }

    method VoltagesToAngles(rnd: Rounding, voltages: Floats) returns (angles: Floats)
      ensures angles == Angles(rnd, calibration, voltages)
    {
      ghost var goal := Angles(rnd, calibration, voltages);
      var calibratedVoltages := ApplyCalibration(rnd, voltages);
      var a := new real[16];
      for i := 0 to CHANNELS
        invariant a[..i] == goal[..i]
      {
        a[i] := rnd(rnd(calibratedVoltages[i] / 4.0) * 360.0);
        assert a[i] == goal[i];
      }
      assert a[..] == goal;
      return a[..];
    }

    method GetCachedAngles(rnd: Rounding) returns (angles: Floats)
      ensures forall i :: 0 <= i < CHANNELS ==> angles[i] == ChannelAngle(rnd, calibration, cachedData[i], i)
    {
      var voltages := AdcToVoltages(rnd, cachedData);
      angles := VoltagesToAngles(rnd, voltages);
    }
  }

  // ---- the reader over whole runs ----

  /** A reading is None when the exchange or the parse failed. */
  datatype Event = Update(reading: Option<AdcWords>) | Calibrate(reading: Option<AdcWords>)

  type Reader = (AdcWords, Calibration)

  function AfterUpdate(cached: AdcWords, reading: Option<AdcWords>): AdcWords {
    if reading.Some? then reading.value else cached
  }

  function AfterEvent(rnd: Rounding, r: Reader, e: Event): Reader {
    if e.Update? then (AfterUpdate(r.0, e.reading), r.1)
    else if e.reading.None? then r
    else (e.reading.value, ZeroAt(rnd, e.reading.value))
  }

  function AfterEvents(rnd: Rounding, events: seq<Event>): Reader {
    if events == [] then (NO_READING, UNCALIBRATED)
    else AfterEvent(rnd, AfterEvents(rnd, events[..|events| - 1]), events[|events| - 1])
  }

  /** k is the last event satisfying the two flags: successful, and a calibration if asked for. */
  predicate IsLast(events: seq<Event>, k: nat, calibration: bool) {
    && k < |events| && Good(events[k], calibration)
    && forall j :: k < j < |events| ==> !Good(events[j], calibration)
  }

  predicate Good(e: Event, calibration: bool) {
    e.reading.Some? && (calibration ==> e.Calibrate?)
  }

  /** After any run the cached words are the last good reading, of either kind of event. */
  lemma {:induction false} CacheIsTheLastReading(rnd: Rounding, events: seq<Event>, k: nat)
    requires IsLast(events, k, false)
    ensures AfterEvents(rnd, events).0 == events[k].reading.value
  {
    var front := events[..|events| - 1];
    if k < |front| {
      assert IsLast(front, k, false) && !Good(events[|front|], false);
      CacheIsTheLastReading(rnd, front, k);
    }
  }

  /** And the calibration is that of the last good calibration's reading. */
  lemma {:induction false} CalibrationIsTheLastZero(rnd: Rounding, events: seq<Event>, k: nat)
    requires IsLast(events, k, true)
    ensures AfterEvents(rnd, events).1 == ZeroAt(rnd, events[k].reading.value)
  {
    var front := events[..|events| - 1];
    if k < |front| {
      assert IsLast(front, k, true) && !Good(events[|front|], true);
      CalibrationIsTheLastZero(rnd, front, k);
    }
  }

  lemma {:induction false} UncalibratedUntilTheFirstZero(rnd: Rounding, events: seq<Event>)
    requires forall k :: 0 <= k < |events| ==> !Good(events[k], true)
    ensures AfterEvents(rnd, events).1 == UNCALIBRATED
  {
    if events != [] {
      assert !Good(events[|events| - 1], true);
      UncalibratedUntilTheFirstZero(rnd, events[..|events| - 1]);
    }
  }

  /** The angle of a channel after any run that calibrated: 360*(last reading - last zero)/65536. */
  lemma {:induction false} AnglesAfterCalibration(rnd: Rounding, events: seq<Event>, last: nat, zero: nat, i: nat)
    requires IsRounding(rnd) && IsLast(events, last, false) && IsLast(events, zero, true) && i < CHANNELS
    ensures var r := AfterEvents(rnd, events);
            var angle := ChannelAngle(rnd, r.1, r.0[i], i);
            && angle == 360.0 * Steps(events[last].reading.value[i], events[zero].reading.value[i]) as real / 65536.0
            && -360.0 < angle < 360.0
            && (last == zero ==> angle == 0.0)
  {
    CacheIsTheLastReading(rnd, events, last);
    CalibrationIsTheLastZero(rnd, events, zero);
    AnglesAreExact(rnd, events[last].reading.value[i], events[zero].reading.value[i]);
  }

  /** And before any calibration: 360*(last reading)/65536, in [0, 360). */
  lemma {:induction false} AnglesBeforeCalibration(rnd: Rounding, events: seq<Event>, i: nat)
    requires IsRounding(rnd) && i < CHANNELS
    requires forall k :: 0 <= k < |events| ==> !Good(events[k], true)
    ensures var r := AfterEvents(rnd, events);
            var angle := ChannelAngle(rnd, r.1, r.0[i], i);
            angle == 360.0 * r.0[i] as real / 65536.0 && 0.0 <= angle < 360.0
  {
    UncalibratedUntilTheFirstZero(rnd, events);
    AnglesAreExact(rnd, AfterEvents(rnd, events).0[i], 0);
  }

  /** Under a calibration set by hand, with the zero of some reading and scales that are binary
      fractions: 360*(adc - zero)*scale/65536, as long as the products fit. */
  lemma {:induction false} AnglesUnderScale(
      rnd: Rounding, adc: AdcWords, zero: AdcWords, scales: Floats, i: nat, m: int, k: nat)
    requires IsRounding(rnd) && i < CHANNELS && IsScaled(scales[i], m, k) && k <= 133
    requires -0x100_0000 < 45 * (Steps(adc[i], zero[i]) * m) < 0x100_0000
    ensures ChannelAngle(rnd, Calibration(Voltages(rnd, zero), scales, true), adc[i], i)
            == (adc[i] as real / 16384.0 - zero[i] as real / 16384.0) * scales[i] * 90.0
  {
    ScaledAnglesAreExact(rnd, adc[i], zero[i], scales[i], m, k);
  }

  lemma {:induction false} LastOfConcat(a: seq<Event>, b: seq<Event>, k: nat, calibration: bool)
    requires IsLast(b, k, calibration)
    ensures IsLast(a + b, |a| + k, calibration)
  {
  }

  lemma {:induction false} LastSurvivesBadSuffix(a: seq<Event>, b: seq<Event>, k: nat, calibration: bool)
    requires IsLast(a, k, calibration) && forall j :: 0 <= j < |b| ==> !Good(b[j], calibration)
    ensures IsLast(a + b, k, calibration)
  {
  }

  /** Recalibrating from reading w translates every later angle of a channel by one constant: the
      difference of the two zeros, whatever the later readings are. */
  lemma {:induction false} RecalibrationTranslates(
      rnd: Rounding, events: seq<Event>, zero: nat, w: AdcWords, later: seq<Event>, last: nat, i: nat)
    requires IsRounding(rnd) && i < CHANNELS && IsLast(events, zero, true)
    requires IsLast(later, last, false) && forall j :: 0 <= j < |later| ==> later[j].Update?
    ensures var plain := AfterEvents(rnd, events + later);
            var again := AfterEvents(rnd, events + [Calibrate(Some(w))] + later);
            ChannelAngle(rnd, again.1, again.0[i], i)
            == ChannelAngle(rnd, plain.1, plain.0[i], i)
               + 360.0 * Steps(events[zero].reading.value[i], w[i]) as real / 65536.0
  {
    LastOfConcat(events, later, last, false);
    LastSurvivesBadSuffix(events, later, zero, true);
    AnglesAfterCalibration(rnd, events + later, |events| + last, zero, i);
    var recal := events + [Calibrate(Some(w))];
    LastOfConcat(recal, later, last, false);
    assert IsLast(recal, |events|, true);
    LastSurvivesBadSuffix(recal, later, |events|, true);
    AnglesAfterCalibration(rnd, recal + later, |recal| + last, |events|, i);
  }
}
