/** The encoder cache under interleaving: a reader of angles copies the cached words under one lock
    and applies the zero point under another, a calibration changes both under both locks, and any
    number of threads do either. Calibrations set by hand are not part of this module. */
module EncoderCache {
  import opened Bytes
  import opened Binary32
  import opened Encoders

  /** copiedAt is history: how many zero points had been installed when the words were copied. */
  datatype Pc =
    | Idle
    | Reading
    | Read(raw: AdcWords)
    | ZeroReading
    | ZeroRead(raw: AdcWords)
    | Copied(raw: AdcWords, copiedAt: nat)

  /** Angles a reader was given, the words they came from, and how many zero points had been
      installed when the words were copied and when the zero point was applied. */
  datatype Sample = Sample(raw: AdcWords, angles: Floats, copiedAt: nat, appliedAt: nat)

  /** readings, zeros and returned are history: what was received, which readings became zero
      points, and what readers got. */
  datatype State = State(
    threads: seq<Pc>, cached: AdcWords, calibration: Calibration,
    readings: seq<AdcWords>, zeros: seq<AdcWords>, returned: seq<Sample>)

  datatype Step =
    | BeginUpdate(t: nat)
    | BeginZero(t: nat)
    | Receive(t: nat, reading: Option<AdcWords>)
    | StoreCache(t: nat)
    | InstallZero(t: nat)
    | CopyCache(t: nat)
    | ApplyZero(t: nat)

  predicate Enabled(s: State, a: Step) {
    match a
    case BeginUpdate(t) => t < |s.threads| && s.threads[t].Idle?
    case BeginZero(t) => t < |s.threads| && s.threads[t].Idle?
    case Receive(t, _) => t < |s.threads| && (s.threads[t].Reading? || s.threads[t].ZeroReading?)
    case StoreCache(t) => t < |s.threads| && s.threads[t].Read?
    case InstallZero(t) => t < |s.threads| && s.threads[t].ZeroRead?
    case CopyCache(t) => t < |s.threads| && s.threads[t].Idle?
    case ApplyZero(t) => t < |s.threads| && s.threads[t].Copied?
  }

  function At(s: State, t: nat, pc: Pc): State
    requires t < |s.threads|
  {
    s.(threads := s.threads[t := pc])
  }

  function Received(s: State, t: nat, reading: Option<AdcWords>): State
    requires t < |s.threads| && (s.threads[t].Reading? || s.threads[t].ZeroReading?)
  {
    if reading.None? then At(s, t, Idle)
    else
      At(s, t, if s.threads[t].Reading? then Read(reading.value) else ZeroRead(reading.value))
      .(readings := s.readings + [reading.value])
  }

  function Stepped(rnd: Rounding, s: State, a: Step): State
    requires Enabled(s, a)
  {
    match a
    case BeginUpdate(t) => At(s, t, Reading)
    case BeginZero(t) => At(s, t, ZeroReading)
    case Receive(t, reading) => Received(s, t, reading)
    case StoreCache(t) => At(s, t, Idle).(cached := s.threads[t].raw)
    case InstallZero(t) =>
      var raw := s.threads[t].raw;
      At(s, t, Idle).(calibration := ZeroAt(rnd, raw), cached := raw, zeros := s.zeros + [raw])
    case CopyCache(t) => At(s, t, Copied(s.cached, |s.zeros|))
    case ApplyZero(t) =>
      var pc := s.threads[t];
      At(s, t, Idle)
      .(returned := s.returned
                    + [Sample(pc.raw, Angles(rnd, s.calibration, Voltages(rnd, pc.raw)), pc.copiedAt, |s.zeros|)])
  }

  predicate Init(s: State) {
    && (forall t :: 0 <= t < |s.threads| ==> s.threads[t] == Idle)
    && s == State(s.threads, NO_READING, UNCALIBRATED, [], [], [])
  }

  predicate Feasible(rnd: Rounding, s: State, run: seq<Step>)
    decreases |run|, 0
  {
    run == []
    || (Feasible(rnd, s, run[..|run| - 1]) && Enabled(After(rnd, s, run[..|run| - 1]), run[|run| - 1]))
  }

  function After(rnd: Rounding, s: State, run: seq<Step>): State
    requires Feasible(rnd, s, run)
    decreases |run|, 1
  {
    if run == [] then s else Stepped(rnd, After(rnd, s, run[..|run| - 1]), run[|run| - 1])
  }

  /** The calibration in force after k zero points. */
  function ZeroPoint(rnd: Rounding, zeros: seq<AdcWords>, k: nat): Calibration
    requires k <= |zeros|
  {
    if k == 0 then UNCALIBRATED else ZeroAt(rnd, zeros[k - 1])
  }

  predicate Known(s: State, raw: AdcWords) {
    raw in s.readings || raw == NO_READING
  }

  predicate ThreadOk(s: State, pc: Pc) {
    match pc
    case Read(raw) => raw in s.readings
    case ZeroRead(raw) => raw in s.readings
    case Copied(raw, copiedAt) => Known(s, raw) && copiedAt <= |s.zeros|
    case _ => true
  }

  predicate SampleOk(rnd: Rounding, s: State, x: Sample) {
    && Known(s, x.raw) && x.copiedAt <= x.appliedAt <= |s.zeros|
    && x.angles == Angles(rnd, ZeroPoint(rnd, s.zeros, x.appliedAt), Voltages(rnd, x.raw))
  }

  ghost predicate Inv(rnd: Rounding, s: State) {
    && Known(s, s.cached)
    && s.calibration == ZeroPoint(rnd, s.zeros, |s.zeros|)
    && (forall k :: 0 <= k < |s.zeros| ==> s.zeros[k] in s.readings)
    && (forall t :: 0 <= t < |s.threads| ==> ThreadOk(s, s.threads[t]))
    && (forall j :: 0 <= j < |s.returned| ==> SampleOk(rnd, s, s.returned[j]))
  }

  lemma {:induction false} StepKeepsInv(rnd: Rounding, s: State, a: Step)
    requires Inv(rnd, s) && Enabled(s, a)
    ensures Inv(rnd, Stepped(rnd, s, a))
  {
  }

  lemma {:induction false} RunKeepsInv(rnd: Rounding, s: State, run: seq<Step>)
    requires Inv(rnd, s) && Feasible(rnd, s, run)
    ensures Inv(rnd, After(rnd, s, run))
  {
    if run != [] {
      RunKeepsInv(rnd, s, run[..|run| - 1]);
      StepKeepsInv(rnd, After(rnd, s, run[..|run| - 1]), run[|run| - 1]);
    }
  }

  lemma {:induction false} ReturnedSample(rnd: Rounding, s: State, run: seq<Step>, j: nat)
    requires Init(s) && Feasible(rnd, s, run) && j < |After(rnd, s, run).returned|
    ensures var e := After(rnd, s, run);
            && SampleOk(rnd, e, e.returned[j])
            && forall k :: 0 <= k < |e.zeros| ==> e.zeros[k] in e.readings
  {
    assert Inv(rnd, s);
    RunKeepsInv(rnd, s, run);
  }

  lemma {:induction false} SampleAngle(rnd: Rounding, e: State, x: Sample, i: nat)
    requires IsRounding(rnd) && SampleOk(rnd, e, x) && i < CHANNELS
    ensures x.appliedAt == 0 ==> x.angles[i] == 360.0 * x.raw[i] as real / 65536.0 && 0.0 <= x.angles[i] < 360.0
    ensures x.appliedAt > 0 ==>
              var zero := e.zeros[x.appliedAt - 1];
              && -360.0 < x.angles[i] < 360.0
              && x.angles[i] == 360.0 * Steps(x.raw[i], zero[i]) as real / 65536.0
  {
    if x.appliedAt == 0 {
      AnglesAreExact(rnd, x.raw[i], 0);
    } else {
      AnglesAreExact(rnd, x.raw[i], e.zeros[x.appliedAt - 1][i]);
    }
  }

  /** Every angle any reader is ever given, in every interleaving, is that of one received reading
      (or the initial zero words) under one zero point installed before it was given: 360*raw/65536
      in [0, 360) before the first, 360*(raw - zero)/65536 in (-360, 360) after. */
  lemma {:induction false} AnglesAreOfOneReadingAndOneZero(rnd: Rounding, s: State, run: seq<Step>, j: nat, i: nat)
    requires IsRounding(rnd) && Init(s) && Feasible(rnd, s, run)
    requires j < |After(rnd, s, run).returned| && i < CHANNELS
    ensures var e := After(rnd, s, run);
            var x := e.returned[j];
            && Known(e, x.raw) && x.copiedAt <= x.appliedAt <= |e.zeros|
            && (x.appliedAt == 0 ==> x.angles[i] == 360.0 * x.raw[i] as real / 65536.0 && 0.0 <= x.angles[i] < 360.0)
            && (x.appliedAt > 0 ==>
                  var zero := e.zeros[x.appliedAt - 1];
                  && zero in e.readings && -360.0 < x.angles[i] < 360.0
                  && x.angles[i] == 360.0 * Steps(x.raw[i], zero[i]) as real / 65536.0)
  {
    var e := After(rnd, s, run);
    ReturnedSample(rnd, s, run, j);
    SampleAngle(rnd, e, e.returned[j], i);
  }

  /** The words that read zero after k zero points; before the first, the zero words. */
  function ZeroWords(zeros: seq<AdcWords>, k: nat): AdcWords
    requires k <= |zeros|
  {
    if k == 0 then NO_READING else zeros[k - 1]
  }

  /** Off from what zero point k gives by exactly the distance of that zero and zero point m. */
  predicate IsShifted(rnd: Rounding, zeros: seq<AdcWords>, k: nat, m: nat, raw: AdcWords, i: nat, angle: real)
    requires k <= |zeros| && m <= |zeros| && i < CHANNELS
  {
    angle == ChannelAngle(rnd, ZeroPoint(rnd, zeros, k), raw[i], i)
             + 360.0 * Steps(ZeroWords(zeros, k)[i], ZeroWords(zeros, m)[i]) as real / 65536.0
  }

  /** A calibration between the two locks shows, the first one too: the reader then gets the old words
      under the new zero, off from what the zero at the time of the copy gives by exactly the
      distance of the two zeros. */
  lemma {:induction false} ReadIsTornByTheZerosBetween(rnd: Rounding, s: State, run: seq<Step>, j: nat, i: nat)
    requires IsRounding(rnd) && Init(s) && Feasible(rnd, s, run)
    requires j < |After(rnd, s, run).returned| && i < CHANNELS
    ensures var e := After(rnd, s, run);
            var x := e.returned[j];
            && x.copiedAt <= x.appliedAt <= |e.zeros|
            && IsShifted(rnd, e.zeros, x.copiedAt, x.appliedAt, x.raw, i, x.angles[i])
  {
    ReturnedSample(rnd, s, run, j);
    TornSample(rnd, After(rnd, s, run), After(rnd, s, run).returned[j], i);
  }

  lemma {:induction false} TornSample(rnd: Rounding, e: State, x: Sample, i: nat)
    requires IsRounding(rnd) && SampleOk(rnd, e, x) && i < CHANNELS
    ensures IsShifted(rnd, e.zeros, x.copiedAt, x.appliedAt, x.raw, i, x.angles[i])
  {
    SampleAngle(rnd, e, x, i);
    AngleUnderZero(rnd, e.zeros, x.copiedAt, x.raw, i);
  }

  lemma {:induction false} AngleUnderZero(rnd: Rounding, zeros: seq<AdcWords>, k: nat, raw: AdcWords, i: nat)
    requires IsRounding(rnd) && k <= |zeros| && i < CHANNELS
    ensures ChannelAngle(rnd, ZeroPoint(rnd, zeros, k), raw[i], i)
            == 360.0 * Steps(raw[i], ZeroWords(zeros, k)[i]) as real / 65536.0
  {
    AnglesAreExact(rnd, raw[i], ZeroWords(zeros, k)[i]);
  }

  // ---- what a thread does alone ----

  lemma {:induction false} Extend(rnd: Rounding, s: State, run: seq<Step>, a: Step)
    requires Feasible(rnd, s, run) && Enabled(After(rnd, s, run), a)
    ensures Feasible(rnd, s, run + [a]) && After(rnd, s, run + [a]) == Stepped(rnd, After(rnd, s, run), a)
  {
    assert (run + [a])[..|run + [a]| - 1] == run;
  }

  function UpdateSteps(t: nat, reading: AdcWords): seq<Step> {
    [] + [BeginUpdate(t)] + [Receive(t, Some(reading))] + [StoreCache(t)]
  }

  /** An update caches the words it received and nothing else. */
  lemma {:induction false} UndisturbedUpdate(rnd: Rounding, s: State, t: nat, reading: AdcWords)
    requires t < |s.threads| && s.threads[t].Idle?
    ensures Feasible(rnd, s, UpdateSteps(t, reading))
    ensures After(rnd, s, UpdateSteps(t, reading)) == s.(cached := reading, readings := s.readings + [reading])
  {
    var r1 := [] + [BeginUpdate(t)];
    Extend(rnd, s, [], BeginUpdate(t));
    var r2 := r1 + [Receive(t, Some(reading))];
    Extend(rnd, s, r1, Receive(t, Some(reading)));
    Extend(rnd, s, r2, StoreCache(t));
    assert After(rnd, s, UpdateSteps(t, reading)).threads == s.threads;
  }

  function ZeroSteps(t: nat, reading: AdcWords): seq<Step> {
    [] + [BeginZero(t)] + [Receive(t, Some(reading))] + [InstallZero(t)]
  }

  /** A calibration caches its reading and makes it the zero point. */
  lemma {:induction false} UndisturbedZero(rnd: Rounding, s: State, t: nat, reading: AdcWords)
    requires t < |s.threads| && s.threads[t].Idle?
    ensures Feasible(rnd, s, ZeroSteps(t, reading))
    ensures var e := After(rnd, s, ZeroSteps(t, reading));
            && e.cached == reading && e.calibration == ZeroAt(rnd, reading) && e.zeros == s.zeros + [reading]
            && e.threads == s.threads && e.returned == s.returned
  {
    var r1 := [] + [BeginZero(t)];
    Extend(rnd, s, [], BeginZero(t));
    var r2 := r1 + [Receive(t, Some(reading))];
    Extend(rnd, s, r1, Receive(t, Some(reading)));
    Extend(rnd, s, r2, InstallZero(t));
    assert After(rnd, s, ZeroSteps(t, reading)).threads == s.threads;
  }

  function ReadSteps(t: nat): seq<Step> {
    [] + [CopyCache(t)] + [ApplyZero(t)]
  }

  /** A reader gets the angles of the cached words under the calibration in force, as the class does. */
  lemma {:induction false} UndisturbedRead(rnd: Rounding, s: State, t: nat)
    requires t < |s.threads| && s.threads[t].Idle?
    ensures Feasible(rnd, s, ReadSteps(t))
    ensures var e := After(rnd, s, ReadSteps(t));
            && |e.returned| == |s.returned| + 1 && e.returned[|s.returned|].raw == s.cached
            && forall i :: 0 <= i < CHANNELS ==>
                 e.returned[|s.returned|].angles[i] == ChannelAngle(rnd, s.calibration, s.cached[i], i)
  {
    Extend(rnd, s, [], CopyCache(t));
    Extend(rnd, s, [] + [CopyCache(t)], ApplyZero(t));
  }
}
