/** The IMU cache under interleaving: updates apply the calibration under one lock and store under
    another, calibrations take both, and any number of threads do either. The first store, made by
    initialize under both locks, is an update whose apply and store come one after the other. */
module ImuCache {
  import opened Bytes
  import opened Imu

  /** An update remembers, as history, the calibration in force when it began and when it applied. */
  datatype Pc =
    | Idle
    | Reading(begun: nat)
    | Read(raw: Orientation, begun: nat)
    | Holding(raw: Orientation, value: Orientation, applied: nat, begun: nat)
    | ZeroReading
    | ZeroRead(raw: Orientation)

  /** calibrations lists every calibration ever installed; the last is the current one. rawOfCache
      and calibrationOfCache are history: which reading, under which of them, the cache came from. */
  datatype State = State(
    threads: seq<Pc>, cached: Orientation, calibrations: seq<ImuCalibration>,
    readings: seq<Orientation>, rawOfCache: Orientation, calibrationOfCache: nat)

  datatype Step =
    | BeginUpdate(t: nat)
    | BeginZero(t: nat)
    | Receive(t: nat, reading: Option<Orientation>)
    | ApplyCalibration(t: nat)
    | StoreCache(t: nat)
    | InstallZero(t: nat)
    | SetCalibration(c: ImuCalibration)

  predicate Enabled(s: State, a: Step) {
    match a
    case BeginUpdate(t) => t < |s.threads| && s.threads[t].Idle?
    case BeginZero(t) => t < |s.threads| && s.threads[t].Idle?
    case Receive(t, _) => t < |s.threads| && (s.threads[t].Reading? || s.threads[t].ZeroReading?)
    case ApplyCalibration(t) => t < |s.threads| && s.threads[t].Read? && s.calibrations != []
    case StoreCache(t) => t < |s.threads| && s.threads[t].Holding?
    case InstallZero(t) => t < |s.threads| && s.threads[t].ZeroRead?
    case SetCalibration(_) => true
  }

  function At(s: State, t: nat, pc: Pc): State
    requires t < |s.threads|
  {
    s.(threads := s.threads[t := pc])
  }

  /** The index of the calibration in force. */
  function Current(s: State): nat {
    if s.calibrations == [] then 0 else |s.calibrations| - 1
  }

  function Received(s: State, t: nat, reading: Option<Orientation>): State
    requires t < |s.threads| && (s.threads[t].Reading? || s.threads[t].ZeroReading?)
  {
    if reading.None? then At(s, t, Idle)
    else
      var pc := s.threads[t];
      At(s, t, if pc.Reading? then Read(reading.value, pc.begun) else ZeroRead(reading.value))
      .(readings := s.readings + [reading.value])
  }

  function Stepped(s: State, a: Step): State
    requires Enabled(s, a)
  {
    match a
    case BeginUpdate(t) => At(s, t, Reading(Current(s)))
    case BeginZero(t) => At(s, t, ZeroReading)
    case Receive(t, reading) => Received(s, t, reading)
    case ApplyCalibration(t) =>
      var pc := s.threads[t];
      At(s, t, Holding(pc.raw, Applied(s.calibrations[Current(s)], pc.raw), Current(s), pc.begun))
    case StoreCache(t) =>
      var pc := s.threads[t];
      At(s, t, Idle).(cached := pc.value, rawOfCache := pc.raw, calibrationOfCache := pc.applied)
    case InstallZero(t) =>
      var raw := s.threads[t].raw;
      At(s, t, Idle).(calibrations := s.calibrations + [LevelAt(raw)], cached := Applied(LevelAt(raw), raw),
                      rawOfCache := raw, calibrationOfCache := |s.calibrations|)
    case SetCalibration(c) => s.(calibrations := s.calibrations + [c])
  }

  predicate Init(s: State) {
    && (forall t :: 0 <= t < |s.threads| ==> s.threads[t] == Idle)
    && s == State(s.threads, LEVEL, [UNCALIBRATED], [], LEVEL, 0)
  }

  predicate Feasible(s: State, run: seq<Step>)
    decreases |run|, 0
  {
    run == [] || (Feasible(s, run[..|run| - 1]) && Enabled(After(s, run[..|run| - 1]), run[|run| - 1]))
  }

  function After(s: State, run: seq<Step>): State
    requires Feasible(s, run)
    decreases |run|, 1
  {
    if run == [] then s else Stepped(After(s, run[..|run| - 1]), run[|run| - 1])
  }

  ghost predicate ThreadOk(s: State, pc: Pc) {
    match pc
    case Reading(begun) => begun <= Current(s)
    case Read(raw, begun) => begun <= Current(s) && raw in s.readings
    case Holding(raw, value, applied, begun) =>
      begun <= applied < |s.calibrations| && raw in s.readings && value == Applied(s.calibrations[applied], raw)
    case ZeroRead(raw) => raw in s.readings
    case _ => true
  }

  ghost predicate Inv(s: State) {
    && s.calibrations != []
    && s.calibrationOfCache <= Current(s)
    && s.cached == Applied(s.calibrations[s.calibrationOfCache], s.rawOfCache)
    && (s.rawOfCache in s.readings || s.rawOfCache == LEVEL)
    && (forall t :: 0 <= t < |s.threads| ==> ThreadOk(s, s.threads[t]))
  }

  lemma {:induction false} StepKeepsInv(s: State, a: Step)
    requires Inv(s) && Enabled(s, a)
    ensures Inv(Stepped(s, a))
  {
    var s' := Stepped(s, a);
    assert forall k :: 0 <= k < |s.calibrations| ==> s'.calibrations[k] == s.calibrations[k];
    assert forall r :: r in s.readings ==> r in s'.readings;
    forall t | 0 <= t < |s.threads|
      ensures ThreadOk(s', s'.threads[t])
    {
      assert ThreadOk(s, s.threads[t]);
    }
  }

  lemma {:induction false} RunKeepsInv(s: State, run: seq<Step>)
    requires Inv(s) && Feasible(s, run)
    ensures Inv(After(s, run))
  {
    if run != [] {
      RunKeepsInv(s, run[..|run| - 1]);
      StepKeepsInv(After(s, run[..|run| - 1]), run[|run| - 1]);
    }
  }

  predicate CacheComesFrom(e: State, raw: Orientation, k: nat) {
    k < |e.calibrations| && (raw in e.readings || raw == LEVEL) && e.cached == Applied(e.calibrations[k], raw)
  }

  /** In every reachable state the cache is some reading that was received (or the level start
      value) under a calibration installed at or before the current one. */
  lemma {:induction false} CacheIsAReadingUnderAnInstalledCalibration(s: State, run: seq<Step>)
    requires Init(s) && Feasible(s, run)
    ensures var e := After(s, run);
            && CacheComesFrom(e, e.rawOfCache, e.calibrationOfCache)
            && IsCalibrated(e.calibrations[e.calibrationOfCache], e.rawOfCache, e.cached)
  {
    assert Inv(s);
    RunKeepsInv(s, run);
    var e := After(s, run);
    AppliedIsCalibrated(e.calibrations[e.calibrationOfCache], e.rawOfCache);
  }

  /** The store of an update that began after the last calibration change leaves the cache under
      the current calibration; in general, exactly when the update applied it after that change. */
  lemma {:induction false} LateUpdatesAgree(s: State, run: seq<Step>, t: nat)
    requires Init(s) && Feasible(s, run) && Enabled(After(s, run), StoreCache(t))
    ensures var e := After(s, run);
            var e' := Stepped(e, StoreCache(t));
            && (e'.calibrationOfCache == Current(e') <==> e.threads[t].applied == Current(e))
            && (e.threads[t].begun == Current(e) ==>
                  e'.calibrationOfCache == Current(e') < |e'.calibrations|
                  && e'.cached == Applied(e'.calibrations[Current(e')], e'.rawOfCache))
  {
    assert Inv(s);
    RunKeepsInv(s, run);
    assert ThreadOk(After(s, run), After(s, run).threads[t]);
    StepKeepsInv(After(s, run), StoreCache(t));
  }

  lemma {:induction false} Extend(s: State, run: seq<Step>, a: Step)
    requires Feasible(s, run) && Enabled(After(s, run), a)
    ensures Feasible(s, run + [a]) && After(s, run + [a]) == Stepped(After(s, run), a)
  {
    assert (run + [a])[..|run + [a]| - 1] == run;
  }

  /** The thread a step belongs to; calibrations set by hand come from nobody in particular. */
  predicate IsBy(a: Step, t: nat) {
    !a.SetCalibration? && a.t == t
  }

  predicate Others(run: seq<Step>, t: nat) {
    forall i :: 0 <= i < |run| ==> !IsBy(run[i], t)
  }

  lemma {:induction false} OthersKeepPc(s: State, run: seq<Step>, t: nat)
    requires Feasible(s, run) && Others(run, t) && t < |s.threads|
    ensures |After(s, run).threads| == |s.threads| && After(s, run).threads[t] == s.threads[t]
  {
    if run != [] {
      OthersKeepPc(s, run[..|run| - 1], t);
    }
  }

  /** What counts is the calibration in force when the update takes the calibration lock, not when it
      began and not when it stores: whatever the others do in between, its store leaves the cache at
      the reading it received under that calibration. */
  lemma {:induction false} UpdateUsesTheCalibrationInForce(s: State, run: seq<Step>, t: nat, more: seq<Step>)
    requires Init(s) && Feasible(s, run) && Enabled(After(s, run), ApplyCalibration(t))
    requires Feasible(Stepped(After(s, run), ApplyCalibration(t)), more) && Others(more, t)
    ensures var before := After(s, run);
            var e := After(Stepped(before, ApplyCalibration(t)), more);
            && Enabled(e, StoreCache(t))
            && |before.calibrations| > 0
            && IsCalibrated(before.calibrations[|before.calibrations| - 1], before.threads[t].raw,
                            Stepped(e, StoreCache(t)).cached)
  {
    var before := After(s, run);
    OthersKeepPc(Stepped(before, ApplyCalibration(t)), more, t);
    AppliedIsCalibrated(before.calibrations[|before.calibrations| - 1], before.threads[t].raw);
  }

  /** An update that runs alone caches its reading under the calibration in force. */
  function UpdateSteps(t: nat, reading: Orientation): seq<Step> {
    [] + [BeginUpdate(t)] + [Receive(t, Some(reading))] + [ApplyCalibration(t)] + [StoreCache(t)]
  }

  lemma {:induction false} UndisturbedUpdate(s: State, t: nat, reading: Orientation)
    requires t < |s.threads| && s.threads[t].Idle? && s.calibrations != []
    ensures Feasible(s, UpdateSteps(t, reading))
    ensures var e := After(s, UpdateSteps(t, reading));
            && IsCalibrated(s.calibrations[|s.calibrations| - 1], reading, e.cached)
            && e.calibrations == s.calibrations && e.threads == s.threads && e.readings == s.readings + [reading]
  {
    var r1 := [] + [BeginUpdate(t)];
    Extend(s, [], BeginUpdate(t));
    var r2 := r1 + [Receive(t, Some(reading))];
    Extend(s, r1, Receive(t, Some(reading)));
    var r3 := r2 + [ApplyCalibration(t)];
    Extend(s, r2, ApplyCalibration(t));
    Extend(s, r3, StoreCache(t));
    AppliedIsCalibrated(s.calibrations[|s.calibrations| - 1], reading);
    assert After(s, UpdateSteps(t, reading)).threads == s.threads;
  }

  /** A calibration set by hand is the one later updates use; it leaves the cache as it is. */
  lemma {:induction false} SetCalibrationTakesEffect(s: State, c: ImuCalibration, t: nat, reading: Orientation)
    requires t < |s.threads| && s.threads[t].Idle?
    ensures var s' := Stepped(s, SetCalibration(c));
            && s'.cached == s.cached && s'.threads == s.threads
            && Feasible(s', UpdateSteps(t, reading))
            && IsCalibrated(c, reading, After(s', UpdateSteps(t, reading)).cached)
  {
    UndisturbedUpdate(Stepped(s, SetCalibration(c)), t, reading);
  }

  /** A calibration that runs alone installs its reading as zero and levels the cache. */
  function ZeroSteps(t: nat, reading: Orientation): seq<Step> {
    [] + [BeginZero(t)] + [Receive(t, Some(reading))] + [InstallZero(t)]
  }

  lemma {:induction false} UndisturbedZero(s: State, t: nat, reading: Orientation)
    requires t < |s.threads| && s.threads[t].Idle?
    ensures Feasible(s, ZeroSteps(t, reading))
    ensures var e := After(s, ZeroSteps(t, reading));
            && e.cached == Orientation(0.0, 0.0, 0.0)
            && e.calibrations == s.calibrations + [ImuCalibration(reading, true)] && e.threads == s.threads
  {
    var r1 := [] + [BeginZero(t)];
    Extend(s, [], BeginZero(t));
    var r2 := r1 + [Receive(t, Some(reading))];
    Extend(s, r1, Receive(t, Some(reading)));
    Extend(s, r2, InstallZero(t));
    YawWrapLaw(reading.yaw, reading.yaw);
    assert After(s, ZeroSteps(t, reading)).threads == s.threads;
  }

  /** The cache is under the current calibration and no update in flight carries an older one. */
  ghost predicate Settled(s: State) {
    && s.calibrationOfCache == Current(s)
    && (forall t :: 0 <= t < |s.threads| && s.threads[t].Holding? ==> s.threads[t].applied == Current(s))
  }

  /** Agreement then lasts until the calibration changes again. */
  lemma {:induction false} SettledLasts(s: State, run: seq<Step>)
    requires Settled(s) && s.calibrations != [] && Feasible(s, run)
    requires After(s, run).calibrations == s.calibrations
    ensures Settled(After(s, run))
  {
    if run != [] {
      var front := run[..|run| - 1];
      CalibrationsOnlyGrow(s, front);
      assert After(s, front).calibrations <= After(s, run).calibrations;
      SettledLasts(s, front);
    }
  }

  lemma {:induction false} CalibrationsOnlyGrow(s: State, run: seq<Step>)
    requires Feasible(s, run)
    ensures s.calibrations <= After(s, run).calibrations
  {
    if run != [] {
      CalibrationsOnlyGrow(s, run[..|run| - 1]);
    }
  }

  /** One thread reads and applies, another calibrates, the first stores. */
  function OvertakenRun(raw: Orientation): seq<Step> {
    [] + [BeginUpdate(0)] + [Receive(0, Some(raw))] + [ApplyCalibration(0)]
    + [BeginZero(1)] + [Receive(1, Some(raw))] + [InstallZero(1)] + [StoreCache(0)]
  }

  /** The bound is tight: an update in flight may overwrite a fresh zero. The glove lies still, is
      calibrated there, and the cache ends up with the angles the calibration was to remove. */
  lemma {:induction false} InFlightUpdateMayOverwriteAFreshZero(s: State, raw: Orientation)
    requires Init(s) && |s.threads| == 2
    ensures Feasible(s, OvertakenRun(raw))
    ensures var e := After(s, OvertakenRun(raw));
            && e.calibrations == [UNCALIBRATED, LevelAt(raw)] && e.cached == raw
            && Applied(LevelAt(raw), raw) == LEVEL
            && e.calibrationOfCache < Current(e)
  {
    var r1 := [] + [BeginUpdate(0)];
    Extend(s, [], BeginUpdate(0));
    var r2 := r1 + [Receive(0, Some(raw))];
    Extend(s, r1, Receive(0, Some(raw)));
    var r3 := r2 + [ApplyCalibration(0)];
    Extend(s, r2, ApplyCalibration(0));
    var e3 := After(s, r3);
    assert e3.threads == [Holding(raw, raw, 0, 0), Idle] && e3.calibrations == [UNCALIBRATED];
    var r4 := r3 + [BeginZero(1)];
    Extend(s, r3, BeginZero(1));
    var r5 := r4 + [Receive(1, Some(raw))];
    Extend(s, r4, Receive(1, Some(raw)));
    var r6 := r5 + [InstallZero(1)];
    Extend(s, r5, InstallZero(1));
    var e6 := After(s, r6);
    assert e6.threads[0] == Holding(raw, raw, 0, 0) && e6.calibrations == [UNCALIBRATED, LevelAt(raw)];
    Extend(s, r6, StoreCache(0));
    YawWrapLaw(raw.yaw, raw.yaw);
  }
}
