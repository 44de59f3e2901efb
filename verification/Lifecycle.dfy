/** The SDK's lifecycle: one controller thread calling initialize, start, stop and shutdown, and the
    unified updater, interleaved one atomic step at a time. */
module Lifecycle {

  datatype Udp = NoClient | Closed | Open

  /** The updater's thread object. Live and Finished are both joinable. */
  datatype Thread = NotJoinable | Live(pc: UpdaterPc) | Finished

  datatype UpdaterPc =
    | Head
    | MotorCheck | MotorExchange(left: nat)
    | FirstFlagCheck
    | EncoderCheck | EncoderExchange
    | SecondFlagCheck
    | ImuCheck | ImuExchange
    | MaybeSleep

  /** nested: called from initialize or shutdown, which still hold the init mutex. */
  datatype ControllerPc =
    | Idle
    | InitEntered | CreateUdp | ConnectUdp
    | CreateMotor | InitMotor | CreateEncoder | InitEncoder | CreateImu | InitImu
    | MarkInitialized | MaybeAutoStart
    | StartEntered(nested: bool) | StartCheckRunning(nested: bool) | SetRunning(nested: bool) | Spawn(nested: bool)
    | StopEntered(nested: bool) | ClearRunning(nested: bool) | Join(nested: bool)
    | ShutdownEntered | MarkUninitialized
    | DropImu | DropEncoder | DropMotor | DropUdp
    | Unlock

  datatype State = State(
    autoStart: bool,
    initialized: bool, running: bool, initHeld: bool,
    udp: Udp, motor: bool, encoder: bool, imu: bool,
    thread: Thread, controller: ControllerPc)

  datatype Api = Initialize | Start | Stop | Shutdown

  /** ok is what a component's connect or initialize answers; slept, whether time was left to sleep. */
  datatype Step = Call(api: Api) | Control(ok: bool) | Update(slept: bool)

  function Constructed(autoStart: bool): State {
    State(autoStart, false, false, false, NoClient, false, false, false, NotJoinable, Idle)
  }

  predicate HoldsInit(pc: ControllerPc) {
    match pc
    case Idle => false
    case StartEntered(nested) => nested
    case StartCheckRunning(nested) => nested
    case SetRunning(nested) => nested
    case Spawn(nested) => nested
    case StopEntered(nested) => nested
    case ClearRunning(nested) => nested
    case Join(nested) => nested
    case _ => true
  }

  predicate Enabled(s: State, a: Step) {
    match a
    case Call(_) => s.controller.Idle?
    case Control(_) => !s.controller.Idle? && !(s.controller.Join? && s.thread.Live?)
    case Update(_) => s.thread.Live?
  }

  function Called(s: State, api: Api): State {
    match api
    case Initialize => s.(initHeld := true, controller := InitEntered)
    case Shutdown => s.(initHeld := true, controller := ShutdownEntered)
    case Start => s.(controller := StartEntered(false))
    case Stop => s.(controller := StopEntered(false))
  }

  /** start returns to initialize's end or to the caller; stop to shutdown or to the caller. */
  function AfterStart(nested: bool): ControllerPc { if nested then Unlock else Idle }
  function AfterStop(nested: bool): ControllerPc { if nested then MarkUninitialized else Idle }

  function Controlled(s: State, ok: bool): (e: State)
    ensures e.autoStart == s.autoStart
  {
    match s.controller
    case Idle => s
    case InitEntered => s.(controller := if s.initialized then Unlock else CreateUdp)
    case CreateUdp => s.(udp := Closed, controller := ConnectUdp)
    case ConnectUdp => if ok then s.(udp := Open, controller := CreateMotor) else s.(controller := DropImu)
    case CreateMotor => s.(motor := true, controller := InitMotor)
    case InitMotor => s.(controller := if ok then CreateEncoder else DropImu)
    case CreateEncoder => s.(encoder := true, controller := InitEncoder)
    case InitEncoder => s.(controller := if ok then CreateImu else DropImu)
    case CreateImu => s.(imu := true, controller := InitImu)
    case InitImu => s.(controller := if ok then MarkInitialized else DropImu)
    case MarkInitialized => s.(initialized := true, controller := MaybeAutoStart)
    case MaybeAutoStart => s.(controller := if s.autoStart then StartEntered(true) else Unlock)
    case StartEntered(n) => s.(controller := if s.initialized then StartCheckRunning(n) else AfterStart(n))
    case StartCheckRunning(n) => s.(controller := if s.running then AfterStart(n) else SetRunning(n))
    case SetRunning(n) => s.(running := true, controller := Spawn(n))
    case Spawn(n) => s.(thread := Live(Head), controller := AfterStart(n))
    case StopEntered(n) => s.(controller := if s.running then ClearRunning(n) else AfterStop(n))
    case ClearRunning(n) => s.(running := false, controller := Join(n))
    case Join(n) => s.(thread := NotJoinable, controller := AfterStop(n))
    case ShutdownEntered => s.(controller := if s.initialized then StopEntered(true) else Unlock)
    case MarkUninitialized => s.(initialized := false, controller := DropImu)
    case DropImu => s.(imu := false, controller := DropEncoder)
    case DropEncoder => s.(encoder := false, controller := DropMotor)
    case DropMotor => s.(motor := false, controller := DropUdp)
    case DropUdp => s.(udp := NoClient, controller := Unlock)
    case Unlock => s.(initHeld := false, controller := Idle)
  }

  function Updated(s: State): Thread
    requires s.thread.Live?
  {
    match s.thread.pc
    case Head => if s.running then Live(MotorCheck) else Finished
    case MotorCheck => Live(if s.motor then MotorExchange(6) else FirstFlagCheck)
    case MotorExchange(left) => Live(if left <= 1 then FirstFlagCheck else MotorExchange(left - 1))
    case FirstFlagCheck => if s.running then Live(EncoderCheck) else Finished
    case EncoderCheck => Live(if s.encoder then EncoderExchange else SecondFlagCheck)
    case EncoderExchange => Live(SecondFlagCheck)
    case SecondFlagCheck => if s.running then Live(ImuCheck) else Finished
    case ImuCheck => Live(if s.imu then ImuExchange else MaybeSleep)
    case ImuExchange => Live(MaybeSleep)
    case MaybeSleep => Live(Head)
  }

  function Stepped(s: State, a: Step): State
    requires Enabled(s, a)
  {
    match a
    case Call(api) => Called(s, api)
    case Control(ok) => Controlled(s, ok)
    case Update(_) => s.(thread := Updated(s))
  }

  predicate Feasible(s: State, run: seq<Step>)
    decreases |run|, 0
  {
    run == [] || (Feasible(s, run[..|run| - 1]) && Enabled(After(s, run[..|run| - 1]), run[|run| - 1]))
  }

  function After(s: State, run: seq<Step>): State
    requires Feasible(s, run)
    decreases |run|, 1
  {
    if run == [] then s else Stepped(After(s, run[..|run| - 1]), run[|run| - 1])
  }

  // ---- safety ----

  predicate AllExist(s: State) {
    s.udp.Open? && s.motor && s.encoder && s.imu
  }

  predicate NoneExists(s: State) {
    s.udp.NoClient? && !s.motor && !s.encoder && !s.imu
  }

  predicate Building(s: State, udp: Udp, motor: bool, encoder: bool, imu: bool) {
    s.udp == udp && s.motor == motor && s.encoder == encoder && s.imu == imu
  }

  /** Between the flag's store and the spawn, and between the clear and the join, flag and thread
      disagree; everywhere else the flag says whether the updater lives. */
  predicate FlagMatchesThread(s: State) {
    match s.controller
    case Spawn(_) => s.running && s.thread.NotJoinable?
    case Join(_) => !s.running && !s.thread.NotJoinable?
    case _ => if s.running then s.thread.Live? else s.thread.NotJoinable?
  }

  /** What exists at each point of the controller's program. */
  predicate ComponentsMatch(s: State) {
    match s.controller
    case CreateUdp => !s.initialized && NoneExists(s)
    case ConnectUdp => !s.initialized && Building(s, Closed, false, false, false)
    case CreateMotor => !s.initialized && Building(s, Open, false, false, false)
    case InitMotor => !s.initialized && Building(s, Open, true, false, false)
    case CreateEncoder => !s.initialized && Building(s, Open, true, false, false)
    case InitEncoder => !s.initialized && Building(s, Open, true, true, false)
    case CreateImu => !s.initialized && Building(s, Open, true, true, false)
    case InitImu => !s.initialized && AllExist(s)
    case MarkInitialized => !s.initialized && AllExist(s)
    case MaybeAutoStart => s.initialized && AllExist(s)
    case DropImu => !s.initialized
    case DropEncoder => !s.initialized && !s.imu
    case DropMotor => !s.initialized && !s.imu && !s.encoder
    case DropUdp => !s.initialized && !s.imu && !s.encoder && !s.motor
    case StartCheckRunning(_) => s.initialized && AllExist(s)
    case SetRunning(_) => s.initialized && AllExist(s) && !s.running
    case Spawn(_) => s.initialized && AllExist(s)
    case ClearRunning(_) => s.initialized && AllExist(s) && s.running
    case Join(_) => s.initialized && AllExist(s)
    case MarkUninitialized => s.initialized && AllExist(s) && !s.running
    case _ => if s.initialized then AllExist(s) else NoneExists(s)
  }

  predicate Inv(s: State) {
    && FlagMatchesThread(s)
    && ComponentsMatch(s)
    && (s.running ==> s.initialized)
    && s.initHeld == HoldsInit(s.controller)
    && (s.controller == StopEntered(true) ==> s.initialized)
    && (s.thread.Live? && s.thread.pc.MotorExchange? ==> 1 <= s.thread.pc.left <= 6)
  }

  /** A step of the controller that destroys a component. */
  predicate Destroys(pc: ControllerPc) {
    pc.DropImu? || pc.DropEncoder? || pc.DropMotor? || pc.DropUdp?
  }

  predicate IsCreatePc(pc: ControllerPc) {
    pc.CreateUdp? || pc.ConnectUdp? || pc.CreateMotor? || pc.InitMotor? || pc.CreateEncoder? || pc.InitEncoder?
    || pc.CreateImu? || pc.InitImu? || pc.MarkInitialized?
  }

  predicate IsStartStopPc(pc: ControllerPc) {
    pc.StartEntered? || pc.StartCheckRunning? || pc.SetRunning? || pc.Spawn? || pc.StopEntered? || pc.ClearRunning? || pc.Join?
  }

  lemma {:induction false} CreatingKeepsInv(s: State, ok: bool)
    requires Inv(s) && IsCreatePc(s.controller)
    ensures Inv(Controlled(s, ok))
  {
  }

  lemma {:induction false} StartStopKeepsInv(s: State, ok: bool)
    requires Inv(s) && Enabled(s, Control(ok)) && IsStartStopPc(s.controller)
    ensures Inv(Controlled(s, ok))
  {
  }

  lemma {:induction false} DroppingKeepsInv(s: State, ok: bool)
    requires Inv(s) && Destroys(s.controller)
    ensures Inv(Controlled(s, ok))
  {
  }

  lemma {:induction false} OtherControlKeepsInv(s: State, ok: bool)
    requires Inv(s) && !IsCreatePc(s.controller) && !IsStartStopPc(s.controller) && !Destroys(s.controller)
    ensures Inv(Controlled(s, ok))
  {
  }

  lemma {:induction false} UpdateKeepsInv(s: State)
    requires Inv(s) && s.thread.Live?
    ensures Inv(s.(thread := Updated(s)))
  {
  }

  lemma {:induction false} CallKeepsInv(s: State, api: Api)
    requires Inv(s) && s.controller.Idle?
    ensures Inv(Called(s, api))
  {
  }

  lemma {:induction false} StepKeepsInv(s: State, a: Step)
    requires Inv(s) && Enabled(s, a)
    ensures Inv(Stepped(s, a))
  {
    match a
    case Call(api) => CallKeepsInv(s, api);
    case Update(_) => UpdateKeepsInv(s);
    case Control(ok) =>
      if IsCreatePc(s.controller) {
        CreatingKeepsInv(s, ok);
      } else if IsStartStopPc(s.controller) {
        StartStopKeepsInv(s, ok);
      } else if Destroys(s.controller) {
        DroppingKeepsInv(s, ok);
      } else {
        OtherControlKeepsInv(s, ok);
      }
  }

  lemma {:induction false} RunKeepsInv(s: State, run: seq<Step>)
    requires Inv(s) && Feasible(s, run)
    ensures Inv(After(s, run))
  {
    if run != [] {
      RunKeepsInv(s, run[..|run| - 1]);
      StepKeepsInv(After(s, run[..|run| - 1]), run[|run| - 1]);
    }
  }

  /** In every reachable state: initialized means all four components exist; the running flag and a
      living updater both mean initialized; the thread object is assigned only when it is not
      joinable; nothing is destroyed while the updater lives; and a controller at rest either has
      everything or is back in the constructed state, which is where a failed initialize ends. */
  lemma {:induction false} LifecycleIsSafe(autoStart: bool, run: seq<Step>)
    requires Feasible(Constructed(autoStart), run)
    ensures var s := After(Constructed(autoStart), run);
            && (s.initialized ==> AllExist(s))
            && (s.running || s.thread.Live? ==> s.initialized && AllExist(s))
            && (s.controller.Spawn? ==> s.thread.NotJoinable?)
            && (Destroys(s.controller) ==> s.thread.NotJoinable?)
            && (s.controller.Idle? && !s.initialized ==> s == Constructed(s.autoStart))
            && (s.controller.Idle? ==> (s.running <==> s.thread.Live?) && !s.thread.Finished?)
  {
    RunKeepsInv(Constructed(autoStart), run);
  }

  // ---- stopping ----

  /** The step is the beginning of one request/response exchange by the updater. */
  predicate BeginsExchange(s: State, a: Step) {
    a.Update? && s.thread.Live?
    && (s.thread.pc.MotorExchange? || s.thread.pc.EncoderExchange? || s.thread.pc.ImuExchange?)
  }

  predicate Sleeps(s: State, a: Step) {
    a.Update? && a.slept && s.thread.Live? && s.thread.pc.MaybeSleep?
  }

  function Exchanges(s: State, run: seq<Step>): nat
    requires Feasible(s, run)
  {
    if run == [] then 0
    else Exchanges(s, run[..|run| - 1]) + if BeginsExchange(After(s, run[..|run| - 1]), run[|run| - 1]) then 1 else 0
  }

  function Sleeping(s: State, run: seq<Step>): nat
    requires Feasible(s, run)
  {
    if run == [] then 0
    else Sleeping(s, run[..|run| - 1]) + if Sleeps(After(s, run[..|run| - 1]), run[|run| - 1]) then 1 else 0
  }

  /** Once the flag is false: exchanges still to begin, sleeps still possible, steps still to take. */
  function ExchangesLeft(t: Thread): nat {
    if !t.Live? then 0
    else match t.pc
      case MotorCheck => 6
      case MotorExchange(left) => left
      case EncoderCheck => 1
      case EncoderExchange => 1
      case ImuCheck => 1
      case ImuExchange => 1
      case _ => 0
  }

  function SleepsLeft(t: Thread): nat {
    if t.Live? && (t.pc.ImuCheck? || t.pc.ImuExchange? || t.pc.MaybeSleep?) then 1 else 0
  }

  function Rank(t: Thread): nat {
    if !t.Live? then 0
    else match t.pc
      case MotorCheck => 8
      case MotorExchange(left) => left + 1
      case EncoderCheck => 3
      case EncoderExchange => 2
      case ImuCheck => 4
      case ImuExchange => 3
      case MaybeSleep => 2
      case _ => 1
  }

  /** The updater has been told to stop and has not stopped yet. */
  predicate Stopping(s: State) {
    !s.running && s.thread.Live?
  }

  lemma {:induction false} StoppingStep(s: State, a: Step)
    requires Inv(s) && Stopping(s) && Enabled(s, a)
    ensures a.Update? && s.controller.Join?
    ensures var s' := Stepped(s, a);
            && !s'.running && (s'.thread.Live? || s'.thread.Finished?)
            && Rank(s'.thread) < Rank(s.thread)
            && ExchangesLeft(s.thread) == ExchangesLeft(s'.thread) + (if BeginsExchange(s, a) then 1 else 0)
            && SleepsLeft(s.thread) >= SleepsLeft(s'.thread) + (if Sleeps(s, a) then 1 else 0)
  {
  }

  /** The updater was alive before every step of the run. */
  predicate AliveThroughout(s: State, run: seq<Step>)
    requires Feasible(s, run)
  {
    run == [] || (AliveThroughout(s, run[..|run| - 1]) && After(s, run[..|run| - 1]).thread.Live?)
  }

  lemma {:induction false} StoppingRun(s: State, run: seq<Step>)
    requires Inv(s) && Stopping(s) && Feasible(s, run) && AliveThroughout(s, run)
    ensures var e := After(s, run);
            && !e.running && !e.thread.NotJoinable?
            && |run| + Rank(e.thread) <= Rank(s.thread)
            && Exchanges(s, run) + ExchangesLeft(e.thread) == ExchangesLeft(s.thread)
            && Sleeping(s, run) + SleepsLeft(e.thread) <= SleepsLeft(s.thread)
  {
    if run != [] {
      var front := run[..|run| - 1];
      StoppingRun(s, front);
      RunKeepsInv(s, front);
      StoppingStep(After(s, front), run[|run| - 1]);
    }
  }

  /** However far the updater was when stop cleared the flag, only its own steps can happen until it
      finishes; it takes at most eight of them, begins at most six more exchanges (exactly as many
      as its position says) and sleeps at most once; and it never both begins more than one
      exchange and sleeps. */
  lemma {:induction false} StopIsBounded(autoStart: bool, before: seq<Step>, run: seq<Step>)
    requires Feasible(Constructed(autoStart), before)
    requires var s := After(Constructed(autoStart), before);
             Stopping(s) && Feasible(s, run) && AliveThroughout(s, run)
    ensures var s := After(Constructed(autoStart), before);
            && |run| <= Rank(s.thread) <= 8
            && Exchanges(s, run) <= ExchangesLeft(s.thread) <= 6
            && Sleeping(s, run) <= SleepsLeft(s.thread) <= 1
            && (After(s, run).thread.Finished? ==> Exchanges(s, run) == ExchangesLeft(s.thread))
            && (Sleeping(s, run) == 1 ==> Exchanges(s, run) <= 1)
            && (|run| == Rank(s.thread) ==> After(s, run).thread.Finished?)
  {
    RunKeepsInv(Constructed(autoStart), before);
    StoppingRun(After(Constructed(autoStart), before), run);
  }

  // ---- every call returns ----

  /** The longest way from a point of the controller's program to its return; before a join it
      leaves room for the eight steps the updater may still take. */
  function StepsToReturn(pc: ControllerPc): nat {
    match pc
    case Idle => 0
    case InitEntered => 16
    case CreateUdp => 15
    case ConnectUdp => 14
    case CreateMotor => 13
    case InitMotor => 12
    case CreateEncoder => 11
    case InitEncoder => 10
    case CreateImu => 9
    case InitImu => 8
    case MarkInitialized => 7
    case MaybeAutoStart => 6
    case StartEntered(_) => 5
    case StartCheckRunning(_) => 4
    case SetRunning(_) => 3
    case Spawn(_) => 2
    case ShutdownEntered => 18
    case StopEntered(_) => 17
    case ClearRunning(_) => 16
    case Join(_) => 7
    case MarkUninitialized => 6
    case DropImu => 5
    case DropEncoder => 4
    case DropMotor => 3
    case DropUdp => 2
    case Unlock => 1
  }

  /** What is left of the call: its own steps, and at a join the updater's remaining ones. */
  function Work(s: State): nat {
    StepsToReturn(s.controller) + if s.controller.Join? then Rank(s.thread) else 0
  }

  /** A step the call in progress is waiting for. */
  predicate Advances(s: State, a: Step) {
    a.Control? || (a.Update? && s.controller.Join?)
  }

  lemma {:induction false} WorkIsBounded(s: State)
    requires Inv(s)
    ensures Work(s) <= 18 && (Work(s) == 0 <==> s.controller.Idle?)
  {
  }

  lemma {:induction false} ControlWorks(s: State, ok: bool)
    requires Inv(s) && Enabled(s, Control(ok))
    ensures Work(Controlled(s, ok)) < Work(s)
  {
    if s.controller.ClearRunning? {
      assert Rank(s.thread) <= 8;
    } else {
      ControlIsCloser(s, ok, s.controller);
    }
  }

  predicate Closer(pc: ControllerPc, next: ControllerPc) {
    !next.Join? && StepsToReturn(next) < StepsToReturn(pc)
  }

  lemma {:induction false} ControlIsCloser(s: State, ok: bool, pc: ControllerPc)
    requires s.controller == pc && !pc.Idle? && !pc.ClearRunning?
    ensures Closer(pc, Controlled(s, ok).controller)
  {
    if IsCreatePc(pc) {
      CreatingIsCloser(s, ok, pc);
    } else if IsStartStopPc(pc) {
      StartStopIsCloser(s, ok, pc);
    } else {
      OtherControlIsCloser(s, ok, pc);
    }
  }

  lemma {:induction false} CreatingIsCloser(s: State, ok: bool, pc: ControllerPc)
    requires s.controller == pc && IsCreatePc(pc)
    ensures Closer(pc, Controlled(s, ok).controller)
  {
    match pc
    case CreateUdp => assert Closer(pc, Controlled(s, ok).controller);
    case ConnectUdp => assert Closer(pc, Controlled(s, ok).controller);
    case CreateMotor => assert Closer(pc, Controlled(s, ok).controller);
    case InitMotor => assert Closer(pc, Controlled(s, ok).controller);
    case CreateEncoder => assert Closer(pc, Controlled(s, ok).controller);
    case InitEncoder => assert Closer(pc, Controlled(s, ok).controller);
    case CreateImu => assert Closer(pc, Controlled(s, ok).controller);
    case InitImu => assert Closer(pc, Controlled(s, ok).controller);
    case MarkInitialized => assert Closer(pc, Controlled(s, ok).controller);
  }

  lemma {:induction false} StartStopIsCloser(s: State, ok: bool, pc: ControllerPc)
    requires s.controller == pc && IsStartStopPc(pc) && !pc.ClearRunning?
    ensures Closer(pc, Controlled(s, ok).controller)
  {
    match pc
    case StartEntered(_) => assert Closer(pc, Controlled(s, ok).controller);
    case StartCheckRunning(_) => assert Closer(pc, Controlled(s, ok).controller);
    case SetRunning(_) => assert Closer(pc, Controlled(s, ok).controller);
    case Spawn(_) => assert Closer(pc, Controlled(s, ok).controller);
    case StopEntered(_) => assert Closer(pc, Controlled(s, ok).controller);
    case Join(_) => assert Closer(pc, Controlled(s, ok).controller);
  }

  lemma {:induction false} OtherControlIsCloser(s: State, ok: bool, pc: ControllerPc)
    requires s.controller == pc && !pc.Idle? && !IsCreatePc(pc) && !IsStartStopPc(pc)
    ensures Closer(pc, Controlled(s, ok).controller)
  {
    match pc
    case InitEntered => assert Closer(pc, Controlled(s, ok).controller);
    case MaybeAutoStart => assert Closer(pc, Controlled(s, ok).controller);
    case ShutdownEntered => assert Closer(pc, Controlled(s, ok).controller);
    case MarkUninitialized => assert Closer(pc, Controlled(s, ok).controller);
    case DropImu => assert Closer(pc, Controlled(s, ok).controller);
    case DropEncoder => assert Closer(pc, Controlled(s, ok).controller);
    case DropMotor => assert Closer(pc, Controlled(s, ok).controller);
    case DropUdp => assert Closer(pc, Controlled(s, ok).controller);
    case Unlock => assert Closer(pc, Controlled(s, ok).controller);
  }

  lemma {:induction false} StepWorks(s: State, a: Step)
    requires Inv(s) && Enabled(s, a) && !a.Call?
    ensures Work(Stepped(s, a)) + (if Advances(s, a) then 1 else 0) <= Work(s)
  {
    if a.Control? {
      ControlWorks(s, a.ok);
    } else if s.controller.Join? {
      StoppingStep(s, a);
    }
  }

  /** The controller is at its join and the updater has not finished. */
  predicate Waits(s: State) {
    s.controller.Join? && s.thread.Live?
  }

  /** The step an unreturned call waits for: the updater's while the join waits, else its own. */
  function Due(s: State, ok: bool): Step {
    if Waits(s) then Update(ok) else Control(ok)
  }

  lemma {:induction false} DueStepAdvances(s: State, ok: bool)
    requires Inv(s) && !s.controller.Idle?
    ensures Enabled(s, Due(s, ok)) && Advances(s, Due(s, ok)) && Work(Stepped(s, Due(s, ok))) < Work(s)
  {
    StepWorks(s, Due(s, ok));
  }

  predicate NoCalls(run: seq<Step>) {
    forall i :: 0 <= i < |run| ==> !run[i].Call?
  }

  function Advanced(s: State, run: seq<Step>): nat
    requires Feasible(s, run)
  {
    if run == [] then 0
    else Advanced(s, run[..|run| - 1]) + if Advances(After(s, run[..|run| - 1]), run[|run| - 1]) then 1 else 0
  }

  lemma {:induction false} RunWorks(s: State, run: seq<Step>)
    requires Inv(s) && Feasible(s, run) && NoCalls(run)
    ensures Advanced(s, run) + Work(After(s, run)) <= Work(s)
  {
    if run != [] {
      var front := run[..|run| - 1];
      RunWorks(s, front);
      RunKeepsInv(s, front);
      StepWorks(After(s, front), run[|run| - 1]);
    }
  }

  /** Whatever the scheduler does until the next call, the call in progress uses up one unit of its
      work, at most 18, with every advancing step; it has returned exactly when its work is done,
      and until then such a step is enabled: the updater's while the join waits, else its own. */
  lemma {:induction false} EveryCallReturns(autoStart: bool, before: seq<Step>, run: seq<Step>, ok: bool)
    requires Feasible(Constructed(autoStart), before)
    requires Feasible(After(Constructed(autoStart), before), run) && NoCalls(run)
    ensures var s := After(Constructed(autoStart), before);
            var e := After(s, run);
            && Advanced(s, run) + Work(e) <= Work(s) <= 18
            && (Work(e) == 0 <==> e.controller.Idle?)
            && (!e.controller.Idle? ==> Enabled(e, Due(e, ok)) && Advances(e, Due(e, ok)))
  {
    var s := After(Constructed(autoStart), before);
    RunKeepsInv(Constructed(autoStart), before);
    RunWorks(s, run);
    RunKeepsInv(s, run);
    WorkIsBounded(s);
    WorkIsBounded(After(s, run));
    if !After(s, run).controller.Idle? {
      DueStepAdvances(After(s, run), ok);
    }
  }

  /** A continuation in which the call returns: no new call, no more steps than its work, and every
      component answers as given. */
  ghost predicate Returns(s: State, run: seq<Step>, answers: nat -> bool) {
    && Feasible(s, run) && NoCalls(run) && Answering(run, answers)
    && |run| <= Work(s) && After(s, run).controller.Idle?
  }

  ghost predicate Answering(run: seq<Step>, answers: nat -> bool) {
    forall i :: 0 <= i < |run| && run[i].Control? ==> run[i].ok == answers(i)
  }

  /** From every reachable state, and whatever the components answer, the call in progress can be
      brought to its return within 18 steps of the two threads. */
  lemma {:induction false} CallCanReturn(autoStart: bool, before: seq<Step>, answers: nat -> bool)
    requires Feasible(Constructed(autoStart), before)
    ensures var s := After(Constructed(autoStart), before);
            Work(s) <= 18 && exists run :: Returns(s, run, answers)
  {
    var s := After(Constructed(autoStart), before);
    RunKeepsInv(Constructed(autoStart), before);
    WorkIsBounded(s);
    ReturnFrom(s, [], answers);
  }

  lemma {:induction false} ReturnFrom(s: State, run: seq<Step>, answers: nat -> bool)
    requires Inv(s) && Feasible(s, run) && NoCalls(run) && Answering(run, answers)
    requires |run| + Work(After(s, run)) <= Work(s)
    ensures exists more :: Returns(s, more, answers)
    decreases Work(After(s, run))
  {
    if After(s, run).controller.Idle? {
      assert Returns(s, run, answers);
    } else {
      var a := Due(After(s, run), answers(|run|));
      OneStepCloser(s, run, answers(|run|));
      StillAnswering(run, a, answers);
      ReturnFrom(s, run + [a], answers);
    }
  }

  lemma {:induction false} StillAnswering(run: seq<Step>, a: Step, answers: nat -> bool)
    requires NoCalls(run) && Answering(run, answers)
    requires !a.Call? && (a.Control? ==> a.ok == answers(|run|))
    ensures NoCalls(run + [a]) && Answering(run + [a], answers)
  {
  }

  lemma {:induction false} OneStepCloser(s: State, run: seq<Step>, ok: bool)
    requires Inv(s) && Feasible(s, run) && !After(s, run).controller.Idle?
    ensures var e := After(s, run);
            var further := run + [Due(e, ok)];
            Feasible(s, further) && Work(After(s, further)) < Work(e)
  {
    RunKeepsInv(s, run);
    DueStepAdvances(After(s, run), ok);
    Extend(s, run, Due(After(s, run), ok));
  }

  lemma {:induction false} Extend(s: State, run: seq<Step>, a: Step)
    requires Feasible(s, run) && Enabled(After(s, run), a)
    ensures Feasible(s, run + [a]) && After(s, run + [a]) == Stepped(After(s, run), a)
  {
    assert (run + [a])[..|run + [a]| - 1] == run;
  }

  // ---- what a call has done when it returns ----

  /** A component's connect or initialize answered no. */
  predicate Refuses(s: State, a: Step) {
    && a.Control? && !a.ok
    && (s.controller.ConnectUdp? || s.controller.InitMotor? || s.controller.InitEncoder? || s.controller.InitImu?)
  }

  predicate Refused(s: State, run: seq<Step>)
    requires Feasible(s, run)
  {
    run != [] && (Refused(s, run[..|run| - 1]) || Refuses(After(s, run[..|run| - 1]), run[|run| - 1]))
  }

  lemma {:induction false} NobodyRefuses(s: State, run: seq<Step>)
    requires Feasible(s, run) && forall i :: 0 <= i < |run| && run[i].Control? ==> run[i].ok
    ensures !Refused(s, run)
  {
    if run != [] {
      NobodyRefuses(s, run[..|run| - 1]);
    }
  }

  /** Where a call that began at s0 may stand, and with what. */
  predicate DuringInitialize(s0: State, e: State, refused: bool) {
    match e.controller
    case InitEntered => e.initialized == s0.initialized && e.running == s0.running && !refused
    case CreateUdp => !s0.initialized && !refused
    case ConnectUdp => !s0.initialized && !refused
    case CreateMotor => !s0.initialized && !refused
    case InitMotor => !s0.initialized && !refused
    case CreateEncoder => !s0.initialized && !refused
    case InitEncoder => !s0.initialized && !refused
    case CreateImu => !s0.initialized && !refused
    case InitImu => !s0.initialized && !refused
    case MarkInitialized => !s0.initialized && !refused
    case MaybeAutoStart => !s0.initialized && !refused && !e.running
    case StartEntered(nested) => nested && !s0.initialized && !refused && e.initialized && !e.running && e.autoStart
    case StartCheckRunning(nested) => nested && !s0.initialized && !refused && !e.running && e.autoStart
    case SetRunning(nested) => nested && !s0.initialized && !refused && e.autoStart
    case Spawn(nested) => nested && !s0.initialized && !refused && e.autoStart
    case DropImu => !s0.initialized && refused
    case DropEncoder => !s0.initialized && refused
    case DropMotor => !s0.initialized && refused
    case DropUdp => !s0.initialized && refused
    case Unlock => Initialized(s0, e, refused)
    case Idle => Initialized(s0, e, refused)
    case _ => false
  }

  predicate Initialized(s0: State, e: State, refused: bool) {
    if s0.initialized then e.initialized && e.running == s0.running
    else if refused then !e.initialized
    else e.initialized && e.running == e.autoStart
  }

  predicate DuringStart(s0: State, e: State) {
    match e.controller
    case StartEntered(nested) => !nested && e.initialized == s0.initialized && e.running == s0.running
    case StartCheckRunning(nested) => !nested && s0.initialized
    case SetRunning(nested) => !nested && s0.initialized
    case Spawn(nested) => !nested && s0.initialized
    case Idle => e.initialized == s0.initialized == e.running
    case _ => false
  }

  predicate DuringStop(s0: State, e: State) {
    e.initialized == s0.initialized &&
    match e.controller
    case StopEntered(nested) => !nested
    case ClearRunning(nested) => !nested
    case Join(nested) => !nested
    case Idle => !e.running
    case _ => false
  }

  predicate DuringShutdown(e: State) {
    match e.controller
    case ShutdownEntered => true
    case StopEntered(nested) => nested
    case ClearRunning(nested) => nested
    case Join(nested) => nested
    case MarkUninitialized => true
    case DropImu => true
    case DropEncoder => true
    case DropMotor => true
    case DropUdp => true
    case Unlock => !e.initialized
    case Idle => !e.initialized
    case _ => false
  }

  predicate During(s0: State, api: Api, e: State, refused: bool) {
    && e.autoStart == s0.autoStart
    && match api
       case Initialize => DuringInitialize(s0, e, refused)
       case Start => DuringStart(s0, e)
       case Stop => DuringStop(s0, e)
       case Shutdown => DuringShutdown(e)
  }

  lemma {:induction false} InitializeStep(s0: State, e: State, ok: bool, refused: bool, pc: ControllerPc)
    requires Inv(e) && pc == e.controller && Enabled(e, Control(ok)) && DuringInitialize(s0, e, refused)
    ensures DuringInitialize(s0, Controlled(e, ok), refused || Refuses(e, Control(ok)))
  {
    if IsCreatePc(pc) {
      CreatingInitializes(s0, e, ok, refused, pc);
    } else if IsStartStopPc(pc) {
      StartingInitializes(s0, e, ok, refused, pc);
    } else {
      RestInitializes(s0, e, ok, refused, pc);
    }
  }

  lemma {:induction false} CreatingInitializes(s0: State, e: State, ok: bool, refused: bool, pc: ControllerPc)
    requires Inv(e) && pc == e.controller && IsCreatePc(pc) && DuringInitialize(s0, e, refused)
    ensures DuringInitialize(s0, Controlled(e, ok), refused || Refuses(e, Control(ok)))
  {
  }

  lemma {:induction false} StartingInitializes(s0: State, e: State, ok: bool, refused: bool, pc: ControllerPc)
    requires Inv(e) && pc == e.controller && IsStartStopPc(pc) && Enabled(e, Control(ok))
    requires DuringInitialize(s0, e, refused)
    ensures DuringInitialize(s0, Controlled(e, ok), refused || Refuses(e, Control(ok)))
  {
  }

  lemma {:induction false} RestInitializes(s0: State, e: State, ok: bool, refused: bool, pc: ControllerPc)
    requires Inv(e) && pc == e.controller && !IsCreatePc(pc) && !IsStartStopPc(pc) && !pc.Idle?
    requires DuringInitialize(s0, e, refused)
    ensures DuringInitialize(s0, Controlled(e, ok), refused || Refuses(e, Control(ok)))
  {
  }

  lemma {:induction false} StartStep(s0: State, e: State, ok: bool)
    requires Inv(e) && Enabled(e, Control(ok)) && DuringStart(s0, e)
    ensures DuringStart(s0, Controlled(e, ok))
  {
  }

  lemma {:induction false} StopStep(s0: State, e: State, ok: bool)
    requires Inv(e) && Enabled(e, Control(ok)) && DuringStop(s0, e)
    ensures DuringStop(s0, Controlled(e, ok))
  {
  }

  lemma {:induction false} ShutdownStep(e: State, ok: bool)
    requires Inv(e) && Enabled(e, Control(ok)) && DuringShutdown(e)
    ensures DuringShutdown(Controlled(e, ok))
  {
  }

  lemma {:induction false} StepStaysDuring(s0: State, api: Api, e: State, a: Step, refused: bool)
    requires Inv(e) && Enabled(e, a) && !a.Call? && During(s0, api, e, refused)
    ensures During(s0, api, Stepped(e, a), refused || Refuses(e, a))
  {
    if a.Control? {
      match api
      case Initialize => InitializeStep(s0, e, a.ok, refused, e.controller);
      case Start => StartStep(s0, e, a.ok);
      case Stop => StopStep(s0, e, a.ok);
      case Shutdown => ShutdownStep(e, a.ok);
    }
  }

  lemma {:induction false} RunStaysDuring(s0: State, api: Api, run: seq<Step>)
    requires Inv(s0) && s0.controller.Idle? && Feasible(Called(s0, api), run) && NoCalls(run)
    ensures During(s0, api, After(Called(s0, api), run), Refused(Called(s0, api), run))
  {
    if run != [] {
      var front := run[..|run| - 1];
      RunStaysDuring(s0, api, front);
      CallKeepsInv(s0, api);
      RunKeepsInv(Called(s0, api), front);
      StepStaysDuring(s0, api, After(Called(s0, api), front), run[|run| - 1], Refused(Called(s0, api), front));
    }
  }

  /** What a completed call has done, in every interleaving with the updater, from every reachable
      state in which no call is in progress. Initialize: everything exists and the updater runs as
      configured, or is as it was if the SDK was initialized already; if a component refused, all is
      as constructed. Start: the updater lives, if the SDK is initialized. Stop: it is joined.
      Shutdown: all is as constructed. */
  lemma {:induction false} CompletedCallsHaveWorked(autoStart: bool, before: seq<Step>, api: Api, run: seq<Step>)
    requires Feasible(Constructed(autoStart), before) && After(Constructed(autoStart), before).controller.Idle?
    requires var s := Called(After(Constructed(autoStart), before), api);
             Feasible(s, run) && NoCalls(run) && After(s, run).controller.Idle?
    ensures var s0 := After(Constructed(autoStart), before);
            var s := Called(s0, api);
            var e := After(s, run);
            && (e.running <==> e.thread.Live?) && (!e.running ==> e.thread.NotJoinable?)
            && (if e.initialized then AllExist(e) else e == Constructed(autoStart))
            && match api
               case Initialize =>
                 if s0.initialized then e.initialized && e.running == s0.running
                 else (e.initialized <==> !Refused(s, run)) && (e.initialized ==> e.running == autoStart)
               case Start => e.initialized == s0.initialized && e.running == s0.initialized
               case Stop => e.initialized == s0.initialized && !e.running
               case Shutdown => !e.initialized
  {
    var s0 := After(Constructed(autoStart), before);
    RunKeepsInv(Constructed(autoStart), before);
    RunKeepsAutoStart(Constructed(autoStart), before);
    RunStaysDuring(s0, api, run);
    CallKeepsInv(s0, api);
    RunKeepsInv(Called(s0, api), run);
  }

  lemma {:induction false} RunKeepsAutoStart(s: State, run: seq<Step>)
    requires Feasible(s, run)
    ensures After(s, run).autoStart == s.autoStart
  {
    if run != [] {
      RunKeepsAutoStart(s, run[..|run| - 1]);
      StepKeepsAutoStart(After(s, run[..|run| - 1]), run[|run| - 1]);
    }
  }

  lemma {:induction false} StepKeepsAutoStart(s: State, a: Step)
    requires Enabled(s, a)
    ensures Stepped(s, a).autoStart == s.autoStart
  {
  }

  /** In particular an initialize of a fresh SDK whose components all answer succeeds. */
  lemma {:induction false} InitializeSucceeds(autoStart: bool, run: seq<Step>)
    requires var s := Called(Constructed(autoStart), Initialize);
             Feasible(s, run) && NoCalls(run) && After(s, run).controller.Idle?
    requires forall i :: 0 <= i < |run| && run[i].Control? ==> run[i].ok
    ensures var e := After(Called(Constructed(autoStart), Initialize), run);
            e.initialized && AllExist(e) && e.running == autoStart && (e.thread.Live? <==> autoStart)
  {
    NobodyRefuses(Called(Constructed(autoStart), Initialize), run);
    CompletedCallsHaveWorked(autoStart, [], Initialize, run);
  }

  // ---- what the updater does ----

  datatype Request = MotorRead | EncoderRead | ImuRead

  /** The place of the cycle of eight requests at which the updater stands. */
  function Place(pc: UpdaterPc): nat {
    match pc
    case Head => 0
    case MotorCheck => 0
    case MotorExchange(left) => if left <= 6 then 6 - left else 0
    case FirstFlagCheck => 6
    case EncoderCheck => 6
    case EncoderExchange => 6
    case SecondFlagCheck => 7
    case ImuCheck => 7
    case ImuExchange => 7
    case MaybeSleep => 0
  }

  function RequestOf(pc: UpdaterPc): Request {
    if pc.MotorExchange? then MotorRead else if pc.EncoderExchange? then EncoderRead else ImuRead
  }

  /** The requests the updater makes in a run, in order. */
  function RequestsMade(s: State, run: seq<Step>): seq<Request>
    requires Feasible(s, run)
  {
    if run == [] then []
    else
      var e := After(s, run[..|run| - 1]);
      RequestsMade(s, run[..|run| - 1]) + if BeginsExchange(e, run[|run| - 1]) then [RequestOf(e.thread.pc)] else []
  }

  /** Six motor reads, one encoder read, one IMU read, over and over. */
  predicate IsCycle(requests: seq<Request>) {
    forall i :: 0 <= i < |requests| ==> requests[i] == InCycle(i % 8)
  }

  function InCycle(place: nat): Request {
    if place < 6 then MotorRead else if place == 6 then EncoderRead else ImuRead
  }

  predicate RunsThroughout(s: State, run: seq<Step>)
    requires Feasible(s, run)
  {
    s.running && (run == [] || (RunsThroughout(s, run[..|run| - 1]) && After(s, run).running))
  }

  lemma {:induction false} UpdateMovesPlace(s: State, a: Step)
    requires Inv(s) && s.running && s.thread.Live? && a.Update?
    ensures var pc := s.thread.pc;
            var next := Stepped(s, a).thread;
            && next.Live?
            && (if BeginsExchange(s, a) then
                  && Place(next.pc) == (Place(pc) + 1) % 8
                  && RequestOf(pc) == InCycle(Place(pc))
                else Place(next.pc) == Place(pc))
  {
    RunningMeansAll(s);
  }

  lemma {:induction false} RunningMeansAll(s: State)
    requires Inv(s) && s.running && s.thread.Live?
    ensures s.motor && s.encoder && s.imu
  {
  }

  lemma {:induction false} ControlSparesTheUpdater(s: State, a: Step)
    requires Inv(s) && Enabled(s, a) && !a.Update? && s.running && s.thread.Live? && Stepped(s, a).running
    ensures Stepped(s, a).thread == s.thread
  {
  }

  /** While it runs, the updater makes six motor reads, one encoder read and one IMU read, over and
      over, from the moment it is at the head of its loop and whatever the controller does meanwhile. */
  lemma {:induction false} UpdaterKeepsTheCycle(autoStart: bool, before: seq<Step>, run: seq<Step>)
    requires Feasible(Constructed(autoStart), before)
    requires var s := After(Constructed(autoStart), before);
             s.thread == Live(Head) && Feasible(s, run) && RunsThroughout(s, run)
    ensures IsCycle(RequestsMade(After(Constructed(autoStart), before), run))
  {
    RunKeepsInv(Constructed(autoStart), before);
    CycleKept(After(Constructed(autoStart), before), run);
  }

  lemma {:induction false} CycleKept(s: State, run: seq<Step>)
    requires Inv(s) && s.thread == Live(Head) && Feasible(s, run) && RunsThroughout(s, run)
    ensures StandsInCycle(After(s, run).thread, RequestsMade(s, run))
  {
    if run != [] {
      CycleKept(s, run[..|run| - 1]);
      RunKeepsInv(s, run[..|run| - 1]);
      StepKeepsCycle(After(s, run[..|run| - 1]), run[|run| - 1], RequestsMade(s, run[..|run| - 1]));
    }
  }

  predicate StandsInCycle(t: Thread, made: seq<Request>) {
    t.Live? && Place(t.pc) == |made| % 8 && IsCycle(made)
  }

  lemma {:induction false} StepKeepsCycle(s: State, a: Step, made: seq<Request>)
    requires Inv(s) && Enabled(s, a) && s.running && Stepped(s, a).running && StandsInCycle(s.thread, made)
    ensures StandsInCycle(Stepped(s, a).thread, made + if BeginsExchange(s, a) then [RequestOf(s.thread.pc)] else [])
  {
    if a.Update? {
      UpdateMovesPlace(s, a);
    } else {
      ControlSparesTheUpdater(s, a);
    }
  }
}
