/** Any number of threads calling send_and_receive, reset_statistics, connect and disconnect, one
    atomic step at a time, over a lossy, delaying, first-in-first-out reply channel. */
module Exchange {
  import opened Bytes
  import opened Packets
  import opened Client

  /** A reply in the network or in the socket's buffer; the tag names the request it answers. */
  datatype Datagram = Datagram(tag: nat, bytes: seq<Byte>)

  /** One reply taken from the socket: by which request's exchange, and what it returned. */
  datatype Answer = Answer(request: nat, reply: nat, packet: Option<Packet>)

  datatype Mutex = SendMutex | ReceiveMutex | StatsMutex

  /** A counter update under the stats mutex is a load and a store, not one step. */
  datatype Phase = Wanting | Locked | Loaded(seen: Statistics) | Stored

  /** Where a thread is. A Counting or Leaving thread still holds the mutex of the operation it counts. */
  datatype Pc =
    | Idle
    | WantSend
    | HoldSend
    | Counting(kind: Kind, phase: Phase, request: nat)
    | Leaving(kind: Kind, request: nat)
    | WantReceive(request: nat)
    | HoldReceive(request: nat)
    | Resetting(phase: Phase)
    | ToggleWantSend(up: bool)
    | ToggleWantReceive(up: bool)
    | ToggleHold(up: bool)
    | ToggleDone
    | ToggleLeaving

  /** lost, consumed and log are history: the steps below never consult them. */
  datatype State = State(
    threads: seq<Pc>, owners: map<Mutex, nat>, connected: bool, stats: Statistics,
    next: nat, outstanding: seq<Datagram>,
    lost: nat, consumed: nat, log: seq<Answer>)

  datatype Collected = NothingInTime | Failure | Head

  datatype Step =
    | BeginExchange(t: nat)
    | BeginReset(t: nat)
    | BeginToggle(t: nat, up: bool)
    | Acquire(t: nat)
    | Release(t: nat)
    | Transmit(t: nat, o: SendOutcome, reply: seq<Byte>)
    | Collect(t: nat, c: Collected)
    | Load(t: nat)
    | Store(t: nat)
    | Toggle(t: nat, ok: bool)
    | Lose(i: nat)

  predicate IsSendKind(k: Kind) {
    k.Sent? || k.SendError?
  }

  function MutexOf(k: Kind): Mutex {
    if IsSendKind(k) then SendMutex else ReceiveMutex
  }

  predicate Holds(pc: Pc, m: Mutex) {
    match m
    case SendMutex =>
      || pc.HoldSend?
      || ((pc.Counting? || pc.Leaving?) && IsSendKind(pc.kind))
      || pc.ToggleWantReceive? || pc.ToggleHold? || pc.ToggleDone? || pc.ToggleLeaving?
    case ReceiveMutex =>
      || pc.HoldReceive?
      || ((pc.Counting? || pc.Leaving?) && !IsSendKind(pc.kind))
      || pc.ToggleHold? || pc.ToggleDone?
    case StatsMutex =>
      (pc.Counting? || pc.Resetting?) && !pc.phase.Wanting?
  }

  /** The mutex a thread waits for, and where it goes once it has it. */
  function Wants(pc: Pc): Option<(Mutex, Pc)> {
    match pc
    case WantSend => Some((SendMutex, HoldSend))
    case WantReceive(r) => Some((ReceiveMutex, HoldReceive(r)))
    case Counting(k, Wanting, r) => Some((StatsMutex, Counting(k, Locked, r)))
    case Resetting(Wanting) => Some((StatsMutex, Resetting(Locked)))
    case ToggleWantSend(up) => Some((SendMutex, ToggleWantReceive(up)))
    case ToggleWantReceive(up) => Some((ReceiveMutex, ToggleHold(up)))
    case _ => None
  }

  /** The mutex a thread is about to drop, and where it goes then. */
  function Drops(pc: Pc): Option<(Mutex, Pc)> {
    match pc
    case Counting(k, Stored, r) => Some((StatsMutex, Leaving(k, r)))
    case Leaving(k, r) => Some((MutexOf(k), if k.Sent? then WantReceive(r) else Idle))
    case Resetting(Stored) => Some((StatsMutex, Idle))
    case ToggleDone => Some((ReceiveMutex, ToggleLeaving))
    case ToggleLeaving => Some((SendMutex, Idle))
    case _ => None
  }

  predicate Enabled(s: State, a: Step) {
    match a
    case BeginExchange(t) => t < |s.threads| && s.threads[t].Idle?
    case BeginReset(t) => t < |s.threads| && s.threads[t].Idle?
    case BeginToggle(t, _) => t < |s.threads| && s.threads[t].Idle?
    case Acquire(t) => t < |s.threads| && Wants(s.threads[t]).Some? && Wants(s.threads[t]).value.0 !in s.owners
    case Release(t) => t < |s.threads| && Drops(s.threads[t]).Some?
    case Transmit(t, _, _) => t < |s.threads| && s.threads[t].HoldSend?
    case Collect(t, c) => t < |s.threads| && s.threads[t].HoldReceive? && (c.Head? ==> s.connected && s.outstanding != [])
    case Load(t) => t < |s.threads| && s.threads[t].Counting? && s.threads[t].phase.Locked?
    case Store(t) => t < |s.threads| && (Loads(s.threads[t]) || s.threads[t] == Resetting(Locked))
    case Toggle(t, _) => t < |s.threads| && s.threads[t].ToggleHold?
    case Lose(i) => i < |s.outstanding|
  }

  predicate Loads(pc: Pc) {
    pc.Counting? && pc.phase.Loaded?
  }

  function At(s: State, t: nat, pc: Pc): State
    requires t < |s.threads|
  {
    s.(threads := s.threads[t := pc])
  }

  /** A request that went out whole takes the next tag and puts its reply, whatever it will be,
      behind the replies outstanding; a lost reply is a later Lose step. */
  function Transmitted(s: State, t: nat, o: SendOutcome, reply: seq<Byte>): State
    requires t < |s.threads|
  {
    if s.connected && o.Whole? then
      At(s, t, Counting(Sent, Wanting, s.next))
      .(next := s.next + 1, outstanding := s.outstanding + [Datagram(s.next, reply)])
    else At(s, t, Counting(SendError, Wanting, 0))
  }

  function OutcomeOf(s: State, c: Collected): RecvOutcome
    requires c.Head? ==> s.outstanding != []
  {
    match c
    case NothingInTime => TimedOut
    case Failure => RecvFailed
    case Head => Arrived(s.outstanding[0].bytes)
  }

  function CollectedBy(s: State, t: nat, c: Collected): State
    requires t < |s.threads| && s.threads[t].HoldReceive?
    requires c.Head? ==> s.connected && s.outstanding != []
  {
    var r := s.threads[t].request;
    var s' := At(s, t, Counting(ReceiveKind(s.connected, OutcomeOf(s, c)), Wanting, r));
    if c.Head? then
      var d := s.outstanding[0];
      s'.(outstanding := s.outstanding[1..], consumed := s.consumed + 1,
          log := s.log + [Answer(r, d.tag, Deserialized(Buffered(d.bytes)))])
    else s'
  }

  function Tally(p: Pc -> bool, ts: seq<Pc>): nat {
    if ts == [] then 0 else Tally(p, ts[..|ts| - 1]) + if p(ts[|ts| - 1]) then 1 else 0
  }

  function Between(s: State): nat {
    Tally(InBetween, s.threads)
  }

  /** The thread has stored its send count and not yet its receive count. */
  predicate InBetween(pc: Pc) {
    || (pc.Counting? && pc.kind.Sent? && pc.phase.Stored?)
    || (pc.Leaving? && pc.kind.Sent?)
    || pc.WantReceive? || pc.HoldReceive?
    || (pc.Counting? && !IsSendKind(pc.kind) && !pc.phase.Stored?)
  }

  function Stepped(s: State, a: Step): State
    requires Enabled(s, a)
  {
    match a
    case BeginExchange(t) => At(s, t, WantSend)
    case BeginReset(t) => At(s, t, Resetting(Wanting))
    case BeginToggle(t, up) => At(s, t, ToggleWantSend(up))
    case Acquire(t) =>
      var (m, pc) := Wants(s.threads[t]).value;
      At(s, t, pc).(owners := s.owners[m := t])
    case Release(t) =>
      var (m, pc) := Drops(s.threads[t]).value;
      At(s, t, pc).(owners := s.owners - {m})
    case Transmit(t, o, reply) => Transmitted(s, t, o, reply)
    case Collect(t, c) => CollectedBy(s, t, c)
    case Load(t) =>
      var pc := s.threads[t];
      At(s, t, Counting(pc.kind, Loaded(s.stats), pc.request))
    case Store(t) =>
      var pc := s.threads[t];
      if pc.Resetting? then At(s, t, Resetting(Stored)).(stats := NO_STATISTICS)
      else At(s, t, Counting(pc.kind, Stored, pc.request)).(stats := Counted(pc.phase.seen, pc.kind))
    case Toggle(t, ok) =>
      At(s, t, ToggleDone).(connected := if s.threads[t].up then s.connected || ok else false)
    case Lose(i) =>
      s.(outstanding := s.outstanding[..i] + s.outstanding[i + 1..], lost := s.lost + 1)
  }

  predicate Init(s: State) {
    && AllIdle(s) && s.owners == map[] && !s.connected && s.stats == NO_STATISTICS
    && s.next == 0 && s.outstanding == [] && s.lost == 0 && s.consumed == 0 && s.log == []
  }

  /** A run is a sequence of steps; any interleaving of any threads is one. */
  predicate Feasible(s: State, run: seq<Step>)
    decreases |run|, 0
  {
    run == [] || (Feasible(s, run[..|run| - 1]) && Enabled(After(s, run[..|run| - 1]), run[|run| - 1]))
  }

  function After(s: State, run: seq<Step>): State
    requires Feasible(s, run)
    decreases |run|, 1
  {
    if run == [] then s else Stepped(After(s, run[..|run| - 1]), run[|run| - 1])
  }

  // ---- what every step keeps ----

  ghost predicate LocksOk(s: State) {
    && (forall m :: m in s.owners ==> s.owners[m] < |s.threads|)
    && (forall m, t :: 0 <= t < |s.threads| ==> OwnerRight(s, m, t))
  }

  predicate OwnerRight(s: State, m: Mutex, t: nat)
    requires t < |s.threads|
  {
    (m in s.owners && s.owners[m] == t) <==> Holds(s.threads[t], m)
  }

  /** Nobody writes the counters between a thread's load and its store. */
  ghost predicate SnapshotsOk(s: State) {
    forall t :: 0 <= t < |s.threads| && Loads(s.threads[t]) ==> s.threads[t].phase.seen == s.stats
  }

  function Difference(s: Statistics): int {
    s.sent as int - s.received as int - s.timeouts as int - s.receiveErrors as int - s.checksumErrors as int
  }

  /** The counters balance modulo 2^64 against the threads in between, now and at the last reset. */
  ghost predicate Balanced(s: State, base: int) {
    Congruent(Difference(s.stats) + base, Between(s))
  }

  /** An exchange whose request is out and which has neither taken a reply nor counted its failure. */
  predicate IsOpen(pc: Pc) {
    InFlight(pc) || (pc.Counting? && IsLateKind(pc.kind) && !pc.phase.Stored?)
  }

  predicate IsLateKind(k: Kind) {
    k.Timeout? || k.ReceiveError?
  }

  /** Replies lost or outstanding beyond those the open exchanges still wait for. */
  function LateReplies(s: State): int {
    |s.outstanding| + s.lost - Tally(IsOpen, s.threads)
  }

  /** Each exchange that gave up left one reply behind, and the counters say how many did. */
  ghost predicate LateCounted(s: State, base: int) {
    Congruent(Failures(s.stats) + base, LateReplies(s))
  }

  function Wraps(k: int): int {
    k * 0x1_0000_0000_0000_0000
  }

  /** Equal modulo 2^64. */
  ghost predicate Congruent(a: int, b: int) {
    exists k :: a == b + Wraps(k)
  }

  /** Replies wait in the order of their requests, and none is ever taken out of order or twice. */
  ghost predicate ChannelOk(s: State) {
    && (forall i, j :: 0 <= i < j < |s.outstanding| ==> s.outstanding[i].tag < s.outstanding[j].tag)
    && (forall i :: 0 <= i < |s.outstanding| ==> s.outstanding[i].tag < s.next)
    && |s.outstanding| == s.next - s.lost - s.consumed
    && |s.log| == s.consumed
    && (forall i, j :: 0 <= i < j < |s.log| ==> s.log[i].reply < s.log[j].reply)
    && (forall i, j :: 0 <= i < |s.log| && 0 <= j < |s.outstanding| ==> s.log[i].reply < s.outstanding[j].tag)
    && (forall i :: 0 <= i < |s.log| ==> s.log[i].reply < s.next)
  }

  /** With one caller, the request in flight is the last one issued. */
  predicate LastRequestInFlight(s: State) {
    |s.threads| == 1 && InFlight(s.threads[0]) ==> s.next > 0 && s.threads[0].request == s.next - 1
  }

  predicate InFlight(pc: Pc) {
    ((pc.Counting? || pc.Leaving?) && pc.kind.Sent?) || pc.WantReceive? || pc.HoldReceive?
  }

  ghost predicate Inv(s: State) {
    LocksOk(s) && SnapshotsOk(s) && ChannelOk(s) && LastRequestInFlight(s)
  }

  lemma {:induction false} TallyUpdate(p: Pc -> bool, ts: seq<Pc>, t: nat, pc: Pc)
    requires t < |ts|
    ensures Tally(p, ts[t := pc]) == Tally(p, ts) - (if p(ts[t]) then 1 else 0) + if p(pc) then 1 else 0
  {
    var n := |ts| - 1;
    if t == n {
      assert ts[t := pc][..n] == ts[..n];
    } else {
      assert ts[t := pc][..n] == ts[..n][t := pc];
      TallyUpdate(p, ts[..n], t, pc);
    }
  }

  predicate AllIdle(s: State) {
    forall t :: 0 <= t < |s.threads| ==> s.threads[t] == Idle
  }

  lemma {:induction false} NobodyToTally(p: Pc -> bool, ts: seq<Pc>)
    requires !p(Idle) && forall t :: 0 <= t < |ts| ==> ts[t] == Idle
    ensures Tally(p, ts) == 0
  {
    if ts != [] {
      NobodyToTally(p, ts[..|ts| - 1]);
    }
  }

  lemma IdleTallies(s: State)
    requires AllIdle(s)
    ensures Between(s) == 0 && LateReplies(s) == |s.outstanding| + s.lost
  {
    NobodyToTally(InBetween, s.threads);
    NobodyToTally(IsOpen, s.threads);
  }

  lemma {:induction false} InitInv(s: State)
    requires Init(s)
    ensures Inv(s)
  {
  }

  function Sign(k: Kind): int {
    if k.Sent? then 1 else if k.SendError? then 0 else -1
  }

  /** One count moves the balance by its sign, up to a wrap of the counter. */
  lemma {:induction false} CountKeepsCongruence(st: Statistics, k: Kind, base: int, between: int)
    requires Congruent(Difference(st) + base, between)
    ensures Congruent(Difference(Counted(st, k)) + base, between + Sign(k))
  {
    var w :| Difference(st) + base == between + Wraps(w);
    var moved := Difference(Counted(st, k)) - Difference(st) - Sign(k);
    assert moved == Wraps(0) || moved == Wraps(1) || moved == Wraps(-1);
    var v := if moved == Wraps(0) then 0 else if moved == Wraps(1) then 1 else -1;
    assert Difference(Counted(st, k)) + base == between + Sign(k) + Wraps(w + v);
  }

  function Failures(st: Statistics): int {
    st.timeouts + st.receiveErrors
  }

  /** And the count of failures by one if it is one. */
  lemma {:induction false} CountKeepsLateness(st: Statistics, k: Kind, base: int, late: int)
    requires Congruent(Failures(st) + base, late)
    ensures Congruent(Failures(Counted(st, k)) + base, late + if IsLateKind(k) then 1 else 0)
  {
    var w :| Failures(st) + base == late + Wraps(w);
    var step := if IsLateKind(k) then 1 else 0;
    var moved := Failures(Counted(st, k)) - Failures(st) - step;
    assert moved == Wraps(0) || moved == Wraps(-1);
    var v := if moved == Wraps(0) then 0 else -1;
    assert Failures(Counted(st, k)) + base == late + step + Wraps(w + v);
  }

  lemma {:induction false} WantingPc(pc: Pc, x: Mutex)
    requires Wants(pc).Some?
    ensures var (m, pc') := Wants(pc).value; !Holds(pc, m) && (Holds(pc', x) <==> x == m || Holds(pc, x))
  {
  }

  lemma {:induction false} DroppingPc(pc: Pc, x: Mutex)
    requires Drops(pc).Some?
    ensures var (m, pc') := Drops(pc).value; Holds(pc, m) && (Holds(pc', x) <==> x != m && Holds(pc, x))
  {
  }

  lemma {:induction false} OtherStepsMoveNoMutex(s: State, a: Step, m: Mutex)
    requires Enabled(s, a) && !a.Lose? && !a.Acquire? && !a.Release?
    ensures Stepped(s, a).owners == s.owners
    ensures Holds(Stepped(s, a).threads[a.t], m) <==> Holds(s.threads[a.t], m)
  {
  }

  lemma {:induction false} StepKeepsOwner(s: State, a: Step, m: Mutex, u: nat)
    requires LocksOk(s) && Enabled(s, a) && u < |s.threads|
    ensures |Stepped(s, a).threads| == |s.threads| && OwnerRight(Stepped(s, a), m, u)
  {
    assert OwnerRight(s, m, u);
    if a.Acquire? {
      assert OwnerRight(s, m, a.t);
      WantingPc(s.threads[a.t], m);
    } else if a.Release? {
      assert OwnerRight(s, m, a.t);
      DroppingPc(s.threads[a.t], m);
    } else if !a.Lose? {
      OtherStepsMoveNoMutex(s, a, m);
    }
  }

  lemma {:induction false} StepKeepsLocks(s: State, a: Step)
    requires LocksOk(s) && Enabled(s, a)
    ensures LocksOk(Stepped(s, a))
  {
    var s' := Stepped(s, a);
    forall m, u | 0 <= u < |s.threads|
      ensures |s'.threads| == |s.threads| && OwnerRight(s', m, u)
    {
      StepKeepsOwner(s, a, m, u);
    }
  }

  lemma {:induction false} OneHolder(s: State, m: Mutex, t: nat, u: nat)
    requires LocksOk(s) && t < |s.threads| && u < |s.threads|
    requires Holds(s.threads[t], m) && Holds(s.threads[u], m)
    ensures t == u
  {
    assert OwnerRight(s, m, t) && OwnerRight(s, m, u);
  }

  lemma {:induction false} StepKeepsSnapshots(s: State, a: Step)
    requires LocksOk(s) && SnapshotsOk(s) && Enabled(s, a)
    ensures SnapshotsOk(Stepped(s, a))
  {
    if a.Store? {
      forall u | 0 <= u < |s.threads| && Loads(s.threads[u])
        ensures u == a.t
      {
        OneHolder(s, StatsMutex, u, a.t);
      }
    }
  }

  predicate Resets(s: State, a: Step)
    requires Enabled(s, a)
  {
    a.Store? && s.threads[a.t].Resetting?
  }

  predicate Counts(s: State, a: Step)
    requires Enabled(s, a)
  {
    a.Store? && Loads(s.threads[a.t])
  }

  /** A step of one thread moves no other. */
  lemma {:induction false} OneThreadMoves(s: State, a: Step)
    requires Enabled(s, a) && !a.Lose?
    ensures Stepped(s, a).threads == s.threads[a.t := Stepped(s, a).threads[a.t]]
  {
  }

  lemma {:induction false} InBetweenAlong(s: State, a: Step)
    requires Enabled(s, a) && !a.Lose? && !Counts(s, a)
    ensures InBetween(s.threads[a.t]) <==> InBetween(Stepped(s, a).threads[a.t])
  {
  }

  /** Only a store changes whether its thread is in between. */
  lemma {:induction false} OnlyStoresMoveBetween(s: State, a: Step)
    requires Enabled(s, a) && !a.Lose? && !Counts(s, a)
    ensures Between(Stepped(s, a)) == Between(s)
  {
    OneThreadMoves(s, a);
    InBetweenAlong(s, a);
    TallyUpdate(InBetween, s.threads, a.t, Stepped(s, a).threads[a.t]);
  }

  lemma {:induction false} StoreMovesBetween(s: State, a: Step)
    requires Enabled(s, a) && Counts(s, a)
    ensures Between(Stepped(s, a)) == Between(s) + Sign(s.threads[a.t].kind)
  {
    TallyUpdate(InBetween, s.threads, a.t, Stepped(s, a).threads[a.t]);
  }

  lemma {:induction false} StepKeepsBalance(s: State, a: Step, base: int)
    requires SnapshotsOk(s) && Balanced(s, base) && Enabled(s, a) && !Resets(s, a)
    ensures Balanced(Stepped(s, a), base)
  {
    if Counts(s, a) {
      StoreMovesBetween(s, a);
      CountKeepsCongruence(s.stats, s.threads[a.t].kind, base, Between(s));
    } else if !a.Lose? {
      OnlyStoresMoveBetween(s, a);
    }
  }

  function One(yes: bool): int {
    if yes then 1 else 0
  }

  /** Sending opens an exchange with its reply, taking closes one with its reply, and nothing else
      but a store does either. */
  lemma {:induction false} OpenAlong(s: State, a: Step)
    requires Enabled(s, a) && !a.Lose? && !Counts(s, a)
    ensures var s' := Stepped(s, a);
            && s'.lost == s.lost
            && |s'.outstanding| - |s.outstanding| == One(IsOpen(s'.threads[a.t])) - One(IsOpen(s.threads[a.t]))
  {
  }

  /** So no late reply appears or goes, and giving up makes one late only once it is counted. */
  lemma {:induction false} OnlyStoresMoveLate(s: State, a: Step)
    requires Enabled(s, a) && !a.Lose? && !Counts(s, a)
    ensures LateReplies(Stepped(s, a)) == LateReplies(s)
  {
    OneThreadMoves(s, a);
    OpenAlong(s, a);
    TallyUpdate(IsOpen, s.threads, a.t, Stepped(s, a).threads[a.t]);
  }

  lemma {:induction false} StoreMovesLate(s: State, a: Step)
    requires Enabled(s, a) && Counts(s, a)
    ensures LateReplies(Stepped(s, a)) == LateReplies(s) + if IsLateKind(s.threads[a.t].kind) then 1 else 0
  {
    TallyUpdate(IsOpen, s.threads, a.t, Stepped(s, a).threads[a.t]);
  }

  lemma {:induction false} StepKeepsLateCounted(s: State, a: Step, base: int)
    requires SnapshotsOk(s) && LateCounted(s, base) && Enabled(s, a) && !Resets(s, a)
    ensures LateCounted(Stepped(s, a), base)
  {
    if Counts(s, a) {
      StoreMovesLate(s, a);
      CountKeepsLateness(s.stats, s.threads[a.t].kind, base, LateReplies(s));
    } else if !a.Lose? {
      OnlyStoresMoveLate(s, a);
    }
  }

  /** Both laws with what is in between and late right now as their base. */
  ghost predicate LawsStart(s: State) {
    Balanced(s, Between(s)) && LateCounted(s, LateReplies(s))
  }

  /** They start anew whenever the counters are zero. */
  lemma {:induction false} ZeroCountersBalance(s: State)
    requires s.stats == NO_STATISTICS
    ensures LawsStart(s)
  {
    NoDifference(s.stats);
    NoFailures(s.stats);
    StartFrom(s);
  }

  lemma {:induction false} StartFrom(s: State)
    requires Difference(s.stats) == 0 && Failures(s.stats) == 0
    ensures LawsStart(s)
  {
    EqualIsCongruent(Difference(s.stats) + Between(s), Between(s));
    EqualIsCongruent(Failures(s.stats) + LateReplies(s), LateReplies(s));
  }

  lemma NoDifference(st: Statistics)
    requires st == NO_STATISTICS
    ensures Difference(st) == 0
  {
  }

  lemma NoFailures(st: Statistics)
    requires st == NO_STATISTICS
    ensures Failures(st) == 0
  {
  }

  lemma EqualIsCongruent(a: int, b: int)
    requires a == b
    ensures Congruent(a, b)
  {
    assert a == b + Wraps(0);
  }

  lemma {:induction false} StepKeepsChannel(s: State, a: Step)
    requires ChannelOk(s) && Enabled(s, a)
    ensures ChannelOk(Stepped(s, a))
  {
    var s' := Stepped(s, a);
    if a.Lose? {
      LossKeepsChannel(s, a.i);
    } else if a.Collect? && a.c.Head? {
      HeadKeepsChannel(s, a.t);
    } else if a.Transmit? && s.connected && a.o.Whole? {
      assert s'.outstanding == s.outstanding + [Datagram(s.next, a.reply)];
    } else {
      assert s'.outstanding == s.outstanding && s'.log == s.log && s'.next == s.next;
    }
  }

  lemma {:induction false} LossKeepsChannel(s: State, i: nat)
    requires ChannelOk(s) && i < |s.outstanding|
    ensures ChannelOk(Stepped(s, Lose(i)))
  {
    var o := Stepped(s, Lose(i)).outstanding;
    assert forall j :: 0 <= j < |o| ==> o[j] == s.outstanding[if j < i then j else j + 1];
  }

  lemma {:induction false} HeadKeepsChannel(s: State, t: nat)
    requires ChannelOk(s) && Enabled(s, Collect(t, Head))
    ensures ChannelOk(Stepped(s, Collect(t, Head)))
  {
    var s' := Stepped(s, Collect(t, Head));
    assert forall j :: 0 <= j < |s'.outstanding| ==> s'.outstanding[j] == s.outstanding[j + 1];
    assert forall j :: 0 <= j < |s.log| ==> s'.log[j] == s.log[j];
  }

  lemma {:induction false} StepKeepsLastRequest(s: State, a: Step)
    requires LastRequestInFlight(s) && Enabled(s, a)
    ensures LastRequestInFlight(Stepped(s, a))
  {
  }

  lemma {:induction false} StepKeepsInv(s: State, a: Step)
    requires Inv(s) && Enabled(s, a)
    ensures Inv(Stepped(s, a))
  {
    StepKeepsLocks(s, a);
    StepKeepsSnapshots(s, a);
    StepKeepsChannel(s, a);
    StepKeepsLastRequest(s, a);
  }

  lemma {:induction false} RunKeepsInv(s: State, run: seq<Step>)
    requires Inv(s) && Feasible(s, run)
    ensures Inv(After(s, run))
  {
    if run != [] {
      RunKeepsInv(s, run[..|run| - 1]);
      StepKeepsInv(After(s, run[..|run| - 1]), run[|run| - 1]);
    }
  }

  // ---- the theorems ----

  /** Step m of the run is its last reset of the counters; -1 stands for none. */
  ghost predicate LastReset(s: State, run: seq<Step>, m: int) {
    && -1 <= m < |run|
    && (m >= 0 ==> ResetsAt(s, run, m))
    && forall i :: m < i < |run| ==> !ResetsAt(s, run, i)
  }

  predicate ResetsAt(s: State, run: seq<Step>, i: nat)
    requires i < |run|
  {
    Feasible(s, run[..i]) && Enabled(After(s, run[..i]), run[i]) && Resets(After(s, run[..i]), run[i])
  }

  lemma {:induction false} PrefixIsFeasible(s: State, run: seq<Step>, i: nat)
    requires Feasible(s, run) && i <= |run|
    ensures Feasible(s, run[..i])
  {
    if i == |run| {
      assert run[..i] == run;
    } else {
      PrefixIsFeasible(s, run[..|run| - 1], i);
      assert run[..|run| - 1][..i] == run[..i];
    }
  }

  /** Both laws last from a state to the end of a run that resets nothing after it. */
  lemma {:induction false} LawsLast(s: State, run: seq<Step>, m: int, between: int, late: int)
    requires Inv(s) && Feasible(s, run) && -1 <= m < |run| && Feasible(s, run[..m + 1])
    requires forall i :: m < i < |run| ==> !ResetsAt(s, run, i)
    requires Balanced(After(s, run[..m + 1]), between) && LateCounted(After(s, run[..m + 1]), late)
    ensures Balanced(After(s, run), between) && LateCounted(After(s, run), late)
  {
    if m == |run| - 1 {
      assert run[..m + 1] == run;
    } else {
      var front, last := run[..|run| - 1], run[|run| - 1];
      assert front[..m + 1] == run[..m + 1];
      forall i | m < i < |front|
        ensures !ResetsAt(s, front, i)
      {
        assert front[..i] == run[..i] && !ResetsAt(s, run, i);
      }
      LawsLast(s, front, m, between, late);
      assert !ResetsAt(s, run, |run| - 1);
      RunKeepsInv(s, front);
      StepKeepsBalance(After(s, front), last, between);
      StepKeepsLateCounted(After(s, front), last, late);
    }
  }

  /** The state right after the last reset, or the first state. */
  ghost function BaseState(s: State, run: seq<Step>, m: int): State
    requires Feasible(s, run) && LastReset(s, run, m)
  {
    PrefixIsFeasible(s, run, m + 1);
    After(s, run[..m + 1])
  }

  lemma {:induction false} LawsStartAtTheBase(s: State, run: seq<Step>, m: int)
    requires s.stats == NO_STATISTICS && Feasible(s, run) && LastReset(s, run, m)
    ensures LawsStart(BaseState(s, run, m))
  {
    if m >= 0 {
      var front := run[..m + 1];
      assert front[..m] == run[..m] && front[m] == run[m];
    }
    ZeroCountersBalance(BaseState(s, run, m));
  }

  lemma {:induction false} LawsSinceTheLastReset(s: State, run: seq<Step>, m: int)
    requires Inv(s) && s.stats == NO_STATISTICS && Feasible(s, run) && LastReset(s, run, m)
    ensures Balanced(After(s, run), Between(BaseState(s, run, m)))
    ensures LateCounted(After(s, run), LateReplies(BaseState(s, run, m)))
  {
    var base := BaseState(s, run, m);
    PrefixIsFeasible(s, run, m + 1);
    LawsStartAtTheBase(s, run, m);
    LawsLast(s, run, m, Between(base), LateReplies(base));
  }

  /** What was sent, plus the threads in between when the counters were last zero, is what was
      received, timed out, failed or did not read, plus the threads in between now; modulo 2^64. */
  predicate Conserved(e: State, base: int) {
    var st := e.stats;
    (st.sent + base) % COUNTER_MODULUS
    == (st.received + st.timeouts + st.receiveErrors + st.checksumErrors + Between(e)) % COUNTER_MODULUS
  }

  lemma {:induction false} BalancedIsConserved(e: State, base: int)
    requires Balanced(e, base)
    ensures Conserved(e, base)
  {
    var st := e.stats;
    assert Congruent(st.sent + base, st.received + st.timeouts + st.receiveErrors + st.checksumErrors + Between(e)) by {
      var k :| Difference(st) + base == Between(e) + Wraps(k);
      assert st.sent + base
             == st.received + st.timeouts + st.receiveErrors + st.checksumErrors + Between(e) + Wraps(k);
    }
    CongruentMeansEqualResidues(
      st.sent + base, st.received + st.timeouts + st.receiveErrors + st.checksumErrors + Between(e));
  }

  lemma CongruentMeansEqualResidues(a: int, b: int)
    requires Congruent(a, b)
    ensures a % COUNTER_MODULUS == b % COUNTER_MODULUS
  {
    var k :| a == b + Wraps(k);
    ResidueIsUnique(a, b, k);
  }

  lemma ResidueIsUnique(a: int, b: int, k: int)
    requires a == b + Wraps(k)
    ensures a % COUNTER_MODULUS == b % COUNTER_MODULUS
  {
    assert a / COUNTER_MODULUS == b / COUNTER_MODULUS + k;
  }

  /** Conservation of the counters under every interleaving of every number of threads, from the
      last reset on: the threads in between right after that reset are owed, and none if there was
      no reset. */
  lemma {:induction false} StatisticsAreConserved(s: State, run: seq<Step>, m: int)
    requires Init(s) && Feasible(s, run) && LastReset(s, run, m)
    ensures Conserved(After(s, run), Between(BaseState(s, run, m)))
    ensures m < 0 ==> Between(BaseState(s, run, m)) == 0
  {
    InitInv(s);
    LawsSinceTheLastReset(s, run, m);
    BalancedIsConserved(After(s, run), Between(BaseState(s, run, m)));
    NothingIsLateYet(s, run);
  }

  /** What makes a backlog, in every interleaving: the late replies (outstanding or lost, beyond what
      open exchanges still wait for) are those at the last reset plus one for each exchange that
      timed out or failed to receive since, modulo 2^64; nothing else leaves a reply behind. Without
      a reset, and with all threads back from their calls, they are simply all that is outstanding or lost. */
  lemma {:induction false} BacklogIsTheLateExchanges(s: State, run: seq<Step>, m: int)
    requires Init(s) && Feasible(s, run) && LastReset(s, run, m)
    ensures LateReplies(After(s, run)) % COUNTER_MODULUS
            == (Failures(After(s, run).stats) + LateReplies(BaseState(s, run, m))) % COUNTER_MODULUS
    ensures m < 0 ==> LateReplies(BaseState(s, run, m)) == 0
    ensures AllIdle(After(s, run)) ==> LateReplies(After(s, run)) == |After(s, run).outstanding| + After(s, run).lost
  {
    InitInv(s);
    LateSinceTheLastReset(s, run, m);
    NothingIsLateYet(s, run);
    if AllIdle(After(s, run)) {
      IdleTallies(After(s, run));
    }
  }

  lemma {:induction false} LateSinceTheLastReset(s: State, run: seq<Step>, m: int)
    requires Inv(s) && s.stats == NO_STATISTICS && Feasible(s, run) && LastReset(s, run, m)
    ensures LateReplies(After(s, run)) % COUNTER_MODULUS
            == (Failures(After(s, run).stats) + LateReplies(BaseState(s, run, m))) % COUNTER_MODULUS
  {
    LawsSinceTheLastReset(s, run, m);
    CongruentMeansEqualResidues(
      Failures(After(s, run).stats) + LateReplies(BaseState(s, run, m)), LateReplies(After(s, run)));
  }

  lemma {:induction false} NothingIsLateYet(s: State, run: seq<Step>)
    requires Init(s) && Feasible(s, run)
    ensures LastReset(s, run, -1) ==> BaseState(s, run, -1) == s
    ensures Between(s) == 0 && LateReplies(s) == 0
  {
    assert run[..0] == [];
    IdleTallies(s);
  }

  /** The law for a caller at rest that never reset its counters. */
  lemma {:induction false} IdleBacklog(s: State, run: seq<Step>)
    requires Init(s) && Feasible(s, run) && LastReset(s, run, -1) && AllIdle(After(s, run))
    ensures var e := After(s, run);
            (|e.outstanding| + e.lost) % COUNTER_MODULUS == (e.stats.timeouts + e.stats.receiveErrors) % COUNTER_MODULUS
  {
    LateWithoutReset(s, run);
    IdleLateness(After(s, run));
  }

  lemma {:induction false} LateWithoutReset(s: State, run: seq<Step>)
    requires Init(s) && Feasible(s, run) && LastReset(s, run, -1)
    ensures LateCounted(After(s, run), 0)
  {
    InitInv(s);
    LawsSinceTheLastReset(s, run, -1);
    NothingIsLateYet(s, run);
  }

  lemma {:induction false} IdleLateness(e: State)
    requires LateCounted(e, 0) && AllIdle(e)
    ensures (|e.outstanding| + e.lost) % COUNTER_MODULUS == Failures(e.stats) % COUNTER_MODULUS
  {
    IdleTallies(e);
    CongruentMeansEqualResidues(Failures(e.stats) + 0, LateReplies(e));
  }

  /** No counter has wrapped in a run of fewer than 2^64 steps, so there the law is an equation. */
  lemma {:induction false} BacklogOfShortRun(s: State, run: seq<Step>)
    requires Init(s) && Feasible(s, run) && LastReset(s, run, -1) && AllIdle(After(s, run))
    requires |run| < COUNTER_MODULUS
    ensures var e := After(s, run); |e.outstanding| + e.lost == e.stats.timeouts + e.stats.receiveErrors
  {
    var e := After(s, run);
    IdleBacklog(s, run);
    CountsAreShort(s, run);
    SmallResidues(|e.outstanding| + e.lost, Failures(e.stats));
  }

  lemma SmallResidues(a: nat, b: nat)
    requires a % COUNTER_MODULUS == b % COUNTER_MODULUS && a < COUNTER_MODULUS && b < COUNTER_MODULUS
    ensures a == b
  {
  }

  /** No run of n steps sends, loses or counts more than n times. */
  lemma {:induction false} CountsAreShort(s: State, run: seq<Step>)
    requires Init(s) && Feasible(s, run)
    ensures var e := After(s, run); |e.outstanding| + e.lost <= |run| && Failures(e.stats) <= |run|
  {
    if run != [] {
      var front, last := run[..|run| - 1], run[|run| - 1];
      CountsAreShort(s, front);
      InitInv(s);
      RunKeepsInv(s, front);
      StepCountsOnce(After(s, front), last);
    }
  }

  lemma {:induction false} StepCountsOnce(s: State, a: Step)
    requires SnapshotsOk(s) && Enabled(s, a)
    ensures var e := Stepped(s, a);
            |e.outstanding| + e.lost <= |s.outstanding| + s.lost + 1 && Failures(e.stats) <= Failures(s.stats) + 1
  {
  }

  /** Mutual exclusion, and the order of replies, in every reachable state: no two threads hold the
      same mutex; the replies taken so far carry strictly increasing tags, so no reply is taken
      twice; and the backlog is exactly the requests sent less the replies lost and taken. */
  lemma {:induction false} ExclusionOrderAndBacklog(s: State, run: seq<Step>)
    requires Init(s) && Feasible(s, run)
    ensures var e := After(s, run);
            && (forall m, t, u :: 0 <= t < u < |e.threads| ==> !(Holds(e.threads[t], m) && Holds(e.threads[u], m)))
            && (forall i, j :: 0 <= i < j < |e.log| ==> e.log[i].reply < e.log[j].reply)
            && |e.outstanding| == e.next - e.lost - e.consumed
  {
    InitInv(s);
    RunKeepsInv(s, run);
    var e := After(s, run);
    forall m, t, u | 0 <= t < u < |e.threads|
      ensures !(Holds(e.threads[t], m) && Holds(e.threads[u], m))
    {
      if Holds(e.threads[t], m) && Holds(e.threads[u], m) {
        OneHolder(e, m, t, u);
      }
    }
  }
}
