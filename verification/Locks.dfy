/** Every mutex of the SDK and the join in stop: no set of threads can wait for each other forever. */
module Locks {
  import opened Bytes

  datatype Lock =
    | InitLock | ImuData | ImuCalibration | EncoderData | EncoderCalibration
    | StatusLock | SendLock | ReceiveLock | StatsLock

  /** Nested acquisitions only ever go up in this order. */
  function Rank(l: Lock): nat {
    match l
    case InitLock => 0
    case ImuData => 1
    case ImuCalibration => 2
    case EncoderData => 3
    case EncoderCalibration => 4
    case StatusLock => 5
    case SendLock => 6
    case ReceiveLock => 7
    case StatsLock => 8
  }

  /** Taking several locks at once is all or nothing: the taker holds none of them while it waits. */
  datatype Op = Take(locks: set<Lock>) | Release(locks: set<Lock>) | Await

  datatype Thread = Thread(held: set<Lock>, todo: seq<Op>)

  /** Thread 0 is the updater; Await is the join on it. A thread with nothing to do may begin a call. */
  type State = seq<Thread>

  predicate IsFree(s: State, locks: set<Lock>) {
    forall t :: 0 <= t < |s| ==> s[t].held !! locks
  }

  predicate CanMove(s: State, t: nat) {
    && t < |s| && s[t].todo != []
    && match s[t].todo[0]
       case Take(locks) => IsFree(s, locks)
       case Release(_) => true
       case Await => s[0].todo == []
  }

  function Moved(th: Thread): Thread
    requires th.todo != []
  {
    match th.todo[0]
    case Take(locks) => Thread(th.held + locks, th.todo[1..])
    case Release(locks) => Thread(th.held - locks, th.todo[1..])
    case Await => Thread(th.held, th.todo[1..])
  }

  datatype Step = Move(t: nat) | Begin(t: nat, call: Call)

  predicate Enabled(s: State, a: Step) {
    match a
    case Move(t) => CanMove(s, t)
    case Begin(t, call) => t < |s| && s[t].todo == [] && (t == 0 ==> call.Plain?)
  }

  function Stepped(s: State, a: Step): State
    requires Enabled(s, a)
  {
    match a
    case Move(t) => s[t := Moved(s[t])]
    case Begin(t, call) => s[t := Thread(s[t].held, Program(call))]
  }

  predicate Feasible(s: State, run: seq<Step>)
    decreases |run|, 0
  {
    run == [] || (Feasible(s, run[..|run| - 1]) && Enabled(After(s, run[..|run| - 1]), run[|run| - 1]))
  }

  function After(s: State, run: seq<Step>): State
    requires Feasible(s, run)
    decreases |run|, 1
  {
    if run == [] then s else Stepped(After(s, run[..|run| - 1]), run[|run| - 1])
  }

  // ---- the critical sections of the source ----

  /** One maximal stretch of the source between two points where its thread holds no lock but init. */
  datatype Section =
    | SendPacket | ReceivePacket
    | ConnectOrDisconnect
    | StatisticsAccess
    | StatusAccess
    | EncoderDataAccess | EncoderCalibrationAccess
    | EncoderZeroInstall
    | ImuDataAccess | ImuCalibrationAccess
    | ImuInitialStore
    | ImuZeroInstall

  function SectionOps(c: Section): seq<Op> {
    match c
    case SendPacket => Nested(SendLock, StatsLock)
    case ReceivePacket => Nested(ReceiveLock, StatsLock)
    case ConnectOrDisconnect => Nested(SendLock, ReceiveLock)
    case StatisticsAccess => Single({StatsLock})
    case StatusAccess => Single({StatusLock})
    case EncoderDataAccess => Single({EncoderData})
    case EncoderCalibrationAccess => Single({EncoderCalibration})
    case EncoderZeroInstall => Single({EncoderCalibration, EncoderData})
    case ImuDataAccess => Single({ImuData})
    case ImuCalibrationAccess => Single({ImuCalibration})
    case ImuInitialStore => Nested(ImuData, ImuCalibration)
    case ImuZeroInstall => Single({ImuCalibration, ImuData})
  }

  function Single(locks: set<Lock>): seq<Op> {
    [Take(locks), Release(locks)]
  }

  function Nested(outer: Lock, inner: Lock): seq<Op> {
    [Take({outer}), Take({inner}), Release({inner}), Release({outer})]
  }

  function SectionsOps(cs: seq<Section>): seq<Op> {
    if cs == [] then [] else SectionsOps(cs[..|cs| - 1]) + SectionOps(cs[|cs| - 1])
  }

  /** Every API call, and the updater's whole life, is a sequence of sections chosen by what the
      network and the flags answer; initialize and shutdown run theirs under the init lock, and
      stop, alone or inside shutdown, joins the updater. */
  datatype Call =
    | Plain(sections: seq<Section>)
    | StopCall
    | UnderInit(joins: bool, sections: seq<Section>)

  function JoinOps(joins: bool): seq<Op> {
    if joins then [Await] else []
  }

  function Program(c: Call): seq<Op> {
    match c
    case Plain(sections) => SectionsOps(sections)
    case StopCall => [Await]
    case UnderInit(joins, sections) =>
      [Take({InitLock})] + (JoinOps(joins) + SectionsOps(sections)) + [Release({InitLock})]
  }

  // ---- the discipline ----

  /** What is held after running ops from held, if every take goes up in rank, every release is of
      something held, and a join holds at most the init lock. */
  function Ends(held: set<Lock>, ops: seq<Op>): Option<set<Lock>>
    decreases |ops|
  {
    if ops == [] then Some(held)
    else match ops[0]
      case Take(locks) => if Above(held, locks) then Ends(held + locks, ops[1..]) else None
      case Release(locks) => if locks <= held then Ends(held - locks, ops[1..]) else None
      case Await => if held <= {InitLock} then Ends(held, ops[1..]) else None
  }

  predicate Above(held: set<Lock>, locks: set<Lock>) {
    forall l, m :: l in held && m in locks ==> Rank(l) < Rank(m)
  }

  lemma {:induction false} EndsConcat(held: set<Lock>, a: seq<Op>, b: seq<Op>)
    ensures Ends(held, a + b) == if Ends(held, a).None? then None else Ends(Ends(held, a).value, b)
    decreases |a|
  {
    if a == [] {
      assert a + b == b;
    } else {
      assert (a + b)[1..] == a[1..] + b;
      match a[0]
      case Take(locks) => EndsConcat(held + locks, a[1..], b);
      case Release(locks) => EndsConcat(held - locks, a[1..], b);
      case Await => EndsConcat(held, a[1..], b);
    }
  }

  /** Each section, run with no lock or with the init lock, obeys the discipline and gives back what it took. */
  lemma {:induction false} SectionEnds(held: set<Lock>, c: Section)
    requires held <= {InitLock}
    ensures Ends(held, SectionOps(c)) == Some(held)
  {
    match c
    case SendPacket => NestedEnds(held, SendLock, StatsLock);
    case ReceivePacket => NestedEnds(held, ReceiveLock, StatsLock);
    case ConnectOrDisconnect => NestedEnds(held, SendLock, ReceiveLock);
    case ImuInitialStore => NestedEnds(held, ImuData, ImuCalibration);
    case _ => SingleEnds(held, SectionOps(c)[0].locks);
  }

  lemma {:induction false} SingleEnds(held: set<Lock>, locks: set<Lock>)
    requires Above(held, locks)
    ensures Ends(held, Single(locks)) == Some(held)
  {
    assert held + locks - locks == held by {
      assert held !! locks;
    }
    assert Single(locks)[1..] == [Release(locks)];
    assert Ends(held + locks, [Release(locks)]) == Ends(held, []);
  }

  lemma {:induction false} NestedEnds(held: set<Lock>, outer: Lock, inner: Lock)
    requires held <= {InitLock} && 0 < Rank(outer) < Rank(inner)
    ensures Ends(held, Nested(outer, inner)) == Some(held)
  {
    var take, middle, release := [Take({outer})], Single({inner}), [Release({outer})];
    SingleEnds(held + {outer}, {inner});
    assert take[1..] == [] && release[1..] == [];
    EndsConcat(held, take, middle);
    EndsConcat(held, take + middle, release);
    assert Nested(outer, inner) == take + middle + release;
    assert held + {outer} - {outer} == held;
  }

  lemma {:induction false} SectionsEnd(held: set<Lock>, cs: seq<Section>)
    requires held <= {InitLock}
    ensures Ends(held, SectionsOps(cs)) == Some(held)
  {
    if cs != [] {
      SectionsEnd(held, cs[..|cs| - 1]);
      SectionEnds(held, cs[|cs| - 1]);
      EndsConcat(held, SectionsOps(cs[..|cs| - 1]), SectionOps(cs[|cs| - 1]));
    }
  }

  /** Every call of the SDK obeys the discipline from start to end. */
  lemma {:induction false} EveryCallIsDisciplined(c: Call)
    ensures Ends({}, Program(c)) == Some({})
  {
    match c
    case Plain(sections) => SectionsEnd({}, sections);
    case StopCall =>
      assert [Await][1..] == [];
    case UnderInit(joins, sections) =>
      var held := {InitLock};
      var take, body, release := [Take(held)], JoinOps(joins) + SectionsOps(sections), [Release(held)];
      SectionsEnd(held, sections);
      EndsConcat(held, JoinOps(joins), SectionsOps(sections));
      assert [Await][1..] == [];
      EndsConcat({}, take, body);
      assert take[1..] == [] && release[1..] == [];
      assert {} + held == held && held - held == {};
      EndsConcat({}, take + body, release);
  }

  /** The updater never joins and never takes the init lock. */
  predicate UpdaterOp(o: Op) {
    match o
    case Take(locks) => InitLock !in locks
    case Release(_) => true
    case Await => false
  }

  lemma {:induction false} PlainSuitsTheUpdater(cs: seq<Section>)
    ensures forall o :: o in SectionsOps(cs) ==> UpdaterOp(o)
  {
    if cs != [] {
      PlainSuitsTheUpdater(cs[..|cs| - 1]);
    }
  }

  ghost predicate Disciplined(th: Thread) {
    Ends(th.held, th.todo) == Some({})
  }

  ghost predicate Inv(s: State) {
    && |s| > 0
    && (forall t :: 0 <= t < |s| ==> Disciplined(s[t]))
    && (forall t, u :: 0 <= t < u < |s| ==> s[t].held !! s[u].held)
    && InitLock !in s[0].held
    && (forall o :: o in s[0].todo ==> UpdaterOp(o))
  }

  lemma {:induction false} MoveKeepsDiscipline(th: Thread)
    requires Disciplined(th) && th.todo != []
    ensures Disciplined(Moved(th))
  {
  }

  lemma {:induction false} MoveKeepsInv(s: State, t: nat)
    requires Inv(s) && CanMove(s, t)
    ensures Inv(Stepped(s, Move(t)))
  {
    MoveKeepsDiscipline(s[t]);
    var op := s[t].todo[0];
    assert op in s[t].todo;
    forall u | 0 <= u < |s| && u != t
      ensures Moved(s[t]).held !! s[u].held
    {
      assert s[t].held !! s[u].held;
    }
  }

  lemma {:induction false} BeginKeepsInv(s: State, t: nat, call: Call)
    requires Inv(s) && Enabled(s, Begin(t, call))
    ensures Inv(Stepped(s, Begin(t, call)))
  {
    assert Disciplined(s[t]);
    EveryCallIsDisciplined(call);
    if call.Plain? {
      PlainSuitsTheUpdater(call.sections);
    }
  }

  lemma {:induction false} RunKeepsInv(s: State, run: seq<Step>)
    requires Inv(s) && Feasible(s, run)
    ensures Inv(After(s, run))
  {
    if run != [] {
      var front := run[..|run| - 1];
      RunKeepsInv(s, front);
      match run[|run| - 1]
      case Move(t) => MoveKeepsInv(After(s, front), t);
      case Begin(t, call) => BeginKeepsInv(After(s, front), t, call);
    }
  }

  // ---- progress ----

  ghost predicate IsTop(s: State, t: nat, l: Lock) {
    && t < |s| && l in s[t].held
    && forall u, m :: 0 <= u < |s| && m in s[u].held ==> Rank(m) <= Rank(l)
  }

  /** Some thread holds a lock of the highest rank held. */
  lemma {:induction false} TopHolder(s: State, t: nat, l: Lock) returns (top: nat, highest: Lock)
    requires t < |s| && l in s[t].held
    ensures IsTop(s, top, highest)
    decreases 8 - Rank(l)
  {
    if u, m :| 0 <= u < |s| && m in s[u].held && Rank(m) > Rank(l) {
      top, highest := TopHolder(s, u, m);
    } else {
      top, highest := t, l;
    }
  }

  lemma {:induction false} UpdaterMovesWhenOnlyInitIsHeld(s: State)
    requires Inv(s) && s[0].todo != []
    requires forall u :: 0 <= u < |s| ==> s[u].held <= {InitLock}
    ensures CanMove(s, 0)
  {
    assert s[0].todo[0] in s[0].todo;
    assert UpdaterOp(s[0].todo[0]);
  }

  lemma {:induction false} TopHolderMoves(s: State, t: nat, l: Lock)
    requires Inv(s) && IsTop(s, t, l)
    ensures CanMove(s, t) || CanMove(s, 0)
  {
    assert Disciplined(s[t]);
    var op := s[t].todo[0];
    if op.Take? {
      assert Above(s[t].held, op.locks);
      assert IsFree(s, op.locks);
    } else if op.Await? && s[0].todo != [] {
      assert s[t].held <= {InitLock} && l == InitLock;
      forall u | 0 <= u < |s|
        ensures s[u].held <= {InitLock}
      {
        assert forall m :: m in s[u].held ==> Rank(m) <= 0;
      }
      UpdaterMovesWhenOnlyInitIsHeld(s);
    }
  }

  /** Every program has run to its end and every lock is free. */
  predicate AtRest(s: State) {
    forall t :: 0 <= t < |s| ==> s[t] == Thread({}, [])
  }

  lemma {:induction false} RestInv(s: State)
    requires |s| > 0 && AtRest(s)
    ensures Inv(s)
  {
    assert forall t :: 0 <= t < |s| ==> Disciplined(s[t]);
  }

  lemma {:induction false} SomeoneMoves(e: State, unfinished: nat)
    requires Inv(e) && unfinished < |e| && e[unfinished].todo != []
    ensures exists t :: CanMove(e, t)
  {
    if t, l :| 0 <= t < |e| && l in e[t].held {
      var top, highest := TopHolder(e, t, l);
      TopHolderMoves(e, top, highest);
    } else if e[unfinished].todo[0].Await? && e[0].todo != [] {
      UpdaterMovesWhenOnlyInitIsHeld(e);
    } else {
      assert CanMove(e, unfinished);
    }
  }

  /** Deadlock freedom: from any start with nothing held and nothing begun, over every interleaving
      of every sequence of calls by any number of threads, a state with unfinished work always has a
      thread that can move. */
  lemma {:induction false} NoDeadlock(s: State, run: seq<Step>, unfinished: nat)
    requires |s| > 0 && AtRest(s) && Feasible(s, run)
    requires unfinished < |After(s, run)| && After(s, run)[unfinished].todo != []
    ensures exists t :: CanMove(After(s, run), t)
  {
    RestInv(s);
    RunKeepsInv(s, run);
    SomeoneMoves(After(s, run), unfinished);
  }

  // ---- everything begun is finished ----

  /** The operations all threads have still to do. */
  function Left(s: State): nat {
    if s == [] then 0 else Left(s[..|s| - 1]) + |s[|s| - 1].todo|
  }

  lemma {:induction false} LeftUpdate(s: State, t: nat, th: Thread)
    requires t < |s|
    ensures Left(s[t := th]) == Left(s) - |s[t].todo| + |th.todo|
  {
    var n := |s| - 1;
    if t == n {
      assert s[t := th][..n] == s[..n];
    } else {
      assert s[t := th][..n] == s[..n][t := th];
      LeftUpdate(s[..n], t, th);
    }
  }

  lemma {:induction false} SomethingLeft(s: State) returns (unfinished: nat)
    requires Left(s) > 0
    ensures unfinished < |s| && s[unfinished].todo != []
  {
    if s[|s| - 1].todo != [] {
      unfinished := |s| - 1;
    } else {
      unfinished := SomethingLeft(s[..|s| - 1]);
    }
  }

  lemma {:induction false} NothingLeft(s: State, t: nat)
    requires Left(s) == 0 && t < |s|
    ensures s[t].todo == []
  {
    if t < |s| - 1 {
      NothingLeft(s[..|s| - 1], t);
    }
  }

  predicate OnlyMoves(run: seq<Step>) {
    forall i :: 0 <= i < |run| ==> run[i].Move?
  }

  /** Every move uses up one operation, whoever makes it. */
  lemma {:induction false} MovesUseUp(s: State, run: seq<Step>)
    requires Feasible(s, run) && OnlyMoves(run)
    ensures |run| + Left(After(s, run)) == Left(s)
  {
    if run != [] {
      var front, a := run[..|run| - 1], run[|run| - 1];
      MovesUseUp(s, front);
      var e := After(s, front);
      LeftUpdate(e, a.t, Moved(e[a.t]));
    }
  }

  lemma {:induction false} Extend(s: State, run: seq<Step>, a: Step)
    requires Feasible(s, run) && Enabled(After(s, run), a)
    ensures Feasible(s, run + [a]) && After(s, run + [a]) == Stepped(After(s, run), a)
  {
    assert (run + [a])[..|run + [a]| - 1] == run;
  }

  lemma {:induction false} DoneIsAtRest(s: State)
    requires Inv(s) && Left(s) == 0
    ensures AtRest(s)
  {
    forall t | 0 <= t < |s|
      ensures s[t] == Thread({}, [])
    {
      NothingLeft(s, t);
      assert Disciplined(s[t]);
    }
  }

  ghost predicate Finishes(e: State, moves: seq<Step>) {
    Feasible(e, moves) && OnlyMoves(moves) && |moves| == Left(e) && AtRest(After(e, moves))
  }

  lemma {:induction false} FinishFrom(e: State, moves: seq<Step>)
    requires Inv(e) && Feasible(e, moves) && OnlyMoves(moves)
    ensures exists more :: Finishes(e, more)
    decreases Left(After(e, moves))
  {
    if Left(After(e, moves)) == 0 {
      AllMovesFinish(e, moves);
    } else {
      var further := OneMoveFurther(e, moves);
      FinishFrom(e, further);
    }
  }

  lemma {:induction false} AllMovesFinish(e: State, moves: seq<Step>)
    requires Inv(e) && Feasible(e, moves) && OnlyMoves(moves) && Left(After(e, moves)) == 0
    ensures Finishes(e, moves)
  {
    RunKeepsInv(e, moves);
    MovesUseUp(e, moves);
    DoneIsAtRest(After(e, moves));
  }

  lemma {:induction false} SomeMove(s: State) returns (t: nat)
    requires Inv(s) && Left(s) > 0
    ensures CanMove(s, t)
  {
    var unfinished := SomethingLeft(s);
    SomeoneMoves(s, unfinished);
    t :| CanMove(s, t);
  }

  lemma {:induction false} OneMoveFurther(e: State, moves: seq<Step>) returns (further: seq<Step>)
    requires Inv(e) && Feasible(e, moves) && OnlyMoves(moves) && Left(After(e, moves)) > 0
    ensures Feasible(e, further) && OnlyMoves(further) && Left(After(e, further)) < Left(After(e, moves))
  {
    RunKeepsInv(e, moves);
    var t := SomeMove(After(e, moves));
    Extend(e, moves, Move(t));
    further := moves + [Move(t)];
    MovesUseUp(e, moves);
    MovesUseUp(e, further);
  }

  /** Whatever has begun can be finished: from every reachable state, as long as no new call begins,
      the threads make at most as many moves as they have operations left, whatever the scheduler
      does; if they stop short of that, one of them can still move; and some schedule of exactly that
      many moves brings every program to its end with every lock free. */
  lemma {:induction false} EverythingCanFinish(s: State, run: seq<Step>, moves: seq<Step>)
    requires |s| > 0 && AtRest(s) && Feasible(s, run) && Feasible(After(s, run), moves) && OnlyMoves(moves)
    ensures var e := After(s, run);
            var now := After(e, moves);
            && |moves| + Left(now) == Left(e)
            && (if Left(now) == 0 then AtRest(now) else exists t :: CanMove(now, t))
            && exists more :: Finishes(e, more)
  {
    var e := After(s, run);
    RestInv(s);
    RunKeepsInv(s, run);
    RunKeepsInv(e, moves);
    MovesUseUp(e, moves);
    if Left(After(e, moves)) == 0 {
      DoneIsAtRest(After(e, moves));
    } else {
      var unfinished := SomethingLeft(After(e, moves));
      SomeoneMoves(After(e, moves), unfinished);
    }
    FinishFrom(e, []);
  }
}
