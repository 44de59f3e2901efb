/** Every counter counts its own events, in every interleaving of any number of threads. */
module Counters {
  import opened Bytes
  import opened Packets
  import opened Client
  import opened Exchange

  function Count(st: Statistics, k: Kind): Counter {
    match k
    case Sent => st.sent
    case SendError => st.sendErrors
    case Received => st.received
    case ReceiveError => st.receiveErrors
    case Timeout => st.timeouts
    case ChecksumError => st.checksumErrors
  }

  /** The event a counter is for: what the socket did, not what was counted. */
  predicate Happens(k: Kind, s: State, a: Step)
    requires Enabled(s, a)
  {
    match k
    case Sent => a.Transmit? && s.connected && a.o.Whole?
    case SendError => a.Transmit? && !(s.connected && a.o.Whole?)
    case Received => a.Collect? && a.c.Head? && Deserialized(Buffered(s.outstanding[0].bytes)).Some?
    case ChecksumError => a.Collect? && a.c.Head? && Deserialized(Buffered(s.outstanding[0].bytes)).None?
    case Timeout => a.Collect? && s.connected && a.c.NothingInTime?
    case ReceiveError => a.Collect? && (!s.connected || a.c.Failure?)
  }

  /** How often it happened in a run after step m. */
  function Happened(k: Kind, s: State, run: seq<Step>, m: int): nat
    requires Feasible(s, run)
  {
    if run == [] || |run| <= m + 1 then 0
    else Happened(k, s, run[..|run| - 1], m) + if Happens(k, After(s, run[..|run| - 1]), run[|run| - 1]) then 1 else 0
  }

  predicate IsUncounted(pc: Pc, k: Kind) {
    pc.Counting? && pc.kind == k && !pc.phase.Stored?
  }

  /** The threads that have still to count an event of a kind. */
  function Uncounted(k: Kind): Pc -> bool {
    pc => IsUncounted(pc, k)
  }

  ghost predicate KindCounted(s: State, k: Kind, events: int) {
    Congruent(Count(s.stats, k) + Tally(Uncounted(k), s.threads), events)
  }

  lemma {:induction false} CountMovesOne(st: Statistics, moved: Kind, k: Kind, uncounted: int, events: int)
    requires Congruent(Count(st, k) + uncounted, events)
    ensures Congruent(Count(Counted(st, moved), k) + uncounted - (if moved == k then 1 else 0), events)
  {
    var w :| Count(st, k) + uncounted == events + Wraps(w);
    var now := Count(Counted(st, moved), k) - (if moved == k then 1 else 0) - Count(st, k);
    assert now == Wraps(0) || now == Wraps(-1);
    var v := if now == Wraps(0) then 0 else -1;
    assert Count(Counted(st, moved), k) + uncounted - (if moved == k then 1 else 0) == events + Wraps(w + v);
  }

  lemma {:induction false} StoreKeepsKind(s: State, a: Step, k: Kind, events: int)
    requires SnapshotsOk(s) && KindCounted(s, k, events) && Enabled(s, a) && Counts(s, a)
    ensures KindCounted(Stepped(s, a), k, events) && !Happens(k, s, a)
  {
    OneThreadMoves(s, a);
    TallyUpdate(Uncounted(k), s.threads, a.t, Stepped(s, a).threads[a.t]);
    CountMovesOne(s.stats, s.threads[a.t].kind, k, Tally(Uncounted(k), s.threads), events);
  }

  lemma {:induction false} UncountedAlong(s: State, a: Step, k: Kind)
    requires Enabled(s, a) && !a.Lose? && !Counts(s, a)
    ensures IsUncounted(Stepped(s, a).threads[a.t], k) <==> IsUncounted(s.threads[a.t], k) || Happens(k, s, a)
    ensures !(IsUncounted(s.threads[a.t], k) && Happens(k, s, a))
  {
  }

  lemma {:induction false} OtherStepKeepsKind(s: State, a: Step, k: Kind, events: int)
    requires KindCounted(s, k, events) && Enabled(s, a) && !a.Lose? && !Counts(s, a) && !Resets(s, a)
    ensures KindCounted(Stepped(s, a), k, events + if Happens(k, s, a) then 1 else 0)
  {
    OneThreadMoves(s, a);
    UncountedAlong(s, a, k);
    TallyUpdate(Uncounted(k), s.threads, a.t, Stepped(s, a).threads[a.t]);
    ShiftCongruence(Count(s.stats, k) + Tally(Uncounted(k), s.threads), events, if Happens(k, s, a) then 1 else 0);
  }

  lemma ShiftCongruence(a: int, b: int, n: int)
    requires Congruent(a, b)
    ensures Congruent(a + n, b + n)
  {
    var k :| a == b + Wraps(k);
    assert a + n == b + n + Wraps(k);
  }

  lemma {:induction false} StepKeepsKind(s: State, a: Step, k: Kind, events: int)
    requires SnapshotsOk(s) && KindCounted(s, k, events) && Enabled(s, a) && !Resets(s, a)
    ensures KindCounted(Stepped(s, a), k, events + if Happens(k, s, a) then 1 else 0)
  {
    if a.Lose? {
    } else if Counts(s, a) {
      StoreKeepsKind(s, a, k, events);
    } else {
      OtherStepKeepsKind(s, a, k, events);
    }
  }

  lemma {:induction false} KindLasts(s: State, run: seq<Step>, m: int, k: Kind, base: int)
    requires Inv(s) && Feasible(s, run) && -1 <= m < |run| && Feasible(s, run[..m + 1])
    requires forall i :: m < i < |run| ==> !ResetsAt(s, run, i)
    requires KindCounted(After(s, run[..m + 1]), k, base)
    ensures KindCounted(After(s, run), k, Happened(k, s, run, m) + base)
  {
    if m == |run| - 1 {
      assert run[..m + 1] == run;
    } else {
      var front, last := run[..|run| - 1], run[|run| - 1];
      assert front[..m + 1] == run[..m + 1];
      forall i | m < i < |front|
        ensures !ResetsAt(s, front, i)
      {
        assert front[..i] == run[..i] && !ResetsAt(s, run, i);
      }
      KindLasts(s, front, m, k, base);
      assert !ResetsAt(s, run, |run| - 1);
      RunKeepsInv(s, front);
      StepKeepsKind(After(s, front), last, k, Happened(k, s, front, m) + base);
    }
  }

  lemma {:induction false} KindStarts(s: State, k: Kind)
    requires s.stats == Statistics(0, 0, 0, 0, 0, 0)
    ensures KindCounted(s, k, Tally(Uncounted(k), s.threads))
  {
    NothingCounted(s.stats, k);
    EqualIsCongruent(Count(s.stats, k) + Tally(Uncounted(k), s.threads), Tally(Uncounted(k), s.threads));
  }

  lemma NothingCounted(st: Statistics, k: Kind)
    requires st == Statistics(0, 0, 0, 0, 0, 0)
    ensures Count(st, k) == 0
  {
  }

  lemma {:induction false} KindStartsAtTheBase(s: State, run: seq<Step>, m: int, k: Kind)
    requires s.stats == NO_STATISTICS && Feasible(s, run) && LastReset(s, run, m)
    ensures KindCounted(BaseState(s, run, m), k, Tally(Uncounted(k), BaseState(s, run, m).threads))
  {
    if m >= 0 {
      var front := run[..m + 1];
      assert front[..m] == run[..m] && front[m] == run[m];
    }
    KindStarts(BaseState(s, run, m), k);
  }

  lemma {:induction false} KindSinceTheLastReset(s: State, run: seq<Step>, m: int, k: Kind)
    requires Inv(s) && s.stats == NO_STATISTICS && Feasible(s, run) && LastReset(s, run, m)
    ensures KindCounted(After(s, run), k,
                        Happened(k, s, run, m) + Tally(Uncounted(k), BaseState(s, run, m).threads))
  {
    PrefixIsFeasible(s, run, m + 1);
    KindStartsAtTheBase(s, run, m, k);
    KindLasts(s, run, m, k, Tally(Uncounted(k), BaseState(s, run, m).threads));
  }

  /** Each of the six counters, in every interleaving of any number of threads and resets: what it
      shows, plus the events still to be counted, is what happened since the last reset, plus the
      events uncounted then; modulo 2^64. */
  lemma {:induction false} EveryCounterCounts(s: State, run: seq<Step>, m: int, k: Kind)
    requires Init(s) && Feasible(s, run) && LastReset(s, run, m)
    ensures var e := After(s, run);
            (Count(e.stats, k) + Tally(Uncounted(k), e.threads)) % COUNTER_MODULUS
            == (Happened(k, s, run, m) + Tally(Uncounted(k), BaseState(s, run, m).threads)) % COUNTER_MODULUS
  {
    InitInv(s);
    KindSinceTheLastReset(s, run, m, k);
    var e := After(s, run);
    CongruentMeansEqualResidues(
      Count(e.stats, k) + Tally(Uncounted(k), e.threads),
      Happened(k, s, run, m) + Tally(Uncounted(k), BaseState(s, run, m).threads));
  }

  lemma {:induction false} IdleCounter(s: State, run: seq<Step>, k: Kind)
    requires Init(s) && Feasible(s, run) && LastReset(s, run, -1) && AllIdle(After(s, run))
    ensures Count(After(s, run).stats, k) == Happened(k, s, run, -1) % COUNTER_MODULUS
  {
    EveryCounterCounts(s, run, -1, k);
    assert run[..0] == [];
    NobodyToTally(Uncounted(k), s.threads);
    NobodyToTally(Uncounted(k), After(s, run).threads);
  }

  /** The replies taken so far that read, or that do not. */
  function Logged(log: seq<Answer>, good: bool): nat {
    if log == [] then 0
    else Logged(log[..|log| - 1], good) + if log[|log| - 1].packet.Some? == good then 1 else 0
  }

  lemma {:induction false} OneMoreLogged(log: seq<Answer>, good: bool, answer: Answer)
    ensures Logged(log + [answer], good) == Logged(log, good) + if answer.packet.Some? == good then 1 else 0
  {
    assert (log + [answer])[..|log + [answer]| - 1] == log;
  }

  lemma {:induction false} TakesAreLogged(s: State, run: seq<Step>)
    requires Init(s) && Feasible(s, run)
    ensures var e := After(s, run);
            && Happened(Sent, s, run, -1) == e.next
            && Happened(Received, s, run, -1) == Logged(e.log, true)
            && Happened(ChecksumError, s, run, -1) == Logged(e.log, false)
  {
    if run != [] {
      var front, a := run[..|run| - 1], run[|run| - 1];
      TakesAreLogged(s, front);
      StepIsLogged(After(s, front), a);
    }
  }

  lemma {:induction false} StepIsLogged(e: State, a: Step)
    requires Enabled(e, a)
    ensures Stepped(e, a).next == e.next + if Happens(Sent, e, a) then 1 else 0
    ensures Logged(Stepped(e, a).log, true) == Logged(e.log, true) + if Happens(Received, e, a) then 1 else 0
    ensures Logged(Stepped(e, a).log, false) == Logged(e.log, false) + if Happens(ChecksumError, e, a) then 1 else 0
  {
    if a.Collect? && a.c.Head? {
      var answer := Stepped(e, a).log[|e.log|];
      OneMoreLogged(e.log, true, answer);
      OneMoreLogged(e.log, false, answer);
    }
  }

  /** With all threads at rest and no reset, by name: packets sent are the requests that went out
      whole, packets received the replies taken that read, checksum errors those that do not, send
      errors the requests refused or cut short, timeouts and receive errors the waits that ended so. */
  lemma {:induction false} CountersAtRest(s: State, run: seq<Step>)
    requires Init(s) && Feasible(s, run) && LastReset(s, run, -1) && AllIdle(After(s, run))
    ensures var e := After(s, run);
            && e.stats.sent == e.next % COUNTER_MODULUS
            && e.stats.received == Logged(e.log, true) % COUNTER_MODULUS
            && e.stats.checksumErrors == Logged(e.log, false) % COUNTER_MODULUS
            && e.stats.sendErrors == Happened(SendError, s, run, -1) % COUNTER_MODULUS
            && e.stats.timeouts == Happened(Timeout, s, run, -1) % COUNTER_MODULUS
            && e.stats.receiveErrors == Happened(ReceiveError, s, run, -1) % COUNTER_MODULUS
  {
    IdleCounter(s, run, Sent);
    IdleCounter(s, run, Received);
    IdleCounter(s, run, ChecksumError);
    IdleCounter(s, run, SendError);
    IdleCounter(s, run, Timeout);
    IdleCounter(s, run, ReceiveError);
    TakesAreLogged(s, run);
  }
}
