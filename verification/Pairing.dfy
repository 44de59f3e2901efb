/** Which request a returned reply answers: for any number of callers replies are taken in the order
    in which the requests were sent, and so who gets which is decided by the order of the takers. */
module Pairing {
  import opened Bytes
  import opened Packets
  import opened Client
  import opened Exchange

  lemma {:induction false} RunKeepsThreadCount(s: State, run: seq<Step>)
    requires Feasible(s, run)
    ensures |After(s, run).threads| == |s.threads|
  {
    if run != [] {
      RunKeepsThreadCount(s, run[..|run| - 1]);
    }
  }

  /** One caller, any run: the reply an exchange takes never answers a later request, and it answers
      the exchange's own request exactly when no earlier reply is outstanding. */
  lemma {:induction false} OwnReplyIffNothingEarlier(s: State, run: seq<Step>)
    requires Init(s) && |s.threads| == 1 && Feasible(s, run)
    requires Enabled(After(s, run), Collect(0, Head))
    ensures var e := After(s, run);
            var log := Stepped(e, Collect(0, Head)).log;
            var answer := log[|log| - 1];
            && answer.request == e.next - 1
            && answer.reply <= answer.request
            && (answer.reply == answer.request
                <==> forall j :: 0 <= j < |e.outstanding| ==> e.outstanding[j].tag >= answer.request)
  {
    InitInv(s);
    RunKeepsInv(s, run);
    RunKeepsThreadCount(s, run);
    var e := After(s, run);
    assert e.outstanding[0].tag < e.next;
  }

  // ---- a steady backlog ----

  /** Steps in which nothing is lost, late or refused. */
  predicate Smooth(s: State, a: Step) {
    match a
    case Lose(_) => false
    case Transmit(_, o, _) => s.connected && o.Whole?
    case Collect(_, c) => c.Head?
    case _ => true
  }

  predicate SmoothRun(s: State, run: seq<Step>)
    requires Feasible(s, run)
  {
    run == [] || (SmoothRun(s, run[..|run| - 1]) && Smooth(After(s, run[..|run| - 1]), run[|run| - 1]))
  }

  /** The i-th reply a smooth run takes: first the backlog it starts with, then its own replies. */
  function TagAt(s: State, i: nat): nat {
    if i < |s.outstanding| then s.outstanding[i].tag else s.next + i - |s.outstanding|
  }

  /** Where a smooth run of any callers stands after j replies were taken. */
  ghost predicate Steady(s: State, e: State) {
    var j := |e.log| - |s.log|;
    && j >= 0 && e.log[..|s.log|] == s.log && e.next >= s.next
    && |e.outstanding| == |s.outstanding| + e.next - s.next - j
    && (forall i :: 0 <= i < |e.outstanding| ==> e.outstanding[i].tag == TagAt(s, j + i))
    && (forall i :: |s.log| <= i < |e.log| ==> e.log[i].reply == TagAt(s, i - |s.log|))
  }

  lemma {:induction false} TakeKeepsSteady(s: State, e: State, t: nat)
    requires Steady(s, e) && Enabled(e, Collect(t, Head))
    ensures Steady(s, Stepped(e, Collect(t, Head)))
  {
    var e' := Stepped(e, Collect(t, Head));
    var j := |e.log| - |s.log|;
    assert forall i :: 0 <= i < |e'.outstanding| ==> e'.outstanding[i] == e.outstanding[i + 1];
    assert e'.log[..|s.log|] == e.log[..|s.log|];
    assert e.outstanding[0].tag == TagAt(s, j + 0);
  }

  lemma {:induction false} SendKeepsSteady(s: State, e: State, a: Step)
    requires Steady(s, e) && a.Transmit? && Enabled(e, a) && Smooth(e, a)
    ensures Steady(s, Stepped(e, a))
  {
    var e' := Stepped(e, a);
    assert e'.outstanding[|e.outstanding|].tag == e.next;
    assert forall i :: 0 <= i < |e.outstanding| ==> e'.outstanding[i] == e.outstanding[i];
  }

  lemma {:induction false} OtherStepsSpareTheChannel(e: State, a: Step)
    requires Enabled(e, a) && !a.Lose? && !a.Transmit? && !a.Collect?
    ensures var e' := Stepped(e, a);
            && e'.outstanding == e.outstanding && e'.log == e.log && e'.next == e.next
            && e'.threads == e.threads[a.t := e'.threads[a.t]]
            && (InFlight(e'.threads[a.t]) <==> InFlight(e.threads[a.t]))
            && (InFlight(e.threads[a.t]) ==> e'.threads[a.t].request == e.threads[a.t].request)
  {
  }

  lemma {:induction false} StepKeepsSteady(s: State, e: State, a: Step)
    requires Steady(s, e) && Enabled(e, a) && Smooth(e, a)
    ensures Steady(s, Stepped(e, a))
  {
    if a.Collect? {
      TakeKeepsSteady(s, e, a.t);
    } else if a.Transmit? {
      SendKeepsSteady(s, e, a);
    } else {
      OtherStepsSpareTheChannel(e, a);
    }
  }

  /** Any number of callers: as long as nothing is lost, late or refused, replies are taken in the
      order of their requests, the backlog first; and what is outstanding is the backlog plus what
      was sent less what was taken. */
  lemma {:induction false} RepliesComeInSendOrder(s: State, run: seq<Step>)
    requires Feasible(s, run) && SmoothRun(s, run)
    ensures Steady(s, After(s, run))
  {
    if run != [] {
      RepliesComeInSendOrder(s, run[..|run| - 1]);
      StepKeepsSteady(s, After(s, run[..|run| - 1]), run[|run| - 1]);
    }
  }

  // ---- who takes them ----

  /** Outstanding replies answer requests already sent: so in every reachable state. */
  predicate OldTags(s: State) {
    forall j :: 0 <= j < |s.outstanding| ==> s.outstanding[j].tag < s.next
  }

  predicate NobodyInFlight(s: State) {
    forall t :: 0 <= t < |s.threads| ==> !InFlight(s.threads[t])
  }

  predicate IsOut(pc: Pc, r: nat) {
    InFlight(pc) && pc.request == r
  }

  /** The threads that are out with a request. */
  function Out(r: nat): Pc -> bool {
    pc => IsOut(pc, r)
  }

  /** How often a request is answered in the log from an index on. */
  function Answered(log: seq<Answer>, from: nat, r: nat): nat {
    if |log| <= from then 0
    else Answered(log[..|log| - 1], from, r) + if log[|log| - 1].request == r then 1 else 0
  }

  lemma {:induction false} OneMoreAnswered(log: seq<Answer>, from: nat, r: nat, answer: Answer)
    requires from <= |log|
    ensures Answered(log + [answer], from, r) == Answered(log, from, r) + if answer.request == r then 1 else 0
  {
    assert (log + [answer])[..|log + [answer]| - 1] == log;
  }

  lemma {:induction false} AnsweredSomewhere(log: seq<Answer>, from: nat, r: nat, i: nat)
    requires from <= i < |log| && log[i].request == r
    ensures Answered(log, from, r) >= 1
  {
    if i < |log| - 1 {
      AnsweredSomewhere(log[..|log| - 1], from, r, i);
    }
  }

  /** A request that is out, or sent, since s has been answered once or is still out, and no other has. */
  predicate Accounted(s: State, e: State, r: nat) {
    && |s.log| <= |e.log| && s.next <= e.next
    && Answered(e.log, |s.log|, r) + Tally(Out(r), e.threads)
       == Tally(Out(r), s.threads) + if s.next <= r < e.next then 1 else 0
  }

  lemma {:induction false} SendIsAccounted(s: State, e: State, a: Step, r: nat)
    requires Accounted(s, e, r) && a.Transmit? && Enabled(e, a) && Smooth(e, a)
    ensures Accounted(s, Stepped(e, a), r)
  {
    TallyUpdate(Out(r), e.threads, a.t, Stepped(e, a).threads[a.t]);
  }

  lemma {:induction false} TakeIsAccounted(s: State, e: State, t: nat, r: nat)
    requires Accounted(s, e, r) && Enabled(e, Collect(t, Head))
    ensures Accounted(s, Stepped(e, Collect(t, Head)), r)
  {
    var e' := Stepped(e, Collect(t, Head));
    TallyUpdate(Out(r), e.threads, t, e'.threads[t]);
    OneMoreAnswered(e.log, |s.log|, r, e'.log[|e.log|]);
  }

  lemma {:induction false} OtherStepIsAccounted(s: State, e: State, a: Step, r: nat)
    requires Accounted(s, e, r) && Enabled(e, a) && !a.Lose? && !a.Transmit? && !a.Collect?
    ensures Accounted(s, Stepped(e, a), r)
  {
    OtherStepsSpareTheChannel(e, a);
    TallyUpdate(Out(r), e.threads, a.t, Stepped(e, a).threads[a.t]);
  }

  lemma {:induction false} SmoothRunIsAccounted(s: State, run: seq<Step>, r: nat)
    requires Feasible(s, run) && SmoothRun(s, run)
    ensures Accounted(s, After(s, run), r)
  {
    if run != [] {
      var front, a := run[..|run| - 1], run[|run| - 1];
      SmoothRunIsAccounted(s, front, r);
      if a.Collect? {
        TakeIsAccounted(s, After(s, front), a.t, r);
      } else if a.Transmit? {
        SendIsAccounted(s, After(s, front), a, r);
      } else {
        OtherStepIsAccounted(s, After(s, front), a, r);
      }
    }
  }

  lemma {:induction false} NobodyIsOut(ts: seq<Pc>, r: nat)
    requires forall t :: 0 <= t < |ts| ==> !InFlight(ts[t])
    ensures Tally(Out(r), ts) == 0
  {
    if ts != [] {
      NobodyIsOut(ts[..|ts| - 1], r);
    }
  }

  lemma {:induction false} LoggedRequestsAreNew(s: State, run: seq<Step>, i: nat)
    requires NobodyInFlight(s) && Feasible(s, run) && SmoothRun(s, run)
    requires |s.log| <= i < |After(s, run).log|
    ensures s.next <= After(s, run).log[i].request < After(s, run).next
  {
    var r := After(s, run).log[i].request;
    SmoothRunIsAccounted(s, run, r);
    NobodyIsOut(s.threads, r);
    AnsweredSomewhere(After(s, run).log, |s.log|, r, i);
  }

  /** What has been sent since s is answered or in flight, by number. */
  predicate Balances(s: State, e: State) {
    && |s.log| <= |e.log|
    && e.next - s.next == |e.log| - |s.log| + Tally(InFlight, e.threads) - Tally(InFlight, s.threads)
  }

  lemma {:induction false} StepBalances(s: State, e: State, a: Step)
    requires Balances(s, e) && Enabled(e, a) && Smooth(e, a)
    ensures Balances(s, Stepped(e, a))
  {
    if !a.Transmit? && !a.Collect? {
      OtherStepsSpareTheChannel(e, a);
    }
    TallyUpdate(InFlight, e.threads, a.t, Stepped(e, a).threads[a.t]);
  }

  lemma {:induction false} SmoothRunBalances(s: State, run: seq<Step>)
    requires Feasible(s, run) && SmoothRun(s, run)
    ensures Balances(s, After(s, run))
  {
    if run != [] {
      SmoothRunBalances(s, run[..|run| - 1]);
      StepBalances(s, After(s, run[..|run| - 1]), run[|run| - 1]);
    }
  }

  lemma {:induction false} NobodyToBalance(ts: seq<Pc>)
    requires forall t :: 0 <= t < |ts| ==> !InFlight(ts[t])
    ensures Tally(InFlight, ts) == 0
  {
    if ts != [] {
      NobodyToBalance(ts[..|ts| - 1]);
    }
  }

  /** Any number of callers, overlapping or not: an exchange gets its own reply exactly when the
      backlog has been drained and its turn to take is its turn to send: the k-th taker is the
      sender number k - d. From an empty channel, then, exactly when it is the k-th to do both. */
  lemma {:induction false} OwnReplyIffTakenInTurn(s: State, run: seq<Step>, i: nat)
    requires NobodyInFlight(s) && Feasible(s, run) && SmoothRun(s, run)
    requires OldTags(s)
    requires |s.log| <= i < |After(s, run).log|
    ensures var answer := After(s, run).log[i];
            var k, d := i - |s.log|, |s.outstanding|;
            answer.reply == answer.request <==> k >= d && answer.request == s.next + k - d
  {
    RepliesComeInSendOrder(s, run);
    LoggedRequestsAreNew(s, run, i);
  }

  /** When all who sent have received, each request sent has been answered exactly once and the
      backlog is what it was; from an empty channel the replies returned are those of the requests
      in the order sent, and so a permutation of the requests in the order taken. */
  lemma {:induction false} RepliesArePermuted(s: State, run: seq<Step>)
    requires NobodyInFlight(s) && Feasible(s, run) && SmoothRun(s, run) && NobodyInFlight(After(s, run))
    ensures var e := After(s, run);
            && |s.log| <= |e.log| == |s.log| + e.next - s.next && |e.outstanding| == |s.outstanding|
            && EachAnsweredOnce(s, e)
            && (s.outstanding == [] ==> forall i :: |s.log| <= i < |e.log| ==> e.log[i].reply == s.next + i - |s.log|)
  {
    AllAnswered(s, run);
    RepliesComeInSendOrder(s, run);
    forall r: nat
      ensures AnsweredAsSent(s, After(s, run), r)
    {
      AnsweredOnce(s, run, r);
    }
  }

  /** Answered once if it was sent since s, and not at all otherwise. */
  predicate AnsweredAsSent(s: State, e: State, r: nat) {
    Answered(e.log, |s.log|, r) == if s.next <= r < e.next then 1 else 0
  }

  ghost predicate EachAnsweredOnce(s: State, e: State) {
    forall r: nat :: AnsweredAsSent(s, e, r)
  }

  lemma {:induction false} AllAnswered(s: State, run: seq<Step>)
    requires NobodyInFlight(s) && Feasible(s, run) && SmoothRun(s, run) && NobodyInFlight(After(s, run))
    ensures |s.log| <= |After(s, run).log| == |s.log| + After(s, run).next - s.next
  {
    SmoothRunBalances(s, run);
    NobodyToBalance(s.threads);
    NobodyToBalance(After(s, run).threads);
  }

  lemma {:induction false} AnsweredOnce(s: State, run: seq<Step>, r: nat)
    requires NobodyInFlight(s) && Feasible(s, run) && SmoothRun(s, run) && NobodyInFlight(After(s, run))
    ensures AnsweredAsSent(s, After(s, run), r)
  {
    SmoothRunIsAccounted(s, run, r);
    NobodyIsOut(s.threads, r);
    NobodyIsOut(After(s, run).threads, r);
  }

  /** Then everyone got the reply to its own request exactly when replies were taken in send order. */
  lemma {:induction false} AllOwnIffTakenInSendOrder(s: State, run: seq<Step>)
    requires NobodyInFlight(s) && s.outstanding == [] && Feasible(s, run) && SmoothRun(s, run)
    requires NobodyInFlight(After(s, run))
    ensures var e := After(s, run);
            |s.log| <= |e.log| &&
            ((forall i :: |s.log| <= i < |e.log| ==> e.log[i].reply == e.log[i].request)
             <==> forall i, j :: |s.log| <= i < j < |e.log| ==> e.log[i].request < e.log[j].request)
  {
    var e := After(s, run);
    RepliesComeInSendOrder(s, run);
    RepliesArePermuted(s, run);
    if forall i, j :: |s.log| <= i < j < |e.log| ==> e.log[i].request < e.log[j].request {
      forall i | |s.log| <= i < |e.log|
        ensures s.next <= e.log[i].request < e.next
      {
        LoggedRequestsAreNew(s, run, i);
      }
      forall i | |s.log| <= i < |e.log|
        ensures e.log[i].request == s.next + i - |s.log|
      {
        AtLeast(e.log, |s.log|, s.next, i);
        AtMost(e.log, |s.log|, e.next, i);
      }
    }
  }

  ghost predicate Rising(log: seq<Answer>, from: nat) {
    forall i, j :: from <= i < j < |log| ==> log[i].request < log[j].request
  }

  lemma {:induction false} AtLeast(log: seq<Answer>, from: nat, low: nat, i: nat)
    requires Rising(log, from) && from <= i < |log| && log[from].request >= low
    ensures log[i].request >= low + i - from
  {
    if i > from {
      AtLeast(log, from, low, i - 1);
    }
  }

  lemma {:induction false} AtMost(log: seq<Answer>, from: nat, high: nat, i: nat)
    requires Rising(log, from) && from <= i < |log| && log[|log| - 1].request < high
    ensures log[i].request <= high - (|log| - i)
    decreases |log| - i
  {
    if i < |log| - 1 {
      AtMost(log, from, high, i + 1);
    }
  }

  // ---- exchanges that do not overlap ----

  /** No request is sent while another is in flight. */
  predicate NoOverlap(s: State, run: seq<Step>)
    requires Feasible(s, run)
  {
    run == []
    || (NoOverlap(s, run[..|run| - 1])
        && (run[|run| - 1].Transmit? ==> NobodyInFlight(After(s, run[..|run| - 1]))))
  }

  lemma {:induction false} OneCallerNeverOverlaps(s: State, run: seq<Step>)
    requires |s.threads| == 1 && Feasible(s, run)
    ensures NoOverlap(s, run)
  {
    if run != [] {
      OneCallerNeverOverlaps(s, run[..|run| - 1]);
      RunKeepsThreadCount(s, run[..|run| - 1]);
      OnlySenderIsNotInFlight(After(s, run[..|run| - 1]), run[|run| - 1]);
    }
  }

  lemma OnlySenderIsNotInFlight(e: State, a: Step)
    requires |e.threads| == 1 && Enabled(e, a)
    ensures a.Transmit? ==> NobodyInFlight(e)
  {
  }

  /** The one request in flight, if any, is the last one sent, and all before it were answered in turn. */
  ghost predicate OneAtATime(s: State, e: State) {
    && |s.log| <= |e.log|
    && (forall t, u :: 0 <= t < u < |e.threads| ==> !(InFlight(e.threads[t]) && InFlight(e.threads[u])))
    && (forall t :: 0 <= t < |e.threads| && InFlight(e.threads[t]) ==> e.threads[t].request == e.next - 1)
    && e.next == s.next + |e.log| - |s.log| + (if NobodyInFlight(e) then 0 else 1)
    && (forall i :: |s.log| <= i < |e.log| ==> e.log[i].request == s.next + i - |s.log|)
  }

  lemma {:induction false} StepKeepsOneAtATime(s: State, e: State, a: Step)
    requires OneAtATime(s, e) && Enabled(e, a) && Smooth(e, a) && (a.Transmit? ==> NobodyInFlight(e))
    ensures OneAtATime(s, Stepped(e, a))
  {
    var e' := Stepped(e, a);
    if a.Collect? {
      assert !InFlight(e'.threads[a.t]) && InFlight(e.threads[a.t]);
      assert NobodyInFlight(e');
    } else if a.Transmit? {
      assert InFlight(e'.threads[a.t]);
    } else {
      OtherStepsKeepFlights(e, a);
      assert NobodyInFlight(e') == NobodyInFlight(e);
    }
  }

  lemma {:induction false} OtherStepsKeepFlights(e: State, a: Step)
    requires Enabled(e, a) && !a.Lose? && !a.Transmit? && !a.Collect?
    ensures var e' := Stepped(e, a);
            && e'.log == e.log && e'.next == e.next && |e'.threads| == |e.threads|
            && (forall t :: 0 <= t < |e.threads| ==> (InFlight(e'.threads[t]) <==> InFlight(e.threads[t])))
            && (forall t :: 0 <= t < |e.threads| && InFlight(e.threads[t]) ==>
                  e'.threads[t].request == e.threads[t].request)
  {
    OtherStepsSpareTheChannel(e, a);
  }

  lemma {:induction false} NoOverlapIsOneAtATime(s: State, run: seq<Step>)
    requires NobodyInFlight(s) && Feasible(s, run) && SmoothRun(s, run) && NoOverlap(s, run)
    ensures OneAtATime(s, After(s, run))
  {
    if run != [] {
      NoOverlapIsOneAtATime(s, run[..|run| - 1]);
      StepKeepsOneAtATime(s, After(s, run[..|run| - 1]), run[|run| - 1]);
    }
  }

  /** A backlog of d replies never clears by itself: from then on, as long as nothing is lost, late
      or refused and no two exchanges overlap, whoever makes them, the first d exchanges return the
      old replies in order and every later one returns the reply to the request d before its own. */
  lemma {:induction false} BacklogShiftsForever(s: State, run: seq<Step>)
    requires NobodyInFlight(s) && Feasible(s, run) && SmoothRun(s, run) && NoOverlap(s, run)
    ensures var d := |s.outstanding|;
            var log := After(s, run).log;
            && |s.log| <= |log|
            && (forall i :: |s.log| <= i < |log| ==>
                  var k := i - |s.log|;
                  && log[i].request == s.next + k
                  && log[i].reply == if k < d then s.outstanding[k].tag else log[i].request - d)
            && (NobodyInFlight(After(s, run)) ==> |After(s, run).outstanding| == d)
  {
    RepliesComeInSendOrder(s, run);
    NoOverlapIsOneAtATime(s, run);
    SteadyShifts(s, After(s, run));
  }

  lemma {:induction false} SteadyShifts(s: State, e: State)
    requires Steady(s, e) && OneAtATime(s, e)
    ensures var d := |s.outstanding|;
            && |s.log| <= |e.log|
            && (forall i :: |s.log| <= i < |e.log| ==>
                  var k := i - |s.log|;
                  && e.log[i].request == s.next + k
                  && e.log[i].reply == if k < d then s.outstanding[k].tag else e.log[i].request - d)
            && (NobodyInFlight(e) ==> |e.outstanding| == d)
  {
  }

  // ---- what a caller can see of the backlog ----

  /** Callers at rest that have reset nothing can tell from the counters whether the exchanges to come
      will be answered: when these do not overlap and nothing more is lost or late, they return
      their own replies exactly when as many replies were lost as exchanges timed out or failed; so
      always when both counters are zero, and only then when nothing was lost. How many threads
      there are, and how they overlapped before, does not matter. */
  lemma {:induction false} OwnReplyIffNothingLate(s: State, run: seq<Step>, more: seq<Step>, i: nat)
    requires Init(s) && Feasible(s, run) && LastReset(s, run, -1)
    requires |run| < COUNTER_MODULUS && AllIdle(After(s, run))
    requires Feasible(After(s, run), more) && SmoothRun(After(s, run), more) && NoOverlap(After(s, run), more)
    requires |After(s, run).log| <= i < |After(After(s, run), more).log|
    ensures var e := After(s, run);
            var answer := After(e, more).log[i];
            && (answer.reply == answer.request <==> e.stats.timeouts + e.stats.receiveErrors == e.lost)
            && (e.stats.timeouts == 0 && e.stats.receiveErrors == 0 ==> answer.reply == answer.request)
            && (e.lost == 0 ==>
                  (answer.reply == answer.request <==> e.stats.timeouts == 0 && e.stats.receiveErrors == 0))
  {
    var e := After(s, run);
    BacklogOfShortRun(s, run);
    TagsAreOlder(s, run);
    ShiftedIffBacklog(e, more, i);
  }

  lemma {:induction false} TagsAreOlder(s: State, run: seq<Step>)
    requires Init(s) && Feasible(s, run)
    ensures OldTags(After(s, run))
  {
    InitInv(s);
    RunKeepsInv(s, run);
  }

  lemma {:induction false} ShiftedIffBacklog(e: State, more: seq<Step>, i: nat)
    requires NobodyInFlight(e) && Feasible(e, more) && SmoothRun(e, more) && NoOverlap(e, more)
    requires OldTags(e)
    requires |e.log| <= i < |After(e, more).log|
    ensures var answer := After(e, more).log[i];
            answer.reply == answer.request <==> e.outstanding == []
  {
    BacklogShiftsForever(e, more);
    var k := i - |e.log|;
    if k < |e.outstanding| {
      assert e.outstanding[k].tag < e.next;
    }
  }

  // ---- what the replies say ----

  /** f names the bytes of the reply to each request; every request sent in the run gets those. */
  predicate AnsweredBy(f: nat -> seq<Byte>, s: State, run: seq<Step>)
    requires Feasible(s, run)
  {
    run == [] ||
    (AnsweredBy(f, s, run[..|run| - 1])
     && (run[|run| - 1].Transmit? ==> run[|run| - 1].reply == f(After(s, run[..|run| - 1]).next)))
  }

  /** What the bytes of f for a tag read as. */
  function Said(f: nat -> seq<Byte>, tag: nat): Option<Packet> {
    Deserialized(Buffered(f(tag)))
  }

  /** Outstanding replies and returned packets are what f says of their tags, for the requests sent
      since a given one; from is where the log began. */
  ghost predicate Carries(f: nat -> seq<Byte>, e: State, from: nat, since: nat) {
    && (forall i :: 0 <= i < |e.outstanding| && e.outstanding[i].tag >= since ==>
          e.outstanding[i].bytes == f(e.outstanding[i].tag))
    && (forall i :: from <= i < |e.log| && e.log[i].reply >= since ==> e.log[i].packet == Said(f, e.log[i].reply))
  }

  lemma {:induction false} StepCarries(f: nat -> seq<Byte>, e: State, a: Step, from: nat, since: nat)
    requires Enabled(e, a) && Carries(f, e, from, since) && from <= |e.log| && (a.Transmit? ==> a.reply == f(e.next))
    ensures Carries(f, Stepped(e, a), from, since) && |Stepped(e, a).log| >= |e.log|
  {
    var e' := Stepped(e, a);
    if a.Collect? && a.c.Head? {
      assert e.outstanding[0].tag >= since ==> e.outstanding[0].bytes == f(e.outstanding[0].tag);
      assert forall i :: 0 <= i < |e'.outstanding| ==> e'.outstanding[i] == e.outstanding[i + 1];
      assert forall i :: from <= i < |e.log| ==> e'.log[i] == e.log[i];
    } else if a.Lose? {
      assert forall i :: 0 <= i < |e'.outstanding| ==> e'.outstanding[i] == e.outstanding[if i < a.i then i else i + 1];
    } else if a.Transmit? {
      assert forall i :: 0 <= i < |e.outstanding| ==> e'.outstanding[i] == e.outstanding[i];
    } else {
      assert e'.outstanding == e.outstanding && e'.log == e.log;
    }
  }

  lemma {:induction false} RunCarries(f: nat -> seq<Byte>, s: State, run: seq<Step>)
    requires Feasible(s, run) && AnsweredBy(f, s, run)
    requires OldTags(s)
    ensures Carries(f, After(s, run), |s.log|, s.next) && |After(s, run).log| >= |s.log|
  {
    if run != [] {
      var front := run[..|run| - 1];
      RunCarries(f, s, front);
      StepCarries(f, After(s, front), run[|run| - 1], |s.log|, s.next);
    }
  }

  lemma {:induction false} DrainedTags(s: State, run: seq<Step>, i: nat)
    requires NobodyInFlight(s) && Feasible(s, run) && SmoothRun(s, run) && NoOverlap(s, run)
    requires |s.log| + |s.outstanding| <= i < |After(s, run).log|
    ensures var answer := After(s, run).log[i];
            answer.request == s.next + i - |s.log| && answer.reply == answer.request - |s.outstanding| >= s.next
  {
    BacklogShiftsForever(s, run);
  }

  /** So once a backlog of d has been drained of what it began with, request i returns, read as a
      packet, exactly the bytes sent in reply to request i - d. */
  lemma {:induction false} BacklogReturnsOlderBytes(f: nat -> seq<Byte>, s: State, run: seq<Step>, i: nat)
    requires NobodyInFlight(s) && Feasible(s, run) && SmoothRun(s, run) && NoOverlap(s, run)
    requires OldTags(s)
    requires AnsweredBy(f, s, run)
    requires |s.log| + |s.outstanding| <= i < |After(s, run).log|
    ensures var answer := After(s, run).log[i];
            && answer.request == s.next + i - |s.log| && answer.reply == answer.request - |s.outstanding|
            && answer.packet == Said(f, answer.reply)
  {
    DrainedTags(s, run, i);
    RunCarries(f, s, run);
  }

  /** An exchange that hears the reply to request m. */
  function Heard(f: nat -> seq<Byte>, m: nat): Net {
    Net(Whole, Arrived(f(m)))
  }

  /** Consecutive exchanges from number first on, each hearing the reply to the request d earlier. */
  function Lagging(f: nat -> seq<Byte>, first: nat, d: nat): nat -> Net
    requires d <= first
  {
    (k: nat) => Heard(f, first + k - d)
  }

  lemma LaggingAt(f: nat -> seq<Byte>, first: nat, d: nat, k: nat, m: nat)
    requires d <= first && m == first + k - d
    ensures Lagging(f, first, d)(k) == Heard(f, m)
  {
  }

  /** The same replies under numbers shifted by phase are heard alike. */
  lemma {:induction false} LaggingShift(
      f: nat -> seq<Byte>, h: nat -> seq<Byte>, first: nat, d: nat, k: nat, phase: nat, m: nat)
    requires d <= first && m == first + k - d && f(m) == h(m + phase)
    ensures Lagging(f, first, d)(k) == Lagging(h, first + phase, d)(k)
  {
    LaggingAt(f, first, d, k, m);
    LaggingAt(h, first + phase, d, k, m + phase);
  }

  lemma HeardIsSaid(f: nat -> seq<Byte>, m: nat, l: Link, n: Net)
    requires l.connected && n == Heard(f, m)
    ensures Reply(l, n) == Said(f, m)
  {
  }

  /** Where the log of a run from s without overlap holds the exchange of a request. */
  function LogIndex(s: State, request: nat): int {
    |s.log| + request - s.next
  }

  /** The channel lags: behind a backlog of d, the sequential client sees a network in which every
      exchange hears the reply to the request d earlier. */
  lemma {:induction false} ChannelLags(f: nat -> seq<Byte>, s: State, run: seq<Step>, l: Link, first: nat, k: nat)
    requires NobodyInFlight(s) && Feasible(s, run) && SmoothRun(s, run) && NoOverlap(s, run)
    requires OldTags(s)
    requires AnsweredBy(f, s, run) && l.connected && s.next + |s.outstanding| <= first
    requires LogIndex(s, first + k) < |After(s, run).log|
    ensures var answer := After(s, run).log[LogIndex(s, first + k)];
            answer.request == first + k && answer.packet == Reply(l, Lagging(f, first, |s.outstanding|)(k))
  {
    var i := LogIndex(s, first + k);
    BacklogReturnsOlderBytes(f, s, run, i);
    var m := After(s, run).log[i].reply;
    LaggingAt(f, first, |s.outstanding|, k, m);
    HeardIsSaid(f, m, l, Lagging(f, first, |s.outstanding|)(k));
  }

  // ---- one undisturbed exchange, and two crossed ones ----

  lemma {:induction false} Extend(s: State, run: seq<Step>, a: Step)
    requires Feasible(s, run) && Enabled(After(s, run), a)
    ensures Feasible(s, run + [a]) && After(s, run + [a]) == Stepped(After(s, run), a)
  {
    assert (run + [a])[..|run + [a]| - 1] == run;
  }

  /** Counting one operation without interruption: acquire, load, store, release twice. */
  function CountSteps(t: nat): seq<Step> {
    [Acquire(t)] + [Load(t)] + [Store(t)] + [Release(t)] + [Release(t)]
  }

  lemma {:induction false} Append(s: State, run: seq<Step>, more: seq<Step>)
    requires Feasible(s, run) && Feasible(After(s, run), more)
    ensures Feasible(s, run + more) && After(s, run + more) == After(After(s, run), more)
  {
    if more == [] {
      assert run + more == run;
    } else {
      var front, last := more[..|more| - 1], more[|more| - 1];
      Append(s, run, front);
      Extend(s, run + front, last);
      Rejoined(run, more);
    }
  }

  lemma Rejoined(run: seq<Step>, more: seq<Step>)
    requires more != []
    ensures (run + more[..|more| - 1]) + [more[|more| - 1]] == run + more
  {
  }

  lemma {:induction false} TwoSteps(e: State, a: Step, b: Step)
    requires Enabled(e, a) && Enabled(Stepped(e, a), b)
    ensures Feasible(e, [a] + [b]) && After(e, [a] + [b]) == Stepped(Stepped(e, a), b)
  {
    Extend(e, [], a);
    assert [] + [a] == [a];
    Extend(e, [a], b);
  }

  lemma {:induction false} ThreeSteps(e: State, a: Step, b: Step, c: Step)
    requires Enabled(e, a) && Enabled(Stepped(e, a), b) && Enabled(Stepped(Stepped(e, a), b), c)
    ensures Feasible(e, [a] + [b] + [c]) && After(e, [a] + [b] + [c]) == Stepped(Stepped(Stepped(e, a), b), c)
  {
    TwoSteps(e, a, b);
    Extend(e, [a] + [b], c);
  }

  lemma {:induction false} CountRun(e: State, t: nat)
    requires t < |e.threads| && ReadyToCount(e, t)
    ensures Feasible(e, CountSteps(t)) && After(e, CountSteps(t)) == CountedBy(e, t)
  {
    CountStepsEnd(e, t);
    ThreeSteps(e, Acquire(t), Load(t), Store(t));
    var half := [Acquire(t)] + [Load(t)] + [Store(t)];
    TwoSteps(After(e, half), Release(t), Release(t));
    Append(e, half, [Release(t)] + [Release(t)]);
    assert CountSteps(t) == half + ([Release(t)] + [Release(t)]);
  }

  /** The same five steps, composed without runs. */
  lemma {:induction false} CountStepsEnd(e: State, t: nat)
    requires t < |e.threads| && ReadyToCount(e, t)
    ensures Enabled(e, Acquire(t))
    ensures var e1 := Stepped(e, Acquire(t));
            Enabled(e1, Load(t)) &&
            var e2 := Stepped(e1, Load(t));
            Enabled(e2, Store(t)) &&
            var e3 := Stepped(e2, Store(t));
            Enabled(e3, Release(t)) &&
            var e4 := Stepped(e3, Release(t));
            Enabled(e4, Release(t)) && Stepped(e4, Release(t)) == CountedBy(e, t)
  {
    var e4 := Stepped(Stepped(Stepped(Stepped(e, Acquire(t)), Load(t)), Store(t)), Release(t));
    assert e4.owners == e.owners;
  }

  predicate ReadyToCount(e: State, t: nat)
    requires t < |e.threads|
  {
    e.threads[t].Counting? && e.threads[t].phase.Wanting? && StatsMutex !in e.owners
  }

  function CountedBy(e: State, t: nat): State
    requires t < |e.threads| && e.threads[t].Counting?
  {
    var pc := e.threads[t];
    At(e, t, if pc.kind.Sent? then WantReceive(pc.request) else Idle)
    .(stats := Counted(e.stats, pc.kind), owners := e.owners - {MutexOf(pc.kind)})
  }

  function SendSteps(t: nat, o: SendOutcome, reply: seq<Byte>): seq<Step> {
    [BeginExchange(t)] + [Acquire(t)] + [Transmit(t, o, reply)] + CountSteps(t)
  }

  /** The send half of an exchange, run alone. */
  function SentBy(e: State, t: nat, o: SendOutcome, reply: seq<Byte>): State
    requires t < |e.threads|
  {
    if e.connected && o.Whole? then
      At(e, t, WantReceive(e.next)).(stats := Counted(e.stats, Sent), next := e.next + 1,
                                     outstanding := e.outstanding + [Datagram(e.next, reply)])
    else At(e, t, Idle).(stats := Counted(e.stats, SendError))
  }

  lemma {:induction false} SendRun(e: State, t: nat, o: SendOutcome, reply: seq<Byte>)
    requires t < |e.threads| && e.threads[t] == Idle
    requires SendMutex !in e.owners && StatsMutex !in e.owners
    ensures Feasible(e, SendSteps(t, o, reply)) && After(e, SendSteps(t, o, reply)) == SentBy(e, t, o, reply)
  {
    SentAlone(e, t, o, reply);
    ThreeSteps(e, BeginExchange(t), Acquire(t), Transmit(t, o, reply));
    var head := [BeginExchange(t)] + [Acquire(t)] + [Transmit(t, o, reply)];
    CountRun(After(e, head), t);
    Append(e, head, CountSteps(t));
  }

  lemma {:induction false} SentAlone(e: State, t: nat, o: SendOutcome, reply: seq<Byte>)
    requires t < |e.threads| && e.threads[t] == Idle
    requires SendMutex !in e.owners && StatsMutex !in e.owners
    ensures Enabled(e, BeginExchange(t))
    ensures var e1 := Stepped(e, BeginExchange(t));
            Enabled(e1, Acquire(t)) &&
            var e2 := Stepped(e1, Acquire(t));
            Enabled(e2, Transmit(t, o, reply)) &&
            var e3 := Stepped(e2, Transmit(t, o, reply));
            t < |e3.threads| && ReadyToCount(e3, t) && CountedBy(e3, t) == SentBy(e, t, o, reply)
  {
    var e2 := Stepped(Stepped(e, BeginExchange(t)), Acquire(t));
    var e3 := Stepped(e2, Transmit(t, o, reply));
    assert e3.owners - {SendMutex} == e.owners;
    assert CountedBy(e3, t).threads == SentBy(e, t, o, reply).threads;
  }

  function ReceiveSteps(t: nat, c: Collected): seq<Step> {
    [Acquire(t)] + [Collect(t, c)] + CountSteps(t)
  }

  /** The receive half of an exchange, run alone. */
  function ReceivedBy(e: State, t: nat, c: Collected): State
    requires t < |e.threads| && e.threads[t].WantReceive? && (c.Head? ==> e.connected && e.outstanding != [])
  {
    var e' := At(e, t, Idle).(stats := Counted(e.stats, ReceiveKind(e.connected, OutcomeOf(e, c))));
    if c.Head? then
      var d := e.outstanding[0];
      e'.(outstanding := e.outstanding[1..], consumed := e.consumed + 1,
          log := e.log + [Answer(e.threads[t].request, d.tag, Deserialized(Buffered(d.bytes)))])
    else e'
  }

  lemma {:induction false} ReceiveRun(e: State, t: nat, c: Collected)
    requires t < |e.threads| && e.threads[t].WantReceive? && (c.Head? ==> e.connected && e.outstanding != [])
    requires ReceiveMutex !in e.owners && StatsMutex !in e.owners
    ensures Feasible(e, ReceiveSteps(t, c)) && After(e, ReceiveSteps(t, c)) == ReceivedBy(e, t, c)
  {
    TakenAlone(e, t, c);
    TwoSteps(e, Acquire(t), Collect(t, c));
    var head := [Acquire(t)] + [Collect(t, c)];
    CountRun(After(e, head), t);
    Append(e, head, CountSteps(t));
  }

  lemma {:induction false} TakenAlone(e: State, t: nat, c: Collected)
    requires t < |e.threads| && e.threads[t].WantReceive? && (c.Head? ==> e.connected && e.outstanding != [])
    requires ReceiveMutex !in e.owners && StatsMutex !in e.owners
    ensures Enabled(e, Acquire(t)) && Enabled(Stepped(e, Acquire(t)), Collect(t, c))
    ensures var e1 := Stepped(Stepped(e, Acquire(t)), Collect(t, c));
            t < |e1.threads| && ReadyToCount(e1, t) && CountedBy(e1, t) == ReceivedBy(e, t, c)
  {
    var e1 := Stepped(Stepped(e, Acquire(t)), Collect(t, c));
    assert e1.owners - {ReceiveMutex} == e.owners;
    assert CountedBy(e1, t).threads == ReceivedBy(e, t, c).threads;
  }

  /** What the network did during an exchange that ran alone, as the sequential client sees it. */
  function NetOf(e: State, o: SendOutcome, reply: seq<Byte>, c: Collected): Net
    requires c.Head? ==> e.connected && o.Whole?
  {
    Net(o, if c.Head? then Arrived((e.outstanding + [Datagram(e.next, reply)])[0].bytes)
           else if c.Failure? then RecvFailed else TimedOut)
  }

  function ExchangeSteps(e: State, t: nat, o: SendOutcome, reply: seq<Byte>, c: Collected): seq<Step> {
    SendSteps(t, o, reply) + if e.connected && o.Whole? then ReceiveSteps(t, c) else []
  }

  /** The concurrent system run by one thread without interruption is the sequential client: the
      counters and the returned packet agree, and all mutexes are free again. The backlog grows by
      one exactly when a request went out whole and its exchange took no reply. */
  lemma {:induction false} UndisturbedExchangeIsTheClients(
      e: State, t: nat, p: Packet, o: SendOutcome, reply: seq<Byte>, c: Collected)
    requires t < |e.threads| && e.threads[t] == Idle && e.owners == map[]
    requires c.Head? ==> e.connected && o.Whole?
    ensures Feasible(e, ExchangeSteps(e, t, o, reply, c))
    ensures var e' := After(e, ExchangeSteps(e, t, o, reply, c));
            var l := Link(e.connected, e.stats, []);
            var n := NetOf(e, o, reply, c);
            && e'.threads == e.threads && e'.owners == map[] && e'.connected == e.connected
            && e'.stats == AfterExchange(l, p, n).stats
            && |e'.outstanding| == |e.outstanding| + (if e.connected && o.Whole? && !c.Head? then 1 else 0)
            && (c.Head? ==> e'.log == e.log + [Answer(e.next, (e.outstanding + [Datagram(e.next, reply)])[0].tag, Reply(l, n))])
            && (!c.Head? ==> e'.log == e.log && Reply(l, n) == None)
  {
    SendRun(e, t, o, reply);
    var sent := SentBy(e, t, o, reply);
    if e.connected && o.Whole? {
      ReceiveRun(sent, t, c);
      Append(e, SendSteps(t, o, reply), ReceiveSteps(t, c));
    } else {
      assert ExchangeSteps(e, t, o, reply, c) == SendSteps(t, o, reply);
    }
  }

  /** Steps that are smooth whenever the client is connected, and keep it connected. */
  predicate Plain(a: Step) {
    !a.Lose? && !a.Toggle? && (a.Transmit? ==> a.o.Whole?) && (a.Collect? ==> a.c.Head?)
  }

  lemma {:induction false} PlainRunIsSmooth(e: State, run: seq<Step>)
    requires e.connected && Feasible(e, run) && forall a :: a in run ==> Plain(a)
    ensures SmoothRun(e, run) && After(e, run).connected
  {
    if run != [] {
      var last := run[|run| - 1];
      assert last in run && Plain(last);
      PlainRunIsSmooth(e, run[..|run| - 1]);
    }
  }

  lemma {:induction false} HalvesArePlain(t: nat, reply: seq<Byte>)
    ensures forall a :: a in SendSteps(t, Whole, reply) ==> Plain(a)
    ensures forall a :: a in ReceiveSteps(t, Head) ==> Plain(a)
  {
    assert forall a :: a in CountSteps(t) ==> Plain(a);
  }

  lemma {:induction false} CrossedHalves(e: State, r0: seq<Byte>, r1: seq<Byte>)
    requires e.threads == [Idle, Idle] && e.owners == map[] && e.connected && e.outstanding == []
    ensures var e1 := SentBy(e, 0, Whole, r0);
            e1.threads[1] == Idle && e1.owners == map[] &&
            var e2 := SentBy(e1, 1, Whole, r1);
            e2.threads[1] == WantReceive(e.next + 1) && e2.owners == map[] && e2.connected && e2.log == e.log
            && e2.outstanding == [Datagram(e.next, r0), Datagram(e.next + 1, r1)]
  {
  }

  /** With two callers nothing need be lost or late for a reply to reach the wrong one: the second
      to send may be the first to receive. */
  lemma {:induction false} TwoCallersCanCross(e: State, r0: seq<Byte>, r1: seq<Byte>)
    requires e.threads == [Idle, Idle] && e.owners == map[] && e.connected && e.outstanding == []
    ensures exists run :: Feasible(e, run) && SmoothRun(e, run)
              && After(e, run).log == e.log + [Answer(e.next + 1, e.next, Deserialized(Buffered(r0)))]
  {
    CrossedHalves(e, r0, r1);
    var e1 := SentBy(e, 0, Whole, r0);
    var e2 := SentBy(e1, 1, Whole, r1);
    var first, second, third := SendSteps(0, Whole, r0), SendSteps(1, Whole, r1), ReceiveSteps(1, Head);
    SendRun(e, 0, Whole, r0);
    SendRun(e1, 1, Whole, r1);
    ReceiveRun(e2, 1, Head);
    Append(e, first, second);
    Append(e, first + second, third);
    HalvesArePlain(0, r0);
    HalvesArePlain(1, r1);
    PlainRunIsSmooth(e, first + second + third);
  }

  // ---- one late reply, and the exchange after it ----

  /** connect or disconnect, run alone. */
  function ToggleSteps(t: nat, up: bool, ok: bool): seq<Step> {
    [BeginToggle(t, up)] + [Acquire(t)] + [Acquire(t)] + ([Toggle(t, ok)] + [Release(t)] + [Release(t)])
  }

  /** What it leaves: connecting keeps a connection or makes one if the socket calls succeed;
      disconnecting ends it; nothing else moves. */
  lemma {:induction false} UndisturbedToggleIsTheClients(e: State, t: nat, up: bool, ok: bool)
    requires t < |e.threads| && e.threads[t] == Idle && e.owners == map[]
    ensures Feasible(e, ToggleSteps(t, up, ok))
    ensures After(e, ToggleSteps(t, up, ok)) == e.(connected := up && (e.connected || ok))
  {
    OpenedAlone(e, t, up);
    ThreeSteps(e, BeginToggle(t, up), Acquire(t), Acquire(t));
    var half := [BeginToggle(t, up)] + [Acquire(t)] + [Acquire(t)];
    ClosedAlone(e, BothHeld(e, t, up), t, up, ok);
    ThreeSteps(BothHeld(e, t, up), Toggle(t, ok), Release(t), Release(t));
    Append(e, half, [Toggle(t, ok)] + [Release(t)] + [Release(t)]);
  }

  /** A connecting or disconnecting thread that has both mutexes of the client. */
  function BothHeld(e: State, t: nat, up: bool): State
    requires t < |e.threads|
  {
    At(e, t, ToggleHold(up)).(owners := map[SendMutex := t, ReceiveMutex := t])
  }

  lemma {:induction false} OpenedAlone(e: State, t: nat, up: bool)
    requires t < |e.threads| && e.threads[t] == Idle && e.owners == map[]
    ensures Enabled(e, BeginToggle(t, up))
    ensures var e1 := Stepped(e, BeginToggle(t, up));
            Enabled(e1, Acquire(t)) &&
            var e2 := Stepped(e1, Acquire(t));
            Enabled(e2, Acquire(t)) && Stepped(e2, Acquire(t)) == BothHeld(e, t, up)
  {
    var e3 := Stepped(Stepped(Stepped(e, BeginToggle(t, up)), Acquire(t)), Acquire(t));
    assert e3.owners == map[SendMutex := t, ReceiveMutex := t];
    assert e3.threads == e.threads[t := ToggleHold(up)];
  }

  lemma {:induction false} ClosedAlone(e: State, held: State, t: nat, up: bool, ok: bool)
    requires t < |e.threads| && e.threads[t] == Idle && e.owners == map[] && held == BothHeld(e, t, up)
    ensures Enabled(held, Toggle(t, ok))
    ensures var e1 := Stepped(held, Toggle(t, ok));
            Enabled(e1, Release(t)) &&
            var e2 := Stepped(e1, Release(t));
            Enabled(e2, Release(t)) && Stepped(e2, Release(t)) == e.(connected := up && (e.connected || ok))
  {
    var e3 := Stepped(Stepped(Stepped(held, Toggle(t, ok)), Release(t)), Release(t));
    assert e3.owners == map[];
    assert e3.threads == e.threads;
  }

  /** A caller connects, times out once, and asks again; both replies come, and nothing is lost. */
  function LateSteps(r0: seq<Byte>, r1: seq<Byte>): seq<Step> {
    ToggleSteps(0, true, true) + (SendSteps(0, Whole, r0) + ReceiveSteps(0, NothingInTime))
    + (SendSteps(0, Whole, r1) + ReceiveSteps(0, Head))
  }

  /** The second request then gets the first one's reply, for any two replies. */
  lemma {:induction false} OneTimeoutShiftsTheNext(s: State, r0: seq<Byte>, r1: seq<Byte>)
    requires Init(s) && |s.threads| == 1
    ensures Feasible(s, LateSteps(r0, r1))
    ensures var e := After(s, LateSteps(r0, r1));
            && e.log == [Answer(1, 0, Deserialized(Buffered(r0)))]
            && e.outstanding == [Datagram(1, r1)] && AllIdle(e)
            && e.lost == 0 && e.stats.timeouts == 1 && e.stats.receiveErrors == 0
  {
    UndisturbedToggleIsTheClients(s, 0, true, true);
    var e0 := s.(connected := true);
    SendRun(e0, 0, Whole, r0);
    var e1 := SentBy(e0, 0, Whole, r0);
    ReceiveRun(e1, 0, NothingInTime);
    Append(e0, SendSteps(0, Whole, r0), ReceiveSteps(0, NothingInTime));
    var e2 := ReceivedBy(e1, 0, NothingInTime);
    AfterTimeout(s, r0);
    SendRun(e2, 0, Whole, r1);
    var e3 := SentBy(e2, 0, Whole, r1);
    ReceiveRun(e3, 0, Head);
    Append(e2, SendSteps(0, Whole, r1), ReceiveSteps(0, Head));
    AfterLateHead(e2, r0, r1);
    var connect, first, second := ToggleSteps(0, true, true), SendSteps(0, Whole, r0) + ReceiveSteps(0, NothingInTime),
                                  SendSteps(0, Whole, r1) + ReceiveSteps(0, Head);
    Append(s, connect, first);
    Append(s, connect + first, second);
  }

  predicate OneLate(e: State, r0: seq<Byte>) {
    && e.threads == [Idle] && e.owners == map[] && e.connected && e.next == 1
    && e.outstanding == [Datagram(0, r0)] && e.log == [] && e.lost == 0
    && e.stats.timeouts == 1 && e.stats.receiveErrors == 0
  }

  lemma {:induction false} AfterTimeout(s: State, r0: seq<Byte>)
    requires Init(s) && |s.threads| == 1
    ensures var e1 := SentBy(s.(connected := true), 0, Whole, r0);
            e1.threads[0].WantReceive? && OneLate(ReceivedBy(e1, 0, NothingInTime), r0)
  {
  }

  lemma {:induction false} AfterLateHead(e2: State, r0: seq<Byte>, r1: seq<Byte>)
    requires OneLate(e2, r0)
    ensures var e3 := SentBy(e2, 0, Whole, r1);
            && e3.threads[0].WantReceive? && e3.connected && e3.outstanding != []
            && var e := ReceivedBy(e3, 0, Head);
               && e.log == [Answer(1, 0, Deserialized(Buffered(r0)))]
               && e.outstanding == [Datagram(1, r1)] && AllIdle(e)
               && e.lost == 0 && e.stats.timeouts == 1 && e.stats.receiveErrors == 0
  {
    var e3 := SentBy(e2, 0, Whole, r1);
    assert e3.outstanding == [Datagram(0, r0)] + [Datagram(1, r1)];
    assert e3.outstanding[1..] == [Datagram(1, r1)];
  }
}
