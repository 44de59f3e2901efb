/** The unified update loop over the concurrent channel. The loop's eight requests are six motor
    reads, one encoder read and one IMU read, over and over; behind a backlog of d, request i hears
    the reply to request i - d. The loop may begin at any request number: after initialize, with
    its six modes, six forces and two first readings, it begins at number 14, in phase 2. */
module UnifiedLoop {
  import opened Bytes
  import opened Packets
  import opened WireLanguage
  import opened Commands
  import opened Replies
  import opened Client
  import opened Motors
  import Exchange
  import Pairing
  import Encoders
  import Imu

  const REQUESTS_PER_TURN: nat := 8

  /** What the glove would report at the moment of each request. */
  datatype Glove = Glove(status: nat -> MotorStatus, adc: nat -> Encoders.AdcWords, angles: nat -> ImuWords)

  /** The firmware's reply to request i, wrong length bytes and constant IMU checksum included. */
  function ReplyTo(g: Glove, i: nat): seq<Byte> {
    var r := i % REQUESTS_PER_TURN;
    if r < 6 then StatusReply(g.status(i).(motorId := r + 1), CMD_READ_STATUS, 0x30, 0)
    else if r == 6 then EncoderReply(g.adc(i), 0x25, 0)
    else Wire(ImuReply(g.angles(i), 0, 0x3A))
  }

  function Delivered(g: Glove, i: nat): Net {
    Net(Whole, Arrived(ReplyTo(g, i)))
  }

  /** The replies to requests that are phase places ahead of the cycle: number i is of kind i + phase. */
  function Answers(g: Glove, phase: nat): nat -> seq<Byte> {
    (i: nat) => ReplyTo(g, i + phase)
  }

  /** The exchanges of one turn behind a backlog of d: the k-th is at place first + k of the cycle. */
  function Turn(g: Glove, first: nat, d: nat): Script
    requires d <= first
  {
    Pairing.Lagging(Answers(g, 0), first, d)
  }

  lemma AnswersShift(g: Glove, phase: nat, m: nat)
    ensures Answers(g, phase)(m) == Answers(g, 0)(m + phase)
  {
  }

  /** Requests numbered from elsewhere see the same turn. */
  lemma {:induction false} PhasedTurn(g: Glove, phase: nat, first: nat, d: nat, k: nat)
    requires d <= first
    ensures Pairing.Lagging(Answers(g, phase), first, d)(k) == Turn(g, first + phase, d)(k)
  {
    var m := first + k - d;
    AnswersShift(g, phase, m);
    Pairing.LaggingShift(Answers(g, phase), Answers(g, 0), first, d, k, phase, m);
  }

  lemma TurnDelivers(g: Glove, first: nat, d: nat, k: nat)
    requires d <= first
    ensures Turn(g, first, d)(k) == Delivered(g, first + k - d)
  {
    var m := first + k - d;
    Pairing.LaggingAt(Answers(g, 0), first, d, k, m);
    assert Answers(g, 0)(m) == ReplyTo(g, m);
  }

  /** How a delivered reply reads, by the request it answers. */
  lemma {:induction false} ReplyByKind(g: Glove, i: nat)
    ensures Buffered(ReplyTo(g, i)) == ReplyTo(g, i)
    ensures var r := i % REQUESTS_PER_TURN;
            match Deserialized(ReplyTo(g, i))
            case None => r >= 6
            case Some(p) =>
              if r < 6 then IsMotorResponse(p) && MotorReadsDefined(p)
                            && ParseMotorStatus(p) == Some(g.status(i).(motorId := r + 1))
              else !IsMotorResponse(p) && (IsEncoderResponse(p) <==> r == 6)
  {
    if i % REQUESTS_PER_TURN < 6 {
      MotorReplyReads(g, i);
    } else {
      SensorReplyReads(g, i);
    }
  }

  lemma {:induction false} MotorReplyReads(g: Glove, i: nat)
    requires i % REQUESTS_PER_TURN < 6
    ensures Buffered(ReplyTo(g, i)) == ReplyTo(g, i)
    ensures var r := Deserialized(ReplyTo(g, i));
            r.Some? && IsMotorResponse(r.value) && MotorReadsDefined(r.value)
            && ParseMotorStatus(r.value) == Some(g.status(i).(motorId := i % REQUESTS_PER_TURN + 1))
  {
    var s := g.status(i).(motorId := i % REQUESTS_PER_TURN + 1);
    StatusReplyLaw(s, CMD_READ_STATUS, 0x30, 0);
    StatusReplyFits(s, 0x30, 0);
    ParsersByKind(Deserialized(ReplyTo(g, i)).value);
  }

  lemma {:induction false} SensorReplyReads(g: Glove, i: nat)
    requires i % REQUESTS_PER_TURN >= 6
    ensures Buffered(ReplyTo(g, i)) == ReplyTo(g, i)
    ensures match Deserialized(ReplyTo(g, i))
            case None => true
            case Some(p) => !IsMotorResponse(p) && (IsEncoderResponse(p) <==> i % REQUESTS_PER_TURN == 6)
  {
    if i % REQUESTS_PER_TURN == 6 {
      EncoderReplyLaw(g.adc(i), 0x25, 0);
      SensorReplyFields(Summed(0x25, TARGET_ENCODER, 0, WordBytes(g.adc(i))));
    } else {
      SensorReplyFields(ImuReply(g.angles(i), 0, 0x3A));
    }
  }

  lemma {:induction false} SensorReplyFields(p: Packet)
    requires p.target == TARGET_ENCODER && |p.body| <= 32
    ensures |Wire(p)| <= 39
    ensures Deserialized(Wire(p)).Some? ==> Deserialized(Wire(p)).value == p && !IsMotorResponse(p)
  {
    DeserializeInvertsSerialize(p);
  }

  /** What a motor slot becomes when its exchange receives the reply to request i. */
  lemma {:induction false} SlotTakesOnlyMotorReplies(was: MotorStatus, l: Link, g: Glove, i: nat)
    requires l.connected
    ensures ReadsDefined(Delivered(g, i))
    ensures var r := i % REQUESTS_PER_TURN;
            SlotAfter(was, l, Delivered(g, i)) == if r < 6 then g.status(i).(motorId := r + 1) else was
  {
    ReplyByKind(g, i);
    var reply := Deserialized(ReplyTo(g, i));
    assert Reply(l, Delivered(g, i)) == reply;
    if reply.Some? {
      ParsersByKind(reply.value);
    }
  }

  /** The encoder cache is written only from encoder replies, and with exactly their words. */
  lemma {:induction false} EncoderTakesOnlyEncoderReplies(l: Link, g: Glove, i: nat, n: Net)
    requires l.connected && n == Delivered(g, i)
    ensures Encoders.ReadingFrom(l, n)
            == if i % REQUESTS_PER_TURN == 6 && !EncoderDropped(g.adc(i)) then Some(g.adc(i)) else None
  {
    ReplyByKind(g, i);
    assert Reply(l, n) == Deserialized(ReplyTo(g, i));
    if i % REQUESTS_PER_TURN == 6 {
      EncoderReplyLaw(g.adc(i), 0x25, 0);
    }
  }

  /** The IMU reader, in contrast, takes a motor's status for its own reading, always, and whatever
      encoder reply gets through. */
  lemma {:induction false} ImuTakesMotorRepliesToo(l: Link, g: Glove, i: nat, n: Net, decode: Imu.Decoding)
    requires l.connected && n == Delivered(g, i)
    ensures ReturnsStatus(l, n) <==> i % REQUESTS_PER_TURN < 6
    ensures var reading := Imu.ReadingFrom(decode, l, n);
            var r := i % REQUESTS_PER_TURN;
            && (r < 6 ==> reading.Some?)
            && (r == 6 ==> (reading.Some? <==> !EncoderDropped(g.adc(i))))
            && (r == 7 ==> reading == if ImuDropped(g.angles(i)) then None else Some(Imu.Decoded(decode, g.angles(i))))
  {
    ReplyByKind(g, i);
    var reply := Deserialized(ReplyTo(g, i));
    assert Reply(l, n) == reply;
    if i % REQUESTS_PER_TURN == 7 {
      ImuReplyLaw(g.angles(i), 0, 0x3A);
    } else if i % REQUESTS_PER_TURN == 6 {
      EncoderReplyLaw(g.adc(i), 0x25, 0);
    }
    if reply.Some? && i % REQUESTS_PER_TURN < 7 {
      ParsersByKind(reply.value);
    }
  }

  /** Which reply in the cycle slot k gets when the channel is d behind. */
  lemma PositionUnderBacklog(first: nat, k: nat, d: nat)
    requires first % REQUESTS_PER_TURN == 0 && d <= first && k < REQUESTS_PER_TURN
    ensures var lag := d % REQUESTS_PER_TURN;
            (first + k - d) % REQUESTS_PER_TURN == if k >= lag then k - lag else k + REQUESTS_PER_TURN - lag
  {
    var turns := first / REQUESTS_PER_TURN - d / REQUESTS_PER_TURN;
    assert first + k - d == REQUESTS_PER_TURN * turns + k - d % REQUESTS_PER_TURN;
  }

  /** One turn under backlog d, slot by slot: slot k names the motor whose read was d requests
      earlier, or is untouched when that request was not a motor read. */
  lemma {:induction false} TurnUnderBacklog(was: MotorStatus, l: Link, g: Glove, first: nat, d: nat, k: nat)
    requires l.connected && d <= first
    ensures ReadsDefined(Turn(g, first, d)(k))
    ensures var r := (first + k - d) % REQUESTS_PER_TURN;
            SlotAfter(was, l, Turn(g, first, d)(k)).motorId == if r < 6 then r + 1 else was.motorId
  {
    TurnDelivers(g, first, d, k);
    SlotTakesOnlyMotorReplies(was, l, g, first + k - d);
  }

  lemma {:induction false} TurnReadsDefined(g: Glove, first: nat, d: nat)
    requires d <= first
    ensures AllReadsDefined(Turn(g, first, d))
  {
    forall k | 0 <= k < NUM_MOTORS
      ensures ReadsDefined(Turn(g, first, d)(k))
    {
      var l := Link(true, NO_STATISTICS, []);
      TurnUnderBacklog(MotorStatus(0, 0, 0, 0, 0, 0, 0, 0), l, g, first, d, k);
    }
  }

  /** Whatever the cache held, one turn leaves it aligned exactly when the backlog is a whole number of turns. */
  lemma {:induction false} AlignedIffWholeTurns(cache: seq<MotorStatus>, l: Link, g: Glove, first: nat, d: nat)
    requires l.connected && |cache| == NUM_MOTORS && first % REQUESTS_PER_TURN == 0 && d <= first
    ensures AllReadsDefined(Turn(g, first, d))
    ensures Aligned(Refreshed(cache, l, Turn(g, first, d))) <==> d % REQUESTS_PER_TURN == 0
  {
    TurnReadsDefined(g, first, d);
    var now := Refreshed(cache, l, Turn(g, first, d));
    var lag := d % REQUESTS_PER_TURN;
    if lag == 0 {
      forall k | 0 <= k < NUM_MOTORS
        ensures now[k].motorId == k + 1
      {
        PositionUnderBacklog(first, k, d);
        TurnUnderBacklog(cache[k], l, g, first, d, k);
      }
    } else {
      var k := if lag <= 5 then lag else 0;
      PositionUnderBacklog(first, k, d);
      TurnUnderBacklog(cache[k], l, g, first, d, k);
      assert now[k].motorId != k + 1;
    }
  }

  // ---- the three caches over any number of turns ----

  /** n consecutive turns, the first of them beginning at place first of the cycle. */
  function Turns(g: Glove, first: nat, d: nat, n: nat): seq<Script>
    requires d <= first
  {
    seq(n, (j: nat) requires j < n => Turn(g, first + REQUESTS_PER_TURN * j, d))
  }

  lemma {:induction false} AlignedAfterTurns(cache: seq<MotorStatus>, l: Link, g: Glove, first: nat, d: nat, n: nat)
    requires l.connected && |cache| == NUM_MOTORS && first % REQUESTS_PER_TURN == 0 && d <= first && n >= 1
    ensures forall j :: 0 <= j < n ==> AllReadsDefined(Turns(g, first, d, n)[j])
    ensures Aligned(RefreshedOverall(cache, l, Turns(g, first, d, n))) <==> d % REQUESTS_PER_TURN == 0
  {
    var turns := Turns(g, first, d, n);
    forall j | 0 <= j < n
      ensures AllReadsDefined(turns[j])
    {
      TurnReadsDefined(g, first + REQUESTS_PER_TURN * j, d);
    }
    var last := first + REQUESTS_PER_TURN * (n - 1);
    TurnStart(first, n - 1);
    assert turns[n - 1] == Turn(g, last, d);
    AlignedIffWholeTurns(RefreshedOverall(cache, l, turns[..n - 1]), l, g, last, d);
  }

  lemma TurnStart(first: nat, j: nat)
    requires first % REQUESTS_PER_TURN == 0
    ensures (first + REQUESTS_PER_TURN * j) % REQUESTS_PER_TURN == 0
  {
  }

  /** Place k of the cycle hears its own kind of reply exactly behind whole turns; the last place, a
      motor's exactly when the lag reaches back to the motor reads. */
  lemma {:induction false} KindBehind(first: nat, k: nat, d: nat, i: nat)
    requires first % REQUESTS_PER_TURN == 0 && d <= first && k < REQUESTS_PER_TURN && i == first + k - d
    ensures i % REQUESTS_PER_TURN == k <==> d % REQUESTS_PER_TURN == 0
    ensures k == 7 ==> (i % REQUESTS_PER_TURN < 6 <==> (7 - d) % REQUESTS_PER_TURN < 6)
  {
    PositionUnderBacklog(first, k, d);
    LagOfSeven(d);
  }

  lemma LagOfSeven(d: nat)
    ensures (7 - d) % REQUESTS_PER_TURN == 7 - d % REQUESTS_PER_TURN
  {
  }

  /** What the encoder exchange of a turn behind d replies reads: its own kind of reply only behind
      whole turns, and nothing at all otherwise. */
  lemma {:induction false} EncoderBehind(l: Link, g: Glove, first: nat, d: nat, i: nat, n: Net)
    requires l.connected && first % REQUESTS_PER_TURN == 0 && d <= first
    requires i == first + 6 - d && n == Turn(g, first, d)(6)
    ensures Encoders.ReadingFrom(l, n)
            == if d % REQUESTS_PER_TURN == 0 && !EncoderDropped(g.adc(i)) then Some(g.adc(i)) else None
  {
    TurnDelivers(g, first, d, 6);
    KindBehind(first, 6, d, i);
    EncoderTakesOnlyEncoderReplies(l, g, i, n);
  }

  /** What its IMU exchange reads: a motor's status exactly when the lag reaches back to the motor
      reads, and its own orientation behind whole turns. */
  lemma {:induction false} ImuBehind(l: Link, g: Glove, first: nat, d: nat, i: nat, n: Net, decode: Imu.Decoding)
    requires l.connected && first % REQUESTS_PER_TURN == 0 && d <= first
    requires i == first + 7 - d && n == Turn(g, first, d)(7)
    ensures TakesStatus(l, n, decode) <==> (7 - d) % REQUESTS_PER_TURN < 6
    ensures d % REQUESTS_PER_TURN == 0 ==>
              Imu.ReadingFrom(decode, l, n)
              == if ImuDropped(g.angles(i)) then None else Some(Imu.Decoded(decode, g.angles(i)))
  {
    TurnDelivers(g, first, d, 7);
    KindBehind(first, 7, d, i);
    ImuTakesMotorRepliesToo(l, g, i, n, decode);
  }

  /** An exchange of the IMU reader that returns a motor's status and yields an orientation from it. */
  predicate TakesStatus(l: Link, n: Net, decode: Imu.Decoding) {
    ReturnsStatus(l, n) && Imu.ReadingFrom(decode, l, n).Some?
  }

  /** The encoder cache after the encoder exchanges of some turns. */
  function EncoderAfter(words: Encoders.AdcWords, l: Link, turns: seq<Script>): Encoders.AdcWords {
    if turns == [] then words
    else Encoders.AfterUpdate(EncoderAfter(words, l, turns[..|turns| - 1]),
                              Encoders.ReadingFrom(l, turns[|turns| - 1](6)))
  }

  lemma {:induction false} EncoderAfterTurns(
      words: Encoders.AdcWords, l: Link, g: Glove, first: nat, d: nat, n: nat, turns: seq<Script>)
    requires l.connected && first % REQUESTS_PER_TURN == 0 && d <= first && turns == Turns(g, first, d, n)
    ensures EncoderAfter(words, l, turns)
            == if d % REQUESTS_PER_TURN == 0 then LastGood(words, g, first - d, n) else words
  {
    if n > 0 {
      assert turns[..n - 1] == Turns(g, first, d, n - 1);
      EncoderAfterTurns(words, l, g, first, d, n - 1, turns[..n - 1]);
      LastTurnReads(l, g, first, d, n, turns[n - 1](6));
    }
  }

  lemma {:induction false} LastTurnReads(l: Link, g: Glove, first: nat, d: nat, n: nat, heard: Net)
    requires l.connected && first % REQUESTS_PER_TURN == 0 && d <= first && n > 0
    requires heard == Turns(g, first, d, n)[n - 1](6)
    ensures var adc := g.adc(first - d + REQUESTS_PER_TURN * (n - 1) + 6);
            Encoders.ReadingFrom(l, heard)
            == if d % REQUESTS_PER_TURN == 0 && !EncoderDropped(adc) then Some(adc) else None
  {
    var place := first + REQUESTS_PER_TURN * (n - 1);
    TurnStart(first, n - 1);
    assert Turns(g, first, d, n)[n - 1] == Turn(g, place, d);
    EncoderBehind(l, g, place, d, first - d + REQUESTS_PER_TURN * (n - 1) + 6, heard);
  }

  /** The last of n encoder readings, a turn apart, that gets through; the old words if none does. */
  function LastGood(words: Encoders.AdcWords, g: Glove, first: nat, n: nat): Encoders.AdcWords {
    if n == 0 then words
    else
      var adc := g.adc(first + REQUESTS_PER_TURN * (n - 1) + 6);
      if EncoderDropped(adc) then LastGood(words, g, first, n - 1) else adc
  }

  lemma {:induction false} ImuOverTurns(l: Link, g: Glove, first: nat, d: nat, n: nat, decode: Imu.Decoding)
    requires l.connected && first % REQUESTS_PER_TURN == 0 && d <= first
    ensures var turns := Turns(g, first, d, n);
            forall j :: 0 <= j < n ==> (TakesStatus(l, turns[j](7), decode) <==> (7 - d) % REQUESTS_PER_TURN < 6)
  {
    var turns := Turns(g, first, d, n);
    forall j | 0 <= j < n
      ensures TakesStatus(l, turns[j](7), decode) <==> (7 - d) % REQUESTS_PER_TURN < 6
    {
      TurnStart(first, j);
      var place := first + REQUESTS_PER_TURN * j;
      ImuBehind(l, g, place, d, place + 7 - d, turns[j](7), decode);
    }
  }

  /** What turns behind d replies do to the sensors. Behind anything but whole turns the encoder cache
      keeps its words for ever; behind whole turns it holds the last reading that got through. The
      IMU reader takes a motor's status in every turn exactly when the lag reaches back to the motor reads. */
  ghost predicate SensorsLag(
      words: Encoders.AdcWords, decode: Imu.Decoding, l: Link, g: Glove, first: nat, d: nat, turns: seq<Script>)
    requires d <= first
  {
    && EncoderAfter(words, l, turns)
       == (if d % REQUESTS_PER_TURN == 0 then LastGood(words, g, first - d, |turns|) else words)
    && forall j :: 0 <= j < |turns| ==> (TakesStatus(l, turns[j](7), decode) <==> (7 - d) % REQUESTS_PER_TURN < 6)
  }

  lemma {:induction false} SensorsOverTurns(
      words: Encoders.AdcWords, decode: Imu.Decoding, l: Link, g: Glove, first: nat, d: nat, turns: seq<Script>)
    requires l.connected && first % REQUESTS_PER_TURN == 0 && d <= first && turns == Turns(g, first, d, |turns|)
    ensures SensorsLag(words, decode, l, g, first, d, turns)
  {
    EncoderAfterTurns(words, l, g, first, d, |turns|, turns);
    ImuOverTurns(l, g, first, d, |turns|, decode);
  }

  // ---- whole runs of the loop over the channel ----

  /** A stretch of the loop: a run from a state with nobody in flight in which nothing is lost, late
      or refused, no other exchange overlaps the loop's, and every request is answered by f. */
  ghost predicate LoopRun(f: nat -> seq<Byte>, s: Exchange.State, run: seq<Exchange.Step>) {
    && Pairing.NobodyInFlight(s) && Pairing.OldTags(s) && Exchange.Feasible(s, run)
    && Pairing.SmoothRun(s, run) && Pairing.NoOverlap(s, run) && Pairing.AnsweredBy(f, s, run)
  }

  /** The log from an index on holds what the client hears in one turn. */
  ghost predicate LoggedTurn(log: seq<Exchange.Answer>, at: int, l: Link, turn: Script) {
    forall k: nat :: k < REQUESTS_PER_TURN ==> LoggedAt(log, at + k, l, turn(k))
  }

  predicate LoggedAt(log: seq<Exchange.Answer>, i: int, l: Link, n: Net) {
    0 <= i < |log| && log[i].packet == Reply(l, n)
  }

  lemma {:induction false} TurnIsLogged(
      f: nat -> seq<Byte>, s: Exchange.State, run: seq<Exchange.Step>, l: Link, first: nat)
    requires LoopRun(f, s, run) && l.connected && s.next + |s.outstanding| <= first
    requires Pairing.LogIndex(s, first + REQUESTS_PER_TURN) <= |Exchange.After(s, run).log|
    ensures LoggedTurn(Exchange.After(s, run).log, Pairing.LogIndex(s, first), l,
                       Pairing.Lagging(f, first, |s.outstanding|))
  {
    var turn := Pairing.Lagging(f, first, |s.outstanding|);
    forall k: nat | k < REQUESTS_PER_TURN
      ensures LoggedAt(Exchange.After(s, run).log, Pairing.LogIndex(s, first) + k, l, turn(k))
    {
      Pairing.ChannelLags(f, s, run, l, first, k);
    }
  }

  lemma {:induction false} SameTurn(log: seq<Exchange.Answer>, at: int, l: Link, turn: Script, same: Script)
    requires LoggedTurn(log, at, l, turn) && forall k: nat :: k < REQUESTS_PER_TURN ==> turn(k) == same(k)
    ensures LoggedTurn(log, at, l, same)
  {
    forall k: nat | k < REQUESTS_PER_TURN
      ensures LoggedAt(log, at + k, l, same(k))
    {
      assert LoggedAt(log, at + k, l, turn(k)) && turn(k) == same(k);
    }
  }

  /** Whatever number the loop's requests begin at, its log holds turns of the cycle. */
  lemma {:induction false} PhasedTurnIsLogged(
      g: Glove, phase: nat, s: Exchange.State, run: seq<Exchange.Step>, l: Link, first: nat, place: nat, at: int)
    requires LoopRun(Answers(g, phase), s, run) && l.connected && s.next + |s.outstanding| <= first
    requires Pairing.LogIndex(s, first + REQUESTS_PER_TURN) <= |Exchange.After(s, run).log|
    requires place == first + phase && at == Pairing.LogIndex(s, first)
    ensures LoggedTurn(Exchange.After(s, run).log, at, l, Turn(g, place, |s.outstanding|))
  {
    var d := |s.outstanding|;
    TurnIsLogged(Answers(g, phase), s, run, l, first);
    forall k: nat | k < REQUESTS_PER_TURN
      ensures Pairing.Lagging(Answers(g, phase), first, d)(k) == Turn(g, place, d)(k)
    {
      PhasedTurn(g, phase, first, d, k);
    }
    SameTurn(Exchange.After(s, run).log, at, l, Pairing.Lagging(Answers(g, phase), first, d), Turn(g, place, d));
  }

  /** And turn after turn, from the one whose log begins at an index. */
  ghost predicate LoggedTurns(log: seq<Exchange.Answer>, at: int, l: Link, turns: seq<Script>) {
    forall j :: 0 <= j < |turns| ==> LoggedTurn(log, at + REQUESTS_PER_TURN * j, l, turns[j])
  }

  lemma {:induction false} LoopIsLogged(
      g: Glove, phase: nat, s: Exchange.State, run: seq<Exchange.Step>, l: Link, first: nat, place: nat, n: nat)
    requires place == first + phase
    requires LoopRun(Answers(g, phase), s, run) && l.connected && s.next + |s.outstanding| <= first
    requires Pairing.LogIndex(s, first + REQUESTS_PER_TURN * n) <= |Exchange.After(s, run).log|
    ensures LoggedTurns(Exchange.After(s, run).log, Pairing.LogIndex(s, first), l,
                        Turns(g, place, |s.outstanding|, n))
  {
    var log, at := Exchange.After(s, run).log, Pairing.LogIndex(s, first);
    var turns := Turns(g, place, |s.outstanding|, n);
    forall j | 0 <= j < n
      ensures LoggedTurn(log, at + REQUESTS_PER_TURN * j, l, turns[j])
    {
      var ahead := REQUESTS_PER_TURN * j;
      PhasedTurnIsLogged(g, phase, s, run, l, first + ahead, place + ahead, at + ahead);
    }
  }

  /** So from any reachable state with nobody in flight, and wherever its requests begin, the motor
      cache that n whole turns of the loop leave behind is aligned, whatever it held before, exactly
      when the backlog d is a whole number of turns. The turns are those the channel delivers: every
      packet of theirs is the one logged for its request. */
  lemma {:induction false} LoopAlignsIffWholeTurns(
      g: Glove, phase: nat, start: Exchange.State, before: seq<Exchange.Step>, run: seq<Exchange.Step>,
      cache: seq<MotorStatus>, l: Link, first: nat, place: nat, n: nat)
    requires Exchange.Init(start) && Exchange.Feasible(start, before)
    requires LoopRun(Answers(g, phase), Exchange.After(start, before), run) && l.connected
    requires place == first + phase && place % REQUESTS_PER_TURN == 0 && |cache| == NUM_MOTORS && n >= 1
    requires var s := Exchange.After(start, before);
             && s.next + |s.outstanding| <= first
             && Pairing.LogIndex(s, first + REQUESTS_PER_TURN * n) <= |Exchange.After(s, run).log|
    ensures var s := Exchange.After(start, before);
            var turns := Turns(g, place, |s.outstanding|, n);
            && LoggedTurns(Exchange.After(s, run).log, Pairing.LogIndex(s, first), l, turns)
            && (forall j :: 0 <= j < n ==> AllReadsDefined(turns[j]))
            && (Aligned(RefreshedOverall(cache, l, turns)) <==> |s.outstanding| % REQUESTS_PER_TURN == 0)
  {
    var s := Exchange.After(start, before);
    LoopIsLogged(g, phase, s, run, l, first, place, n);
    AlignedAfterTurns(cache, l, g, place, |s.outstanding|, n);
  }

  /** And over the same turns the sensors lag accordingly. */
  lemma {:induction false} LoopSensors(
      g: Glove, phase: nat, start: Exchange.State, before: seq<Exchange.Step>, run: seq<Exchange.Step>,
      words: Encoders.AdcWords, decode: Imu.Decoding, l: Link, first: nat, place: nat, n: nat)
    requires Exchange.Init(start) && Exchange.Feasible(start, before)
    requires LoopRun(Answers(g, phase), Exchange.After(start, before), run) && l.connected
    requires place == first + phase && place % REQUESTS_PER_TURN == 0
    requires var s := Exchange.After(start, before);
             && s.next + |s.outstanding| <= first
             && Pairing.LogIndex(s, first + REQUESTS_PER_TURN * n) <= |Exchange.After(s, run).log|
    ensures var s := Exchange.After(start, before);
            var turns := Turns(g, place, |s.outstanding|, n);
            && LoggedTurns(Exchange.After(s, run).log, Pairing.LogIndex(s, first), l, turns)
            && SensorsLag(words, decode, l, g, place, |s.outstanding|, turns)
  {
    var s := Exchange.After(start, before);
    LoopIsLogged(g, phase, s, run, l, first, place, n);
    SensorsOverTurns(words, decode, l, g, place, |s.outstanding|, Turns(g, place, |s.outstanding|, n));
  }

  /** What the caller's counters say about it, with no bound on anything: backlog and losses add up
      to the failed exchanges modulo 2^64, hence modulo 8. */
  lemma {:induction false} CountersTellAlignment(start: Exchange.State, before: seq<Exchange.Step>)
    requires Exchange.Init(start) && Exchange.Feasible(start, before) && Exchange.LastReset(start, before, -1)
    requires Exchange.AllIdle(Exchange.After(start, before))
    ensures var s := Exchange.After(start, before);
            |s.outstanding| % REQUESTS_PER_TURN == 0
            <==> (s.stats.timeouts + s.stats.receiveErrors) % REQUESTS_PER_TURN == s.lost % REQUESTS_PER_TURN
  {
    var s := Exchange.After(start, before);
    Exchange.IdleBacklog(start, before);
    BacklogModuloEight(|s.outstanding|, s.lost, s.stats.timeouts + s.stats.receiveErrors);
  }

  lemma {:induction false} BacklogModuloEight(backlog: nat, lost: nat, failures: nat)
    requires (backlog + lost) % COUNTER_MODULUS == failures % COUNTER_MODULUS
    ensures backlog % REQUESTS_PER_TURN == 0 <==> failures % REQUESTS_PER_TURN == lost % REQUESTS_PER_TURN
  {
    var k := 0x2000_0000_0000_0000 * (failures / COUNTER_MODULUS - (backlog + lost) / COUNTER_MODULUS);
    assert failures == backlog + lost + REQUESTS_PER_TURN * k;
    MultipleOfEight(backlog + lost, k);
    if backlog % REQUESTS_PER_TURN == 0 {
      MultipleOfEight(lost, backlog / REQUESTS_PER_TURN);
    }
  }

  lemma MultipleOfEight(x: int, k: int)
    ensures (x + REQUESTS_PER_TURN * k) % REQUESTS_PER_TURN == x % REQUESTS_PER_TURN
  {
  }
}
