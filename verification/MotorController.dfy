/** The motor API: range checks before every frame, batches that go on after failures, and the
    per-motor status cache that is filled from whatever reply came back. */
module Motors {
  import opened Bytes
  import opened Packets
  import opened Commands
  import opened Replies
  import opened Client

  const NUM_MOTORS: nat := 6
  const MOTOR_POSITION_MAX: Word := 2000
  const MOTOR_FORCE_MAX: Word := 4095
  const MODE_FORCE: Byte := 3
  const MODE_SPEED_FORCE: Byte := 5

  /** How the network behaves at the k-th exchange of a call. */
  type Script = nat -> Net

  predicate IsValidMotorId(id: Byte) { 1 <= id <= NUM_MOTORS }
  predicate IsValidMode(mode: Byte) { mode <= MODE_SPEED_FORCE }
  predicate IsValidForce(force: Word) { force <= MOTOR_FORCE_MAX }
  predicate IsValidPosition(position: Word) { position <= MOTOR_POSITION_MAX }

  /** What the hardware may be asked to do, in its own numbers. */
  predicate InRange(c: Command) {
    match c
    case ReadMotorStatus(id) => 1 <= id <= 6
    case SetMode(id, mode) => 1 <= id <= 6 && mode <= 5
    case SetPosition(id, position) => 1 <= id <= 6 && position <= 2000
    case SetForce(id, force) => 1 <= id <= 6 && force <= 4095
    case SetSpeed(id, _, position) => 1 <= id <= 6 && position <= 2000
    case _ => false
  }

  /** The client after one attempted command; out-of-range commands never reach it. */
  function Tried(l: Link, c: Command, n: Net): Link {
    if InRange(c) then AfterExchange(l, Frame(c), n) else l
  }

  predicate Answered(l: Link, c: Command, n: Net) {
    InRange(c) && Reply(l, n).Some?
  }

  function TriedAll(l: Link, cs: seq<Command>, script: Script): Link {
    if cs == [] then l
    else Tried(TriedAll(l, cs[..|cs| - 1], script), cs[|cs| - 1], script(|cs| - 1))
  }

  predicate AllAnswered(l: Link, cs: seq<Command>, script: Script) {
    forall k :: 0 <= k < |cs| ==> Answered(l, cs[k], script(k))
  }

  function AllModes(mode: Byte): seq<Command> {
    seq(NUM_MOTORS, (i: nat) requires i < NUM_MOTORS => SetMode(i + 1, mode))
  }

  function AllPositions(positions: seq<Word>): seq<Command>
    requires |positions| == NUM_MOTORS
  {
    seq(NUM_MOTORS, (i: nat) requires i < NUM_MOTORS => SetPosition(i + 1, positions[i]))
  }

  function AllForces(forces: seq<Word>): seq<Command>
    requires |forces| == NUM_MOTORS
  {
    seq(NUM_MOTORS, (i: nat) requires i < NUM_MOTORS => SetForce(i + 1, forces[i]))
  }

  /** The reply, if one arrives and reads, is not the motor response whose parse reads past its body. */
  predicate ReadsDefined(n: Net) {
    n.recv.Arrived? ==>
      match Deserialized(Buffered(n.recv.bytes))
      case None => true
      case Some(p) => MotorReadsDefined(p)
  }

  ghost predicate AllReadsDefined(script: Script) {
    forall k :: 0 <= k < NUM_MOTORS ==> ReadsDefined(script(k))
  }

  /** What a status request yields from what the exchange returned. */
  function StatusFrom(l: Link, n: Net): Option<MotorStatus>
    requires ReadsDefined(n)
  {
    match Reply(l, n)
    case None => None
    case Some(p) => ParseMotorStatus(p)
  }

  /** The cache after one full update: each slot its own exchange's status, or what it was. */
  ghost function Refreshed(cache: seq<MotorStatus>, l: Link, script: Script): seq<MotorStatus>
    requires |cache| == NUM_MOTORS && AllReadsDefined(script)
  {
    seq(NUM_MOTORS, (k: nat) requires k < NUM_MOTORS => SlotAfter(cache[k], l, script(k)))
  }

  function SlotAfter(was: MotorStatus, l: Link, n: Net): MotorStatus
    requires ReadsDefined(n)
  {
    match StatusFrom(l, n)
    case None => was
    case Some(status) => status
  }

  ghost predicate SomeFresh(l: Link, script: Script, count: nat)
    requires AllReadsDefined(script) && count <= NUM_MOTORS
  {
    exists k :: 0 <= k < count && StatusFrom(l, script(k)).Some?
  }

  /** The exchange returned a motor's status. */
  predicate ReturnsStatus(l: Link, n: Net) {
    Reply(l, n).Some? && IsMotorResponse(Reply(l, n).value)
  }

  lemma {:induction false} FreshMeansReturned(l: Link, script: Script)
    requires AllReadsDefined(script)
    ensures SomeFresh(l, script, NUM_MOTORS) <==> exists k :: 0 <= k < 6 && ReturnsStatus(l, script(k))
  {
    forall k | 0 <= k < NUM_MOTORS
      ensures StatusFrom(l, script(k)).Some? <==> ReturnsStatus(l, script(k))
    {
      if Reply(l, script(k)).Some? {
        assert ReadsDefined(script(k));
        ParsersByKind(Reply(l, script(k)).value);
      }
    }
  }

  function StatusRequests(): seq<Command> {
    seq(NUM_MOTORS, (i: nat) requires i < NUM_MOTORS => ReadMotorStatus(i + 1))
  }

  /** All six exchanges of a batch returned a reply. */
  ghost predicate AllReplied(l: Link, script: Script, from: nat) {
    forall k :: from <= k < from + 6 ==> Reply(l, script(k)).Some?
  }

  lemma {:induction false} AllAnsweredMeansReplied(l: Link, cs: seq<Command>, script: Script)
    requires |cs| == 6
    ensures AllAnswered(l, cs, script) <==> AllReplied(l, script, 0) && forall i :: 0 <= i < 6 ==> InRange(cs[i])
  {
    if AllReplied(l, script, 0) && forall i :: 0 <= i < 6 ==> InRange(cs[i]) {
      forall k | 0 <= k < |cs|
        ensures Answered(l, cs[k], script(k))
      {
        assert InRange(cs[k]) && Reply(l, script(k)).Some?;
      }
    }
    if AllAnswered(l, cs, script) {
      forall k | 0 <= k < 6
        ensures InRange(cs[k]) && Reply(l, script(k)).Some?
      {
        assert Answered(l, cs[k], script(k));
      }
    }
  }

  lemma {:induction false} ModesAnswered(l: Link, mode: Byte, script: Script)
    ensures AllAnswered(l, AllModes(mode), script) <==> mode <= 5 && AllReplied(l, script, 0)
  {
    AllAnsweredMeansReplied(l, AllModes(mode), script);
    assert AllModes(mode)[0] == SetMode(1, mode);
    assert forall i :: 0 <= i < 6 ==> AllModes(mode)[i] == SetMode(i + 1, mode);
  }

  lemma {:induction false} PositionsAnswered(l: Link, positions: seq<Word>, script: Script)
    requires |positions| == 6
    ensures AllAnswered(l, AllPositions(positions), script)
            <==> AllReplied(l, script, 0) && forall i :: 0 <= i < 6 ==> positions[i] <= 2000
  {
    AllAnsweredMeansReplied(l, AllPositions(positions), script);
    assert forall i :: 0 <= i < 6 ==> AllPositions(positions)[i] == SetPosition(i + 1, positions[i]);
  }

  lemma {:induction false} ForcesAnswered(l: Link, forces: seq<Word>, script: Script)
    requires |forces| == 6
    ensures AllAnswered(l, AllForces(forces), script)
            <==> AllReplied(l, script, 0) && forall i :: 0 <= i < 6 ==> forces[i] <= 4095
  {
    AllAnsweredMeansReplied(l, AllForces(forces), script);
    assert forall i :: 0 <= i < 6 ==> AllForces(forces)[i] == SetForce(i + 1, forces[i]);
  }

  lemma {:induction false} TriedKeepsConnected(l: Link, cs: seq<Command>, script: Script)
    ensures TriedAll(l, cs, script).connected == l.connected
  {
    if cs != [] {
      TriedKeepsConnected(l, cs[..|cs| - 1], script);
    }
  }

  /** One more entry of a batch: the client, and whether all are answered. */
  lemma {:induction false} BatchStep(l: Link, all: seq<Command>, i: nat, script: Script)
    requires i < |all|
    ensures TriedAll(l, all[..i + 1], script) == Tried(TriedAll(l, all[..i], script), all[i], script(i))
    ensures Answered(TriedAll(l, all[..i], script), all[i], script(i)) <==> Answered(l, all[i], script(i))
  {
    assert all[..i + 1][..i] == all[..i];
    TriedKeepsConnected(l, all[..i], script);
  }

  lemma {:induction false} AnswersIgnoreHistory(l: Link, done: seq<Command>, first: Script, cs: seq<Command>, script: Script)
    ensures AllAnswered(TriedAll(l, done, first), cs, script) <==> AllAnswered(l, cs, script)
  {
    TriedKeepsConnected(l, done, first);
  }

  lemma {:induction false} AnswersStep(l: Link, all: seq<Command>, i: nat, script: Script)
    requires i < |all|
    ensures AllAnswered(l, all[..i + 1], script) <==> AllAnswered(l, all[..i], script) && Answered(l, all[i], script(i))
  {
    var front, more := all[..i], all[..i + 1];
    assert more == front + [all[i]];
    if AllAnswered(l, more, script) {
      assert forall k :: 0 <= k < i ==> front[k] == more[k];
      assert more[i] == all[i];
    }
  }

  lemma {:induction false} StatusIgnoresHistory(l: Link, cs: seq<Command>, script: Script, n: Net)
    requires ReadsDefined(n)
    ensures StatusFrom(TriedAll(l, cs, script), n) == StatusFrom(l, n)
  {
    TriedKeepsConnected(l, cs, script);
  }

  /** One more turn of an update, on values: the client, the cache and the success flag. */
  lemma {:induction false} UpdateStep(was: seq<MotorStatus>, l: Link, script: Script, i: nat)
    requires |was| == NUM_MOTORS && i < NUM_MOTORS && AllReadsDefined(script)
    ensures var before := TriedAll(l, StatusRequests()[..i], script);
            && TriedAll(l, StatusRequests()[..i + 1], script) == Tried(before, ReadMotorStatus(i + 1), script(i))
            && PartlyRefreshed(was, l, script, i)[i := SlotAfter(was[i], before, script(i))]
               == PartlyRefreshed(was, l, script, i + 1)
            && PartlyRefreshed(was, l, script, i)[i] == was[i]
            && (SomeFresh(l, script, i + 1) <==> SomeFresh(l, script, i) || StatusFrom(before, script(i)).Some?)
  {
    BatchStep(l, StatusRequests(), i, script);
    StatusIgnoresHistory(l, StatusRequests()[..i], script, script(i));
    PartlyRefreshedStep(was, l, script, i);
  }

  /** The first i slots refreshed, the others as they were. */
  ghost function PartlyRefreshed(was: seq<MotorStatus>, l: Link, script: Script, i: nat): seq<MotorStatus>
    requires |was| == NUM_MOTORS && i <= NUM_MOTORS && AllReadsDefined(script)
  {
    Refreshed(was, l, script)[..i] + was[i..]
  }

  lemma {:induction false} PartlyRefreshedStep(was: seq<MotorStatus>, l: Link, script: Script, i: nat)
    requires |was| == NUM_MOTORS && i < NUM_MOTORS && AllReadsDefined(script)
    ensures PartlyRefreshed(was, l, script, i)[i] == was[i]
    ensures PartlyRefreshed(was, l, script, i)[i := SlotAfter(was[i], l, script(i))]
            == PartlyRefreshed(was, l, script, i + 1)
  {
    OneMoreRefreshed(was, Refreshed(was, l, script), i);
  }

  lemma {:induction false} UpdateDone(was: seq<MotorStatus>, l: Link, script: Script)
    requires |was| == NUM_MOTORS && AllReadsDefined(script)
    ensures StatusRequests()[..NUM_MOTORS] == StatusRequests()
    ensures PartlyRefreshed(was, l, script, NUM_MOTORS) == Refreshed(was, l, script)
  {
  }

  lemma OneMoreRefreshed(was: seq<MotorStatus>, now: seq<MotorStatus>, i: nat)
    requires |was| == |now| && i < |was|
    ensures (now[..i] + was[i..])[i] == was[i]
    ensures (now[..i] + was[i..])[i := now[i]] == now[..i + 1] + was[i + 1..]
  {
  }

  class MotorController {
    const client: UdpClient
    const cachedStatus: array<MotorStatus>

    ghost predicate Valid()
      reads this, client, cachedStatus
    {
      client.Valid() && cachedStatus.Length == NUM_MOTORS
    }

    constructor (client: UdpClient)
      requires client.Valid()
      ensures Valid() && this.client == client && fresh(cachedStatus)
      ensures Aligned(cachedStatus[..])
    {
      this.client := client;
      var cache := new MotorStatus[NUM_MOTORS](i => MotorStatus(0, 0, 0, 0, 0, 0, 0, 0));
      for i := 0 to NUM_MOTORS
        invariant forall k :: 0 <= k < i ==> cache[k].motorId == k + 1
      {
        cache[i] := cache[i].(motorId := i + 1);
      }
      cachedStatus := cache;
    }

    method SetMotorMode(motorId: Byte, mode: Byte, n: Net) returns (ok: bool)
      requires Valid()
      modifies client`stats, client`handed
      ensures Valid()
      ensures client.State() == Tried(old(client.State()), SetMode(motorId, mode), n)
      ensures ok == Answered(old(client.State()), SetMode(motorId, mode), n)
      ensures ok == (1 <= motorId <= 6 && mode <= 5 && Reply(old(client.State()), n).Some?)
      ensures client.handed
              == old(client.handed)
                 + if old(client.connected) && 1 <= motorId <= 6 && mode <= 5
                   then [RequestBytes(SetMode(motorId, mode))] else []
    {
      RequestsInNumbers(SetMode(motorId, mode));
      if !IsValidMotorId(motorId) {
        return false;
      }
      if !IsValidMode(mode) {
        return false;
      }
      var packet := EncodeSetMotorMode(motorId, mode);
      var response := client.SendAndReceive(packet, n);
      return response.Some?;
    }

    method SetMotorPosition(motorId: Byte, position: Word, n: Net) returns (ok: bool)
      requires Valid()
      modifies client`stats, client`handed
      ensures Valid()
      ensures client.State() == Tried(old(client.State()), SetPosition(motorId, position), n)
      ensures ok == Answered(old(client.State()), SetPosition(motorId, position), n)
      ensures ok == (1 <= motorId <= 6 && position <= 2000 && Reply(old(client.State()), n).Some?)
      ensures client.handed
              == old(client.handed)
                 + if old(client.connected) && 1 <= motorId <= 6 && position <= 2000
                   then [RequestBytes(SetPosition(motorId, position))] else []
    {
      RequestsInNumbers(SetPosition(motorId, position));
      if !IsValidMotorId(motorId) {
        return false;
      }
      if !IsValidPosition(position) {
        return false;
      }
      var packet := EncodeSetMotorPosition(motorId, position);
      var response := client.SendAndReceive(packet, n);
      return response.Some?;
    }

    method SetMotorForce(motorId: Byte, force: Word, n: Net) returns (ok: bool)
      requires Valid()
      modifies client`stats, client`handed
      ensures Valid()
      ensures client.State() == Tried(old(client.State()), SetForce(motorId, force), n)
      ensures ok == Answered(old(client.State()), SetForce(motorId, force), n)
      ensures ok == (1 <= motorId <= 6 && force <= 4095 && Reply(old(client.State()), n).Some?)
      ensures client.handed
              == old(client.handed)
                 + if old(client.connected) && 1 <= motorId <= 6 && force <= 4095
                   then [RequestBytes(SetForce(motorId, force))] else []
    {
      RequestsInNumbers(SetForce(motorId, force));
      if !IsValidMotorId(motorId) {
        return false;
      }
      if !IsValidForce(force) {
        return false;
      }
      var packet := EncodeSetMotorForce(motorId, force);
      var response := client.SendAndReceive(packet, n);
      return response.Some?;
    }

    method SetMotorSpeed(motorId: Byte, speed: Word, targetPosition: Word, n: Net) returns (ok: bool)
      requires Valid()
      modifies client`stats, client`handed
      ensures Valid()
      ensures client.State() == Tried(old(client.State()), SetSpeed(motorId, speed, targetPosition), n)
      ensures ok == Answered(old(client.State()), SetSpeed(motorId, speed, targetPosition), n)
      ensures ok == (1 <= motorId <= 6 && targetPosition <= 2000 && Reply(old(client.State()), n).Some?)
      ensures client.handed
              == old(client.handed)
                 + if old(client.connected) && 1 <= motorId <= 6 && targetPosition <= 2000
                   then [RequestBytes(SetSpeed(motorId, speed, targetPosition))] else []
    {
      RequestsInNumbers(SetSpeed(motorId, speed, targetPosition));
      if !IsValidMotorId(motorId) {
        return false;
      }
      if !IsValidPosition(targetPosition) {
        return false;
      }
      var packet := EncodeSetMotorSpeed(motorId, speed, targetPosition);
      var response := client.SendAndReceive(packet, n);
      return response.Some?;
    }

    method SetAllModes(mode: Byte, script: Script) returns (success: bool)
      requires Valid()
      modifies client`stats, client`handed
      ensures Valid()
      ensures client.State() == TriedAll(old(client.State()), AllModes(mode), script)
      ensures success == AllAnswered(old(client.State()), AllModes(mode), script)
      ensures success <==> mode <= 5 && AllReplied(old(client.State()), script, 0)
      ensures old(client.connected) && mode <= 5 ==> client.handed == old(client.handed) + Requests(ModesFor(mode))
    {
      success := true;
      ghost var l, all := client.State(), AllModes(mode);
      for motorId := 1 to NUM_MOTORS + 1
        invariant Valid()
        invariant client.State() == TriedAll(l, all[..motorId - 1], script)
        invariant success == AllAnswered(l, all[..motorId - 1], script)
      {
        ghost var i := motorId - 1;
        BatchStep(l, all, i, script);
        AnswersStep(l, all, i, script);
        assert all[i] == SetMode(motorId, mode);
        var ok := SetMotorMode(motorId, mode, script(motorId - 1));
        if !ok {
          success := false;
        }
      }
      assert all[..NUM_MOTORS] == all;
      ModesAnswered(old(client.State()), mode, script);
      if old(client.connected) && mode <= 5 {
        ModesHanded(old(client.State()), mode, script);
      }
    }

    method SetAllPositions(positions: seq<Word>, script: Script) returns (success: bool)
      requires Valid() && |positions| == NUM_MOTORS
      modifies client`stats, client`handed
      ensures Valid()
      ensures client.State() == TriedAll(old(client.State()), AllPositions(positions), script)
      ensures success == AllAnswered(old(client.State()), AllPositions(positions), script)
      ensures success
              <==> AllReplied(old(client.State()), script, 0) && forall i :: 0 <= i < 6 ==> positions[i] <= 2000
      ensures old(client.connected) && (forall i :: 0 <= i < 6 ==> positions[i] <= 2000) ==>
                client.handed == old(client.handed) + Requests(PositionsFor(positions))
    {
      success := true;
      ghost var all := AllPositions(positions);
      for i := 0 to NUM_MOTORS
        invariant Valid()
        invariant client.State() == TriedAll(old(client.State()), all[..i], script)
        invariant success == AllAnswered(old(client.State()), all[..i], script)
      {
        BatchStep(old(client.State()), all, i, script);
        AnswersStep(old(client.State()), all, i, script);
        var ok := SetMotorPosition(i + 1, positions[i], script(i));
        if !ok {
          success := false;
        }
      }
      assert all[..NUM_MOTORS] == all;
      PositionsAnswered(old(client.State()), positions, script);
      if old(client.connected) && (forall i :: 0 <= i < 6 ==> positions[i] <= 2000) {
        PositionsHanded(old(client.State()), positions, script);
      }
    }

    method SetAllForces(forces: seq<Word>, script: Script) returns (success: bool)
      requires Valid() && |forces| == NUM_MOTORS
      modifies client`stats, client`handed
      ensures Valid()
      ensures client.State() == TriedAll(old(client.State()), AllForces(forces), script)
      ensures success == AllAnswered(old(client.State()), AllForces(forces), script)
      ensures success
              <==> AllReplied(old(client.State()), script, 0) && forall i :: 0 <= i < 6 ==> forces[i] <= 4095
      ensures old(client.connected) && (forall i :: 0 <= i < 6 ==> forces[i] <= 4095) ==>
                client.handed == old(client.handed) + Requests(ForcesFor(forces))
    {
      success := true;
      ghost var all := AllForces(forces);
      for i := 0 to NUM_MOTORS
        invariant Valid()
        invariant client.State() == TriedAll(old(client.State()), all[..i], script)
        invariant success == AllAnswered(old(client.State()), all[..i], script)
      {
        BatchStep(old(client.State()), all, i, script);
        AnswersStep(old(client.State()), all, i, script);
        var ok := SetMotorForce(i + 1, forces[i], script(i));
        if !ok {
          success := false;
        }
      }
      assert all[..NUM_MOTORS] == all;
      ForcesAnswered(old(client.State()), forces, script);
      if old(client.connected) && (forall i :: 0 <= i < 6 ==> forces[i] <= 4095) {
        ForcesHanded(old(client.State()), forces, script);
      }
    }

    /** Force mode for every motor, then the initial force; the second batch only after a clean first. */
    method Initialize(script: Script) returns (ok: bool)
      requires Valid()
      modifies client`stats, client`handed
      ensures Valid()
      ensures client.State() == AfterInitialize(old(client.State()), script)
      ensures ok == Initialized(old(client.State()), script)
      ensures ok <==> AllReplied(old(client.State()), script, 0) && AllReplied(old(client.State()), script, 6)
      ensures old(client.connected) ==>
                client.handed
                == old(client.handed) + InitialRequests(3, [10, 10, 10, 10, 10, 10], AllReplied(old(client.State()), script, 0))
    {
      InitializeInNumbers(client.State(), script, MODE_FORCE, INITIAL_FORCES);
      var modes := SetAllModes(MODE_FORCE, script);
      if !modes {
        return false;
      }
      AnswersIgnoreHistory(old(client.State()), AllModes(MODE_FORCE), script, AllForces(INITIAL_FORCES), Later(script));
      var forces := SetAllForces(INITIAL_FORCES, Later(script));
      return forces;
    }

    method GetMotorStatus(motorId: Byte, n: Net) returns (r: Option<MotorStatus>)
      requires Valid() && ReadsDefined(n)
      modifies client`stats, client`handed
      ensures Valid()
      ensures client.State() == Tried(old(client.State()), ReadMotorStatus(motorId), n)
      ensures r == if IsValidMotorId(motorId) then StatusFrom(old(client.State()), n) else None
    {
      if !IsValidMotorId(motorId) {
        return None;
      }
      var packet := EncodeReadMotorStatus(motorId);
      var response := client.SendAndReceive(packet, n);
      match response {
        case None => return None;
        case Some(p) => return ParseMotorStatus(p);
      }
    }

    method GetCachedStatus(motorId: Byte) returns (r: Option<MotorStatus>)
      requires Valid()
      ensures r.Some? <==> IsValidMotorId(motorId)
      ensures r.Some? ==> r.value == cachedStatus[motorId - 1]
    {
      if !IsValidMotorId(motorId) {
        return None;
      }
      return Some(cachedStatus[motorId - 1]);
    }

    /** One turn of the update loop: a failed or foreign reply leaves the slot as it was. */
    method UpdateSlot(motorId: Byte, n: Net) returns (success: bool)
      requires Valid() && ReadsDefined(n) && IsValidMotorId(motorId)
      modifies client`stats, client`handed, cachedStatus
      ensures Valid()
      ensures client.State() == Tried(old(client.State()), ReadMotorStatus(motorId), n)
      ensures success == StatusFrom(old(client.State()), n).Some?
      ensures cachedStatus[..]
              == old(cachedStatus[..])[motorId - 1 := SlotAfter(old(cachedStatus[..])[motorId - 1], old(client.State()), n)]
    {
      var status := GetMotorStatus(motorId, n);
      if status.Some? {
        cachedStatus[motorId - 1] := status.value;
      }
      return status.Some?;
    }

    method UpdateOnce(script: Script) returns (anySuccess: bool)
      requires Valid() && AllReadsDefined(script)
      modifies client`stats, client`handed, cachedStatus
      ensures Valid()
      ensures client.State() == TriedAll(old(client.State()), StatusRequests(), script)
      ensures cachedStatus[..] == Refreshed(old(cachedStatus[..]), old(client.State()), script)
      ensures anySuccess == SomeFresh(old(client.State()), script, NUM_MOTORS)
      ensures anySuccess <==> exists k :: 0 <= k < 6 && ReturnsStatus(old(client.State()), script(k))
      ensures old(client.connected) ==> client.handed == old(client.handed) + Requests(ReadsOfAll())
    {
      anySuccess := false;
      ghost var l := client.State();
      ghost var was := cachedStatus[..];
      for motorId := 1 to NUM_MOTORS + 1
        invariant Valid()
        invariant client.State() == TriedAll(l, StatusRequests()[..motorId - 1], script)
        invariant cachedStatus[..] == PartlyRefreshed(was, l, script, motorId - 1)
        invariant anySuccess == SomeFresh(l, script, motorId - 1)
      {
        UpdateStep(was, l, script, motorId - 1);
        var success := UpdateSlot(motorId, script(motorId - 1));
        if success {
          anySuccess := true;
        }
      }
      UpdateDone(was, l, script);
      FreshMeansReturned(l, script);
      if l.connected {
        ReadsHanded(l, script);
      }
    }
  }

  const INITIAL_FORCES: seq<Word> := [10, 10, 10, 10, 10, 10]

  function Later(script: Script): Script {
    (k: nat) => script(k + NUM_MOTORS)
  }

  /** The second batch of initialize meets the network from the seventh exchange on. */
  lemma {:induction false} LaterReplies(l: Link, now: Link, script: Script)
    requires now.connected == l.connected
    ensures AllReplied(now, Later(script), 0) <==> AllReplied(l, script, 6)
  {
    if AllReplied(now, Later(script), 0) {
      forall k | 6 <= k < 12
        ensures Reply(l, script(k)).Some?
      {
        assert Reply(now, Later(script)(k - 6)).Some?;
      }
    }
  }

  function AfterInitialize(l: Link, script: Script): Link {
    var moded := TriedAll(l, AllModes(MODE_FORCE), script);
    if AllAnswered(l, AllModes(MODE_FORCE), script) then TriedAll(moded, AllForces(INITIAL_FORCES), Later(script))
    else moded
  }

  predicate Initialized(l: Link, script: Script) {
    AllAnswered(l, AllModes(MODE_FORCE), script) && AllAnswered(l, AllForces(INITIAL_FORCES), Later(script))
  }

  // ---- what reaches the hardware ----

  /** The frames of the in-range commands, in order. */
  function SafeFrames(cs: seq<Command>): seq<seq<Byte>> {
    if cs == [] then []
    else SafeFrames(cs[..|cs| - 1]) + if InRange(cs[|cs| - 1]) then [Wire(Frame(cs[|cs| - 1]))] else []
  }

  lemma {:induction false} TriedHands(l: Link, c: Command, n: Net)
    ensures Tried(l, c, n).handed == l.handed + if l.connected && InRange(c) then [Wire(Frame(c))] else []
  {
  }

  /** A batch hands the socket exactly its in-range entries, in ascending motor order, whatever the
      network does to each; nothing at all while disconnected. */
  lemma {:induction false} BatchHandsExactlyTheSafeFrames(l: Link, cs: seq<Command>, script: Script)
    ensures TriedAll(l, cs, script).handed == l.handed + if l.connected then SafeFrames(cs) else []
  {
    if cs != [] {
      var front := cs[..|cs| - 1];
      BatchHandsExactlyTheSafeFrames(l, front, script);
      TriedKeepsConnected(l, front, script);
      TriedHands(TriedAll(l, front, script), cs[|cs| - 1], script(|cs| - 1));
    }
  }

  // ---- the six buffers of a batch ----

  /** The documented bytes of some commands, in order. */
  function Requests(cs: seq<Command>): seq<seq<Byte>> {
    if cs == [] then [] else Requests(cs[..|cs| - 1]) + [RequestBytes(cs[|cs| - 1])]
  }

  lemma {:induction false} SafeFramesAreRequests(cs: seq<Command>)
    requires forall k :: 0 <= k < |cs| ==> InRange(cs[k])
    ensures SafeFrames(cs) == Requests(cs)
  {
    if cs != [] {
      SafeFramesAreRequests(cs[..|cs| - 1]);
      RequestsInNumbers(cs[|cs| - 1]);
    }
  }

  /** A connected client hands over all of an in-range batch, in order, whatever the network does. */
  lemma {:induction false} BatchHandsRequests(l: Link, cs: seq<Command>, script: Script, listed: seq<Command>)
    requires l.connected && cs == listed && forall k :: 0 <= k < |cs| ==> InRange(cs[k])
    ensures TriedAll(l, cs, script).handed == l.handed + Requests(listed)
  {
    BatchHandsExactlyTheSafeFrames(l, cs, script);
    SafeFramesAreRequests(cs);
  }

  /** One request for each motor, the i-th of them for motor i. */
  function ModesFor(mode: Byte): seq<Command> {
    [SetMode(1, mode), SetMode(2, mode), SetMode(3, mode), SetMode(4, mode), SetMode(5, mode), SetMode(6, mode)]
  }

  function PositionsFor(p: seq<Word>): seq<Command>
    requires |p| == 6
  {
    [SetPosition(1, p[0]), SetPosition(2, p[1]), SetPosition(3, p[2]),
     SetPosition(4, p[3]), SetPosition(5, p[4]), SetPosition(6, p[5])]
  }

  function ForcesFor(f: seq<Word>): seq<Command>
    requires |f| == 6
  {
    [SetForce(1, f[0]), SetForce(2, f[1]), SetForce(3, f[2]), SetForce(4, f[3]), SetForce(5, f[4]), SetForce(6, f[5])]
  }

  function ReadsOfAll(): seq<Command> {
    [ReadMotorStatus(1), ReadMotorStatus(2), ReadMotorStatus(3),
     ReadMotorStatus(4), ReadMotorStatus(5), ReadMotorStatus(6)]
  }

  lemma {:induction false} ModesHanded(l: Link, mode: Byte, script: Script)
    requires l.connected && mode <= 5
    ensures TriedAll(l, AllModes(mode), script).handed == l.handed + Requests(ModesFor(mode))
  {
    BatchHandsRequests(l, AllModes(mode), script, ModesFor(mode));
  }

  lemma {:induction false} PositionsHanded(l: Link, positions: seq<Word>, script: Script)
    requires l.connected && |positions| == 6 && forall i :: 0 <= i < 6 ==> positions[i] <= 2000
    ensures TriedAll(l, AllPositions(positions), script).handed == l.handed + Requests(PositionsFor(positions))
  {
    BatchHandsRequests(l, AllPositions(positions), script, PositionsFor(positions));
  }

  lemma {:induction false} ForcesHanded(l: Link, forces: seq<Word>, script: Script)
    requires l.connected && |forces| == 6 && forall i :: 0 <= i < 6 ==> forces[i] <= 4095
    ensures TriedAll(l, AllForces(forces), script).handed == l.handed + Requests(ForcesFor(forces))
  {
    BatchHandsRequests(l, AllForces(forces), script, ForcesFor(forces));
  }

  lemma {:induction false} ReadsHanded(l: Link, script: Script)
    requires l.connected
    ensures TriedAll(l, StatusRequests(), script).handed == l.handed + Requests(ReadsOfAll())
  {
    BatchHandsRequests(l, StatusRequests(), script, ReadsOfAll());
  }

  /** Each of those buffers reads back as its command. */
  lemma {:induction false} RequestsReadBack(cs: seq<Command>, i: nat)
    requires i < |cs|
    ensures |Requests(cs)| == |cs| && Understood(Requests(cs)[i]) == Some(cs[i])
  {
    var front, c := cs[..|cs| - 1], cs[|cs| - 1];
    RequestIsUnderstood(c, RequestBytes(c));
    if i < |front| {
      RequestsReadBack(front, i);
    } else if front != [] {
      RequestsReadBack(front, 0);
    }
  }

  lemma {:induction false} RequestIsUnderstood(c: Command, bytes: seq<Byte>)
    requires bytes == RequestBytes(c)
    ensures Understood(bytes) == Some(c)
  {
    RequestsInNumbers(c);
    CommandsReadBack(c);
  }

  /** What initialize hands over: a mode for each motor and, after six replies, a force for each. */
  function InitialRequests(mode: Byte, forces: seq<Word>, replied: bool): seq<seq<Byte>>
    requires |forces| == 6
  {
    Requests(ModesFor(mode)) + if replied then Requests(ForcesFor(forces)) else []
  }

  lemma {:induction false} InitializeInNumbers(l: Link, script: Script, mode: Byte, forces: seq<Word>)
    requires mode == MODE_FORCE && forces == INITIAL_FORCES
    ensures Initialized(l, script) <==> AllReplied(l, script, 0) && AllReplied(l, script, 6)
    ensures l.connected ==>
              AfterInitialize(l, script).handed == l.handed + InitialRequests(mode, forces, AllReplied(l, script, 0))
  {
    InitializedMeans(l, script, mode, forces);
    if l.connected {
      InitializeHands(l, script, mode, forces, AllAnswered(l, AllModes(mode), script));
      ModesAnswered(l, mode, script);
    }
  }

  lemma {:induction false} InitializedMeans(l: Link, script: Script, mode: Byte, forces: seq<Word>)
    requires mode == MODE_FORCE && forces == INITIAL_FORCES
    ensures Initialized(l, script) <==> AllReplied(l, script, 0) && AllReplied(l, script, 6)
  {
    ModesAnswered(l, mode, script);
    ForcesAnswered(l, forces, Later(script));
    LaterReplies(l, l, script);
  }

  lemma {:induction false} InitializeHands(l: Link, script: Script, mode: Byte, forces: seq<Word>, replied: bool)
    requires l.connected && mode == MODE_FORCE && forces == INITIAL_FORCES
    requires replied == AllAnswered(l, AllModes(mode), script)
    ensures AfterInitialize(l, script).handed == l.handed + InitialRequests(mode, forces, replied)
  {
    ModesHanded(l, mode, script);
    TwoBatchesHand(l, script, mode, forces, Later(script));
  }

  lemma {:induction false} TwoBatchesHand(l: Link, script: Script, mode: Byte, forces: seq<Word>, later: Script)
    requires l.connected && mode <= 5 && |forces| == 6 && forall i :: 0 <= i < 6 ==> forces[i] <= 4095
    ensures TriedAll(TriedAll(l, AllModes(mode), script), AllForces(forces), later).handed
            == l.handed + (Requests(ModesFor(mode)) + Requests(ForcesFor(forces)))
  {
    var moded := TriedAll(l, AllModes(mode), script);
    TriedKeepsConnected(l, AllModes(mode), script);
    ModesHanded(l, mode, script);
    SecondBatchHands(l.handed, Requests(ModesFor(mode)), moded, forces, later);
  }

  lemma {:induction false} SecondBatchHands(
      was: seq<seq<Byte>>, first: seq<seq<Byte>>, moded: Link, forces: seq<Word>, later: Script)
    requires moded.connected && moded.handed == was + first
    requires |forces| == 6 && forall i :: 0 <= i < 6 ==> forces[i] <= 4095
    ensures TriedAll(moded, AllForces(forces), later).handed == was + (first + Requests(ForcesFor(forces)))
  {
    ForcesHanded(moded, forces, later);
    Regrouped(was, first, Requests(ForcesFor(forces)));
  }

  lemma Regrouped(a: seq<seq<Byte>>, b: seq<seq<Byte>>, c: seq<seq<Byte>>)
    ensures (a + b) + c == a + (b + c)
  {
  }

  datatype Call =
    | CallOne(c: Command)
    | CallAllModes(mode: Byte)
    | CallAllPositions(positions: seq<Word>)
    | CallAllForces(forces: seq<Word>)
    | CallInitialize
    | CallUpdate
    | CallConnect(ok: bool)
    | CallDisconnect

  predicate IsCall(c: Call) {
    match c
    case CallOne(command) => IsMotorCommand(command) && !command.ReadMotorId?
    case CallAllPositions(positions) => |positions| == NUM_MOTORS
    case CallAllForces(forces) => |forces| == NUM_MOTORS
    case _ => true
  }

  function AfterCall(l: Link, c: Call, script: Script): Link
    requires IsCall(c)
  {
    match c
    case CallOne(command) => Tried(l, command, script(0))
    case CallAllModes(mode) => TriedAll(l, AllModes(mode), script)
    case CallAllPositions(positions) => TriedAll(l, AllPositions(positions), script)
    case CallAllForces(forces) => TriedAll(l, AllForces(forces), script)
    case CallInitialize => AfterInitialize(l, script)
    case CallUpdate => TriedAll(l, StatusRequests(), script)
    case CallConnect(ok) => l.(connected := l.connected || ok)
    case CallDisconnect => l.(connected := false)
  }

  function AfterCalls(l: Link, calls: seq<(Call, Script)>): Link
    requires forall i :: 0 <= i < |calls| ==> IsCall(calls[i].0)
  {
    if calls == [] then l
    else AfterCall(AfterCalls(l, calls[..|calls| - 1]), calls[|calls| - 1].0, calls[|calls| - 1].1)
  }

  /** The bytes read back as a command within the hardware's limits. */
  predicate SafeBytes(b: seq<Byte>) {
    Understood(b).Some? && InRange(Understood(b).value)
  }

  lemma {:induction false} SafeFramesAreSafe(cs: seq<Command>)
    ensures forall b :: b in SafeFrames(cs) ==> SafeBytes(b)
  {
    if cs != [] {
      SafeFramesAreSafe(cs[..|cs| - 1]);
      CommandsReadBack(cs[|cs| - 1]);
    }
  }

  lemma {:induction false} BatchIsSafe(l: Link, cs: seq<Command>, script: Script)
    requires forall b :: b in l.handed ==> SafeBytes(b)
    ensures forall b :: b in TriedAll(l, cs, script).handed ==> SafeBytes(b)
  {
    BatchHandsExactlyTheSafeFrames(l, cs, script);
    SafeFramesAreSafe(cs);
  }

  lemma {:induction false} CallIsSafe(l: Link, c: Call, script: Script)
    requires IsCall(c) && forall b :: b in l.handed ==> SafeBytes(b)
    ensures forall b :: b in AfterCall(l, c, script).handed ==> SafeBytes(b)
  {
    match c
    case CallOne(command) =>
      assert TriedAll(l, [command], script) == Tried(TriedAll(l, [], script), command, script(0)) by {
        assert [command][..0] == [];
      }
      BatchIsSafe(l, [command], script);
    case CallAllModes(mode) => BatchIsSafe(l, AllModes(mode), script);
    case CallAllPositions(positions) => BatchIsSafe(l, AllPositions(positions), script);
    case CallAllForces(forces) => BatchIsSafe(l, AllForces(forces), script);
    case CallInitialize =>
      BatchIsSafe(l, AllModes(MODE_FORCE), script);
      BatchIsSafe(TriedAll(l, AllModes(MODE_FORCE), script), AllForces(INITIAL_FORCES), Later(script));
    case CallUpdate => BatchIsSafe(l, StatusRequests(), script);
    case CallConnect(_) =>
    case CallDisconnect =>
  }

  /** Every frame handed to the socket, over every sequence of calls and every behaviour of the
      network, reads back as a command for a motor 1 to 6 with mode, position and force in range. */
  lemma {:induction false} EveryEmissionIsSafe(l: Link, calls: seq<(Call, Script)>)
    requires l.handed == [] && forall i :: 0 <= i < |calls| ==> IsCall(calls[i].0)
    ensures forall b :: b in AfterCalls(l, calls).handed ==> SafeBytes(b)
  {
    if calls != [] {
      var front := calls[..|calls| - 1];
      EveryEmissionIsSafe(l, front);
      CallIsSafe(AfterCalls(l, front), calls[|calls| - 1].0, calls[|calls| - 1].1);
    }
  }

  // ---- the status cache ----

  /** Slot k holds a status that names motor k + 1. */
  ghost predicate Aligned(cache: seq<MotorStatus>) {
    |cache| == NUM_MOTORS && forall k :: 0 <= k < NUM_MOTORS ==> cache[k].motorId == k + 1
  }

  /** The exchange's reply is a status reply of the motor, whatever the status and whatever
      instruction and register the reply echoes. */
  ghost predicate HearsMotor(n: Net, id: Byte) {
    && n.recv.Arrived?
    && exists status: MotorStatus, instruction: Byte, register: Word ::
         status.motorId == id && n.recv.bytes == StatusReply(status, CMD_READ_STATUS, instruction, register)
  }

  /** Each exchange of an update fails or hears the reply to its own request. */
  ghost predicate Paired(l: Link, script: Script) {
    && AllReadsDefined(script)
    && forall k :: 0 <= k < NUM_MOTORS ==> Reply(l, script(k)).None? || HearsMotor(script(k), k + 1)
  }

  ghost function RefreshedOverall(cache: seq<MotorStatus>, l: Link, scripts: seq<Script>): seq<MotorStatus>
    requires |cache| == NUM_MOTORS
    requires forall i :: 0 <= i < |scripts| ==> AllReadsDefined(scripts[i])
  {
    if scripts == [] then cache
    else Refreshed(RefreshedOverall(cache, l, scripts[..|scripts| - 1]), l, scripts[|scripts| - 1])
  }

  lemma {:induction false} HeardMotorIsNamed(l: Link, n: Net, id: Byte)
    requires ReadsDefined(n) && HearsMotor(n, id)
    ensures StatusFrom(l, n).Some? ==> StatusFrom(l, n).value.motorId == id
  {
    var status: MotorStatus, instruction: Byte, register: Word :|
      status.motorId == id && n.recv.bytes == StatusReply(status, CMD_READ_STATUS, instruction, register);
    StatusReplyLaw(status, CMD_READ_STATUS, instruction, register);
    StatusReplyFits(status, instruction, register);
  }

  lemma StatusReplyFits(status: MotorStatus, instruction: Byte, register: Word)
    ensures |StatusReply(status, CMD_READ_STATUS, instruction, register)| == 27
  {
  }

  lemma {:induction false} PairedSlot(was: MotorStatus, l: Link, script: Script, k: nat)
    requires Paired(l, script) && k < NUM_MOTORS && was.motorId == k + 1
    ensures SlotAfter(was, l, script(k)).motorId == k + 1
  {
    if Reply(l, script(k)).Some? {
      HeardMotorIsNamed(l, script(k), k + 1);
    }
  }

  /** Paired exchanges keep the cache aligned over any number of updates. */
  lemma {:induction false} PairedUpdatesKeepAlignment(cache: seq<MotorStatus>, l: Link, scripts: seq<Script>)
    requires Aligned(cache) && forall i :: 0 <= i < |scripts| ==> Paired(l, scripts[i])
    ensures forall i :: 0 <= i < |scripts| ==> AllReadsDefined(scripts[i])
    ensures Aligned(RefreshedOverall(cache, l, scripts))
  {
    if scripts != [] {
      var front, last := scripts[..|scripts| - 1], scripts[|scripts| - 1];
      PairedUpdatesKeepAlignment(cache, l, front);
      var was := RefreshedOverall(cache, l, front);
      forall k | 0 <= k < NUM_MOTORS
        ensures SlotAfter(was[k], l, last(k)).motorId == k + 1
      {
        PairedSlot(was[k], l, last, k);
      }
    }
  }

  /** Slots are written only from motor replies: anything else leaves its slot as it was. */
  lemma {:induction false} OnlyMotorRepliesReachTheCache(cache: seq<MotorStatus>, l: Link, script: Script, k: nat)
    requires |cache| == NUM_MOTORS && k < NUM_MOTORS && AllReadsDefined(script)
    ensures match Reply(l, script(k))
            case None => Refreshed(cache, l, script)[k] == cache[k]
            case Some(p) =>
              if IsMotorResponse(p) then MotorReadsDefined(p) && ParseMotorStatus(p) == Some(Refreshed(cache, l, script)[k])
              else Refreshed(cache, l, script)[k] == cache[k]
  {
    if Reply(l, script(k)).Some? {
      assert ReadsDefined(script(k));
      ParsersByKind(Reply(l, script(k)).value);
    }
  }
}
