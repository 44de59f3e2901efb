/** One call at a time on the UDP client: what it hands to the socket, what it returns, what it counts. */
module Client {
  import opened Bytes
  import opened Packets

  const COUNTER_MODULUS: nat := 0x1_0000_0000_0000_0000

  /** The 64-bit counters wrap. */
  type Counter = x: int | 0 <= x < 0x1_0000_0000_0000_0000

  datatype Statistics = Statistics(
    sent: Counter, received: Counter, sendErrors: Counter,
    receiveErrors: Counter, timeouts: Counter, checksumErrors: Counter)

  const NO_STATISTICS := Statistics(0, 0, 0, 0, 0, 0)

  datatype Kind = Sent | SendError | Received | ReceiveError | Timeout | ChecksumError

  function Increment(c: Counter): Counter {
    (c + 1) % COUNTER_MODULUS
  }

  function Counted(s: Statistics, k: Kind): Statistics {
    match k
    case Sent => s.(sent := Increment(s.sent))
    case SendError => s.(sendErrors := Increment(s.sendErrors))
    case Received => s.(received := Increment(s.received))
    case ReceiveError => s.(receiveErrors := Increment(s.receiveErrors))
    case Timeout => s.(timeouts := Increment(s.timeouts))
    case ChecksumError => s.(checksumErrors := Increment(s.checksumErrors))
  }

  /** What send() and recv() may answer. */
  datatype SendOutcome = Whole | Partial | SendFailed
  datatype RecvOutcome = TimedOut | RecvFailed | Arrived(bytes: seq<Byte>)

  /** The network's behaviour during one exchange. */
  datatype Net = Net(send: SendOutcome, recv: RecvOutcome)

  datatype OpenOutcome = NoSocket | SetupFailed | Opened(fd: nat)

  const MAX_PACKET_SIZE: nat := 1024

  /** recv() drops what does not fit the buffer. */
  function Buffered(bytes: seq<Byte>): seq<Byte> {
    if |bytes| <= MAX_PACKET_SIZE then bytes else bytes[..MAX_PACKET_SIZE]
  }

  /** The next value of a counter, in numbers. */
  predicate IsNext(now: Counter, was: Counter) {
    now == if was == 0xFFFF_FFFF_FFFF_FFFF then 0 else was + 1
  }

  /** The client as a value: connected flag, counters, and every buffer handed to send() so far. */
  datatype Link = Link(connected: bool, stats: Statistics, handed: seq<seq<Byte>>)

  function SendKind(l: Link, o: SendOutcome): Kind {
    if l.connected && o.Whole? then Sent else SendError
  }

  function ReceiveKind(connected: bool, o: RecvOutcome): Kind {
    if !connected then ReceiveError
    else match o
      case TimedOut => Timeout
      case RecvFailed => ReceiveError
      case Arrived(bytes) => if Deserialized(Buffered(bytes)).Some? then Received else ChecksumError
  }

  function AfterSend(l: Link, p: Packet, o: SendOutcome): Link {
    Link(l.connected, Counted(l.stats, SendKind(l, o)), l.handed + if l.connected then [Wire(p)] else [])
  }

  function AfterReceive(l: Link, o: RecvOutcome): Link {
    l.(stats := Counted(l.stats, ReceiveKind(l.connected, o)))
  }

  /** The reply an exchange returns: only when all of the request went out and what came back reads. */
  function Reply(l: Link, n: Net): Option<Packet> {
    if l.connected && n.send.Whole? && n.recv.Arrived? then Deserialized(Buffered(n.recv.bytes)) else None
  }

  function AfterExchange(l: Link, p: Packet, n: Net): Link {
    if l.connected && n.send.Whole? then AfterReceive(AfterSend(l, p, n.send), n.recv) else AfterSend(l, p, n.send)
  }

  class UdpClient {
    var socketFd: int
    var connected: bool
    var stats: Statistics
    /** Every buffer handed to send(), in order. */
    ghost var handed: seq<seq<Byte>>

    /** Between calls the flag and the descriptor agree. */
    ghost predicate Valid()
      reads this
    {
      connected <==> socketFd >= 0
    }

    ghost function State(): Link
      reads this
    {
      Link(connected, stats, handed)
    }

    constructor ()
      ensures Valid() && State() == Link(false, Statistics(0, 0, 0, 0, 0, 0), [])
    {
      socketFd := -1;
      connected := false;
      stats := NO_STATISTICS;
      handed := [];
    }

    /** Connecting twice keeps the first socket; any failing step leaves no socket behind. */
    method Connect(o: OpenOutcome) returns (ok: bool)
      requires Valid()
      modifies this
      ensures Valid()
      ensures ok == (old(connected) || o.Opened?)
      ensures State() == old(State()).(connected := ok)
      ensures socketFd == if old(connected) then old(socketFd) else if o.Opened? then o.fd else -1
    {
      if connected {
        return true;
      }
      socketFd := if o.Opened? then o.fd else if o.NoSocket? then -1 else 0;
      if socketFd < 0 {
        return false;
      }
      if o.SetupFailed? {
        socketFd := -1;
        return false;
      }
      connected := true;
      return true;
    }

    method Disconnect()
      requires Valid()
      modifies this
      ensures Valid()
      ensures State() == old(State()).(connected := false)
    {
      if socketFd >= 0 {
        socketFd := -1;
      }
      connected := false;
    }

    method UpdateSendStats(success: bool)
      modifies this`stats
      ensures stats == Counted(old(stats), if success then Sent else SendError)
      ensures if success then IsNext(stats.sent, old(stats.sent)) else IsNext(stats.sendErrors, old(stats.sendErrors))
    {
      if success {
        stats := stats.(sent := Increment(stats.sent));
      } else {
        stats := stats.(sendErrors := Increment(stats.sendErrors));
      }
    }

    method UpdateReceiveStats(success: bool, timeout: bool, checksumError: bool)
      modifies this`stats
      ensures stats == Counted(old(stats),
                         if success then Received else if timeout then Timeout
                         else if checksumError then ChecksumError else ReceiveError)
      ensures success ==> IsNext(stats.received, old(stats.received))
      ensures !success && timeout ==> IsNext(stats.timeouts, old(stats.timeouts))
      ensures !success && !timeout && checksumError ==> IsNext(stats.checksumErrors, old(stats.checksumErrors))
      ensures !success && !timeout && !checksumError ==> IsNext(stats.receiveErrors, old(stats.receiveErrors))
    {
      if success {
        stats := stats.(received := Increment(stats.received));
      } else if timeout {
        stats := stats.(timeouts := Increment(stats.timeouts));
      } else if checksumError {
        stats := stats.(checksumErrors := Increment(stats.checksumErrors));
      } else {
        stats := stats.(receiveErrors := Increment(stats.receiveErrors));
      }
    }

    method SendPacket(p: Packet, o: SendOutcome) returns (ok: bool)
      requires Valid()
      modifies this`stats, this`handed
      ensures Valid()
      ensures ok == (connected && o.Whole?)
      ensures State() == AfterSend(old(State()), p, o)
      ensures handed == old(handed) + if connected then [Wire(p)] else []
      ensures if ok then IsNext(stats.sent, old(stats.sent)) && stats == old(stats).(sent := stats.sent)
              else IsNext(stats.sendErrors, old(stats.sendErrors))
                   && stats == old(stats).(sendErrors := stats.sendErrors)
    {
      if !connected {
        UpdateSendStats(false);
        return false;
      }
      var data := Serialize(p);
      handed := handed + [data];
      if o.SendFailed? {
        UpdateSendStats(false);
        return false;
      }
      if o.Partial? {
        UpdateSendStats(false);
        return false;
      }
      UpdateSendStats(true);
      return true;
    }

    method ReceivePacket(o: RecvOutcome) returns (r: Option<Packet>)
      requires Valid()
      modifies this`stats
      ensures Valid()
      ensures State() == AfterReceive(old(State()), o)
      ensures r == if connected && o.Arrived? then Deserialized(Buffered(o.bytes)) else None
      ensures r == if connected && o.Arrived?
                   then Deserialized(if |o.bytes| <= 1024 then o.bytes else o.bytes[..1024]) else None
      ensures r.Some? ==>
                IsNext(stats.received, old(stats.received)) && stats == old(stats).(received := stats.received)
      ensures connected && o.Arrived? && r.None? ==>
                IsNext(stats.checksumErrors, old(stats.checksumErrors))
                && stats == old(stats).(checksumErrors := stats.checksumErrors)
      ensures connected && o.TimedOut? ==>
                IsNext(stats.timeouts, old(stats.timeouts)) && stats == old(stats).(timeouts := stats.timeouts)
      ensures !connected || o.RecvFailed? ==>
                IsNext(stats.receiveErrors, old(stats.receiveErrors))
                && stats == old(stats).(receiveErrors := stats.receiveErrors)
    {
      if !connected {
        UpdateReceiveStats(false, false, false);
        return None;
      }
      match o {
        case TimedOut =>
          UpdateReceiveStats(false, true, false);
          return None;
        case RecvFailed =>
          UpdateReceiveStats(false, false, false);
          return None;
        case Arrived(bytes) =>
          var buffer := Buffered(bytes);
          var packet := Deserialize(buffer);
          if packet.None? {
            UpdateReceiveStats(false, false, true);
            return None;
          }
          UpdateReceiveStats(true, false, false);
          return packet;
      }
    }

    method SendAndReceive(p: Packet, n: Net) returns (r: Option<Packet>)
      requires Valid()
      modifies this`stats, this`handed
      ensures Valid()
      ensures State() == AfterExchange(old(State()), p, n)
      ensures r == Reply(old(State()), n)
    {
      var ok := SendPacket(p, n.send);
      if !ok {
        return None;
      }
      r := ReceivePacket(n.recv);
    }

    method ResetStatistics()
      modifies this`stats
      ensures stats == NO_STATISTICS == Statistics(0, 0, 0, 0, 0, 0)
    {
      stats := NO_STATISTICS;
    }
  }
}
