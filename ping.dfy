/** Package ping: the session record `Ping` whose method `Ping` performs one
    ICMP echo attempt and keeps the running counters, and the record
    `PingResult` it returns.

    The socket work (listening, setting the TTL or hop limit, writing,
    reading, parsing, reading back the TTL) is outside the model: what it did
    in one attempt is the `Outcome` given to `Ping`. */
module Ping {

  newtype byte = x: int | 0 <= x < 256

  /** ICMP type of an Echo message for IPv4 (RFC 792). */
  const ICMPTypeEcho: int := 8

  /** ICMPv6 type of an Echo Request (section 4.1 of RFC 4443). */
  const ICMPv6TypeEchoRequest: int := 128

  /** IP protocol number of ICMP. */
  const ProtocolICMP: int := 1

  /** IP protocol number of ICMPv6. */
  const ProtocolICMPv6: int := 58

  /** Size of the buffer a reply is read into. */
  const ReceiveBufferSize: nat := 1500

  /** The echo message built by one attempt, as a record of its fields
      (the wire encoding is done by a library outside the model). */
  datatype EchoMessage = EchoMessage(Type: int, Code: int, ID: int, Seq: int, Data: seq<byte>)

  /** The result of one attempt. `RTT` is a duration in nanoseconds. */
  datatype PingResult = PingResult(UsedTTL: int, Message: seq<byte>, RTT: nat, Success: bool, PayloadSize: int)

  /** The zero value `PingResult{}` returned by every failure exit. */
  const EmptyResult: PingResult := PingResult(0, [], 0, false, 0)

  /** What the I/O did during one attempt: one of the four failures; a read
      that never returns (the socket has no read deadline); or a reply read
      `elapsed` nanoseconds after the write, with the bytes received, the TTL
      (or hop limit) read back from the socket and the length of the parsed
      reply body. */
  datatype Outcome =
    | MarshalErr
    | WriteErr
    | ReadErr
    | ParseErr
    | Pending
    | Reply(elapsed: nat, packet: seq<byte>, ttl: int, payloadSize: int)

  /** The outcomes that take one of the four failure exits. */
  predicate IsFailure(o: Outcome)
  {
    o.MarshalErr? || o.WriteErr? || o.ReadErr? || o.ParseErr?
  }

  /** The running state of a session. */
  datatype Counters = Counters(Sequence: int, Success: int, Failed: int, RRT: seq<int>)

  /** The configuration of a session. */
  datatype Config = Config(
    Interval: int, IPAddress: string, Listen: string, Message: seq<byte>, Network: string,
    ProtocolNumber: int, Target: string, Timeout: int, TTL: int)

  /** The echo identifier `pid & 0xffff`: for a two's-complement integer the
      mask keeps the residue modulo 2^16. */
  function EchoId(pid: int): (id: int)
    ensures 0 <= id <= 0xffff
    ensures (pid - id) % 0x1_0000 == 0
  {
    pid % 0x1_0000
  }

  /** The echo request of one attempt: an Echo (type 8) unless the protocol
      number is 58, then an ICMPv6 Echo Request (type 128); code 0; the
      identifier from the process id; the given sequence number and payload. */
  function Echo(protocolNumber: int, pid: int, sequence: int, data: seq<byte>): (wm: EchoMessage)
    ensures wm.Type == ICMPTypeEcho || wm.Type == ICMPv6TypeEchoRequest
    ensures wm.Type == ICMPv6TypeEchoRequest <==> protocolNumber == ProtocolICMPv6
    ensures wm.Code == 0 && wm.Seq == sequence && wm.Data == data
    ensures 0 <= wm.ID <= 0xffff && wm.ID == EchoId(pid)
  {
    var wm := EchoMessage(ICMPTypeEcho, 0, EchoId(pid), sequence, data);
    if protocolNumber == ProtocolICMPv6 then wm.(Type := ICMPv6TypeEchoRequest) else wm
  }

  /** The number of bytes a read into the receive buffer takes from a packet. */
  function Received(packet: seq<byte>): (n: nat)
    ensures n <= ReceiveBufferSize && n <= |packet|
    ensures n == |packet| || n == ReceiveBufferSize
  {
    if |packet| < ReceiveBufferSize then |packet| else ReceiveBufferSize
  }

  /** The whole receive buffer after the read: the received bytes, then the
      zeros the buffer was made with. */
  function ReceiveBuffer(packet: seq<byte>): (rb: seq<byte>)
    ensures |rb| == ReceiveBufferSize
    ensures rb[..Received(packet)] == packet[..Received(packet)]
    ensures forall i :: Received(packet) <= i < |rb| ==> rb[i] == 0
  {
    var n := Received(packet);
    packet[..n] + seq(ReceiveBufferSize - n, _ => 0)
  }

  /** The result one attempt returns: the zero value on every failure exit
      (and for a pending attempt, which never delivers one); on a reply, the TTL read back, the whole receive buffer, the elapsed
      time and the reply's body length. */
  function ResultOf(o: Outcome): (r: PingResult)
    ensures r.Success <==> o.Reply?
    ensures !o.Reply? ==> r == EmptyResult
    ensures o.Reply? ==> r.RTT == o.elapsed && r.UsedTTL == o.ttl && r.PayloadSize == o.payloadSize
    ensures o.Reply? ==> |r.Message| == ReceiveBufferSize &&
                         r.Message[..Received(o.packet)] == o.packet[..Received(o.packet)]
  {
    if o.Reply? then PingResult(o.ttl, ReceiveBuffer(o.packet), o.elapsed, true, o.payloadSize)
    else EmptyResult
  }

  /** Duration.Microseconds: nanoseconds truncated to whole microseconds. */
  function Micros(elapsed: nat): (us: nat)
    ensures us * 1000 <= elapsed < us * 1000 + 1000
  {
    elapsed / 1000
  }

  /** The running state after one attempt with the given outcome: a pending
      attempt has only taken its sequence number. */
  function Step(c: Counters, o: Outcome): (r: Counters)
    ensures r.Sequence == c.Sequence + 1
    ensures Consistent(c) ==> Consistent(r)
  {
    var c := c.(Sequence := c.Sequence + 1);
    if o.Reply? then c.(RRT := c.RRT + [Micros(o.elapsed)], Success := c.Success + 1)
    else if o.Pending? then c
    else c.(Failed := c.Failed + 1)
  }

  /** The running state after attempts with the given outcomes, in order. */
  function Run(c: Counters, os: seq<Outcome>): Counters
    decreases |os|
  {
    if os == [] then c else Step(Run(c, os[..|os| - 1]), os[|os| - 1])
  }

  /** The RTT samples, in microseconds, of the replies among the outcomes, in order. */
  function Samples(os: seq<Outcome>): (rrt: seq<int>)
    ensures |rrt| <= |os|
    decreases |os|
  {
    if os == [] then []
    else
      var last := os[|os| - 1];
      Samples(os[..|os| - 1]) + (if last.Reply? then [Micros(last.elapsed)] else [])
  }

  /** The number of pending attempts among the outcomes. */
  function PendingCount(os: seq<Outcome>): (n: nat)
    ensures n <= |os|
    decreases |os|
  {
    if os == [] then 0
    else PendingCount(os[..|os| - 1]) + (if os[|os| - 1].Pending? then 1 else 0)
  }

  /** Without pending attempts there is nothing pending to count. */
  lemma {:induction false} NoPendingCount(os: seq<Outcome>)
    requires forall i :: 0 <= i < |os| ==> !os[i].Pending?
    ensures PendingCount(os) == 0
    decreases |os|
  {
    if os != [] {
      NoPendingCount(os[..|os| - 1]);
    }
  }

  /** The counters of a fresh `Ping{...}`, whose running fields are zero. */
  const Initial: Counters := Counters(0, 0, 0, [])

  /** Every finished attempt is a success or a failure, at most Sequence
      attempts have finished, and each success left exactly one sample. */
  predicate Consistent(c: Counters)
  {
    c.Success >= 0 && c.Failed >= 0 && c.Success + c.Failed <= c.Sequence && |c.RRT| == c.Success
  }

  /** A run of attempts adds one to Sequence per attempt, one to Success and
      one sample (its RTT, in order) per reply, one to Failed per failure,
      and nothing else per pending attempt. */
  lemma {:induction false} RunFrom(c: Counters, os: seq<Outcome>)
    ensures Run(c, os).Sequence == c.Sequence + |os|
    ensures Run(c, os).Success == c.Success + |Samples(os)|
    ensures Run(c, os).Failed == c.Failed + (|os| - |Samples(os)| - PendingCount(os))
    ensures Run(c, os).RRT == c.RRT + Samples(os)
    ensures |Samples(os)| + PendingCount(os) <= |os|
    decreases |os|
  {
    if os != [] {
      var front := os[..|os| - 1];
      RunFrom(c, front);
      assert c.RRT + Samples(front) + (if os[|os| - 1].Reply? then [Micros(os[|os| - 1].elapsed)] else [])
          == c.RRT + Samples(os);
    }
  }

  /** A consistent state stays consistent over any run of attempts. */
  lemma RunKeepsConsistent(c: Counters, os: seq<Outcome>)
    requires Consistent(c)
    ensures Consistent(Run(c, os))
  {
    RunFrom(c, os);
  }

  /** From the zeroed counters, after any attempts, Sequence is their number,
      Success + Failed + (the pending attempts) == Sequence, and RRT holds
      exactly the RTTs of the replies in order. */
  lemma SessionCounters(os: seq<Outcome>)
    ensures Run(Initial, os).Sequence == |os|
    ensures Consistent(Run(Initial, os))
    ensures Run(Initial, os).Success + Run(Initial, os).Failed + PendingCount(os) == |os|
    ensures PendingCount(os) == 0 ==> Run(Initial, os).Success + Run(Initial, os).Failed == |os|
    ensures Run(Initial, os).RRT == Samples(os)
  {
    RunFrom(Initial, os);
  }

  /** The session record: configuration and running state. */
  class Ping {
    var Interval: int
    var IPAddress: string
    var Listen: string
    var Message: seq<byte>
    var Network: string
    var ProtocolNumber: int
    var RRT: seq<int>
    var Sequence: int
    var Success: int
    var Failed: int
    var Target: string
    var Timeout: int
    var TTL: int

    /** The struct literal: the configuration given, the running fields zero. */
    constructor (interval: int, ipAddress: string, listen: string, network: string,
                 protocolNumber: int, target: string, timeout: int, ttl: int, message: seq<byte>)
      ensures Configuration() == Config(interval, ipAddress, listen, message, network,
                                 protocolNumber, target, timeout, ttl)
      ensures State() == Initial
    {
      Interval, IPAddress, Listen, Network := interval, ipAddress, listen, network;
      ProtocolNumber, Target, Timeout, TTL, Message := protocolNumber, target, timeout, ttl, message;
      RRT, Sequence, Success, Failed := [], 0, 0, 0;
    }

    ghost function State(): Counters
      reads this
    {
      Counters(Sequence, Success, Failed, RRT)
    }

    ghost function Configuration(): Config
      reads this
    {
      Config(Interval, IPAddress, Listen, Message, Network, ProtocolNumber, Target, Timeout, TTL)
    }

    /** One echo attempt. `pid` is the process id; `outcome` is what the I/O
        did. Returns the result and the echo request that was built. */
    method Ping(pid: int, outcome: Outcome) returns (result: PingResult, request: EchoMessage)
      modifies this`Sequence, this`Success, this`Failed, this`RRT
      ensures State() == Step(old(State()), outcome)
      ensures Sequence == old(Sequence) + 1
      ensures IsFailure(outcome) ==>
        Failed == old(Failed) + 1 && Success == old(Success) && RRT == old(RRT)
      ensures outcome.Pending? ==>
        Failed == old(Failed) && Success == old(Success) && RRT == old(RRT)
      ensures outcome.Reply? ==>
        Success == old(Success) + 1 && Failed == old(Failed) &&
        RRT == old(RRT) + [Micros(outcome.elapsed)]
      ensures result == ResultOf(outcome)
      ensures request == Echo(ProtocolNumber, pid, Sequence, Message)
      ensures Configuration() == old(Configuration())
      ensures old(Consistent(State())) ==> Consistent(State())
    {
      Sequence := Sequence + 1;
      result := EmptyResult;

      var wm := Echo(ProtocolNumber, pid, Sequence, Message);
      request := wm;

      if outcome == MarshalErr {
        Failed := Failed + 1;
        return;
      }
      if outcome == WriteErr {
        Failed := Failed + 1;
        return;
      }
      if outcome == Pending {
        // the read blocks for good: nothing after it happens
        return;
      }
      if outcome == ReadErr {
        Failed := Failed + 1;
        return;
      }
      if outcome == ParseErr {
        Failed := Failed + 1;
        return;
      }
      var elapsed := outcome.elapsed;

      var rb := ReceiveBuffer(outcome.packet);
      result := result.(UsedTTL := outcome.ttl, RTT := elapsed, PayloadSize := outcome.payloadSize,
                        Message := rb, Success := true);
      RRT := RRT + [Micros(elapsed)];
      Success := Success + 1;
    }
  }
}
