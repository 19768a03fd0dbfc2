/** The main program: the configuration derived from the target address,
    the session loop driving one attempt per cycle, and the arithmetic of the
    final summary (loss, min/avg/max in milliseconds) and of the RTT change
    shown per reply. */
module GoPing {
  import opened Wrappers
  import opened Helper
  import opened Ping

  // ---------------------------------------------------------------------
  // Configuration
  // ---------------------------------------------------------------------

  /** The protocol number, network and listen address of a session. */
  datatype Family = Family(ProtocolNumber: int, Network: string, Listen: string)

  const IPv4Family: Family := Family(ProtocolICMP, "udp4", "0.0.0.0")
  const IPv6Family: Family := Family(ProtocolICMPv6, "udp6", "::")

  /** The family chosen for a target address: IPv6 (protocol 58, `udp6`,
      `::`) exactly when the address has two or more colons, IPv4 (protocol
      1, `udp4`, `0.0.0.0`) otherwise. */
  function FamilyOf(targetIP: string): (f: Family)
    ensures f == IPv4Family || f == IPv6Family
    ensures f.ProtocolNumber == ProtocolICMP || f.ProtocolNumber == ProtocolICMPv6
    ensures f == IPv6Family <==> TwoOccurrences(targetIP, ':')
  {
    IsIPv6Iff(targetIP);
    if IsIPv6(targetIP) then IPv6Family else IPv4Family
  }

  /** An IPv4 literal target is served over ICMP. */
  lemma ExampleIPv4Family()
    ensures FamilyOf("93.184.216.34") == IPv4Family
  {
    var v4 := "93.184.216.34";
    CountAtLeastOne(v4, ':');
    assert ':' !in v4;
  }

  /** An IPv6 literal target is served over ICMPv6. */
  lemma ExampleIPv6Family()
    ensures FamilyOf("2606:2800:220:1:248:1893:25c8:1946") == IPv6Family
  {
    var v6 := "2606:2800:220:1:248:1893:25c8:1946";
    assert v6[4] == ':' && v6[9] == ':';
    assert TwoOccurrences(v6, ':');
  }

  /** The bytes of an ASCII string. */
  function Ascii(s: string): (b: seq<byte>)
    requires forall i :: 0 <= i < |s| ==> s[i] as int < 256
    ensures |b| == |s| && forall i :: 0 <= i < |s| ==> b[i] as int == s[i] as int
  {
    seq(|s|, i requires 0 <= i < |s| => s[i] as int as byte)
  }

  /** The echo payload of every request of a session. */
  const EchoPayload: seq<byte> := Ascii("echo requests")

  /** The session record for a target: the given interval, timeout and TTL,
      the fixed payload, every running field zero, and the family of the
      target address. */
  method NewPing(interval: int, timeout: int, ttl: int, targetIP: string, plainTarget: string)
    returns (p: Ping)
    ensures fresh(p)
    ensures p.Configuration() ==
      Config(interval, targetIP, FamilyOf(targetIP).Listen, EchoPayload, FamilyOf(targetIP).Network,
             FamilyOf(targetIP).ProtocolNumber, plainTarget, timeout, ttl)
    ensures p.State() == Initial
    ensures |p.Message| == 13
  {
    p := new Ping(interval, targetIP, "0.0.0.0", "udp4", ProtocolICMP, plainTarget, timeout, ttl,
                       EchoPayload);
    if IsIPv6(targetIP) {
      p.Network := "udp6";
      p.ProtocolNumber := ProtocolICMPv6;
      p.Listen := "::";
    }
  }

  // ---------------------------------------------------------------------
  // Go integer division
  // ---------------------------------------------------------------------

  /** Go's `/` on integers, which truncates toward zero. */
  function GoDiv(a: int, b: int): int
    requires b != 0
  {
    var q := (if a < 0 then -a else a) / (if b < 0 then -b else b);
    if (a < 0) == (b < 0) then q else -q
  }

  /** For a positive divisor the quotient is the floor of a / b when a is not
      negative, and its ceiling when a is negative. */
  lemma GoDivBounds(a: int, b: int)
    requires b > 0
    ensures a >= 0 ==> GoDiv(a, b) * b <= a < GoDiv(a, b) * b + b
    ensures a < 0 ==> GoDiv(a, b) * b - b < a <= GoDiv(a, b) * b
  {
    if a >= 0 {
      var m, r := a / b, a % b;
      assert a == m * b + r && 0 <= r < b;
    } else {
      var m, r := (-a) / b, (-a) % b;
      assert -a == m * b + r && 0 <= r < b;
      assert GoDiv(a, b) == -m;
      assert GoDiv(a, b) * b == -(m * b);
    }
  }

  /** Truncation keeps the sign of the dividend. */
  lemma GoDivSign(a: int, b: int)
    requires b > 0
    ensures a >= 0 ==> GoDiv(a, b) >= 0
    ensures a < 0 ==> GoDiv(a, b) <= 0
  {
    var n := if a < 0 then -a else a;
    var m := n / b;
    assert n == m * b + n % b && n % b < b;
    if m < 0 {
      MulMonotone(m, -1, b);
    }
  }

  lemma MulMonotone(x: int, y: int, d: int)
    requires x <= y && d >= 0
    ensures x * d <= y * d
  {
    var k := y - x;
    assert y * d == x * d + k * d;
  }

  lemma CancelFactor(n: int, x: int, y: int)
    requires n > 0
    ensures x * n <= y * n ==> x <= y
    ensures x * n < y * n ==> x < y
    ensures x * n < y * n + n ==> x <= y
  {
    if x > y {
      MulMonotone(y + 1, x, n);
      assert (y + 1) * n == y * n + n;
    } else {
      MulMonotone(x, y, n);
    }
  }

  /** Truncating division by a positive divisor is monotone. */
  lemma GoDivMonotone(a: int, b: int, d: int)
    requires d > 0 && a <= b
    ensures GoDiv(a, d) <= GoDiv(b, d)
  {
    var qa, qb := GoDiv(a, d), GoDiv(b, d);
    GoDivBounds(a, d);
    GoDivBounds(b, d);
    GoDivSign(a, d);
    GoDivSign(b, d);
    if a < 0 && b >= 0 {
      MulMonotone(qa, 0, d);
      MulMonotone(0, qb, d);
    }
    CancelFactor(d, qa, qb);
  }

  // ---------------------------------------------------------------------
  // Loss
  // ---------------------------------------------------------------------

  /** The loss percentage as the program computes it:
      `100 - (Success / Sequence * 100)` in Go integer arithmetic. */
  function LossAsWritten(success: int, sequence: int): int
    requires sequence != 0
  {
    100 - GoDiv(success, sequence) * 100
  }

  /** With 0 <= Success <= Sequence the quotient is 0 or 1, so the loss is
      0 when every attempt succeeded and 100 otherwise. */
  lemma LossAsWrittenIsAllOrNothing(success: int, sequence: int)
    requires 0 <= success <= sequence && sequence > 0
    ensures LossAsWritten(success, sequence) == (if success == sequence then 0 else 100)
  {
    var q := GoDiv(success, sequence);
    GoDivBounds(success, sequence);
    GoDivSign(success, sequence);
    CancelFactor(sequence, q, 1);
    if success == sequence {
      CancelFactor(sequence, 1, q);
      assert q == 1;
    } else {
      assert q * sequence < 1 * sequence;
      assert q == 0;
    }
  }

  /** 7 successes out of 10 attempts are reported as 100% loss. */
  lemma LossAsWrittenExample()
    ensures LossAsWritten(7, 10) == 100
  {
    LossAsWrittenIsAllOrNothing(7, 10);
  }

  /** The loss percentage as evidently intended: the share of attempts
      without a reply, rounded up to a whole percent. */
  function Loss(success: int, sequence: int): (loss: int)
    requires 0 <= success <= sequence && sequence > 0
    ensures 0 <= loss <= 100
    ensures loss == 0 <==> success == sequence
    ensures success == 0 ==> loss == 100
    ensures (100 - loss) * sequence <= 100 * success < (101 - loss) * sequence
  {
    LossQuotient(success, sequence);
    100 - GoDiv(100 * success, sequence)
  }

  lemma LossQuotient(success: int, sequence: int)
    requires 0 <= success <= sequence && sequence > 0
    ensures 0 <= GoDiv(100 * success, sequence) <= 100
    ensures GoDiv(100 * success, sequence) == 100 <==> success == sequence
    ensures GoDiv(100 * success, sequence) * sequence <= 100 * success
    ensures 100 * success < (GoDiv(100 * success, sequence) + 1) * sequence
  {
    var q := GoDiv(100 * success, sequence);
    GoDivBounds(100 * success, sequence);
    GoDivSign(100 * success, sequence);
    assert (q + 1) * sequence == q * sequence + sequence;
    CancelFactor(sequence, q, 100);
    CancelFactor(sequence, 100, q);
  }

  /** 7 successes out of 10 attempts are 30% loss. */
  lemma LossExample()
    ensures Loss(7, 10) == 30
  {
  }

  // ---------------------------------------------------------------------
  // RTT summary
  // ---------------------------------------------------------------------

  function Sum(s: seq<int>): int
  {
    if s == [] then 0 else Sum(s[..|s| - 1]) + s[|s| - 1]
  }

  lemma {:induction false} SumBounds(s: seq<int>, lo: int, hi: int)
    requires forall i :: 0 <= i < |s| ==> lo <= s[i] <= hi
    ensures lo * |s| <= Sum(s) <= hi * |s|
  {
    if s != [] {
      var front := s[..|s| - 1];
      SumBounds(front, lo, hi);
      assert lo * |s| == lo * |front| + lo && hi * |s| == hi * |front| + hi;
    }
  }

  /** Minimum, average and maximum of RTT samples. */
  datatype Rtt = Rtt(Min: int, Avg: int, Max: int)

  /** The summary of the samples: their least and greatest value and their
      mean in Go integer division. */
  function Summary(rrt: seq<int>): Rtt
    requires |rrt| > 0
  {
    Rtt(SeqMin(rrt), GoDiv(Sum(rrt), |rrt|), SeqMax(rrt))
  }

  /** Each value converted from microseconds to milliseconds, truncated. */
  function Millis(r: Rtt): Rtt
  {
    Rtt(GoDiv(r.Min, 1000), GoDiv(r.Avg, 1000), GoDiv(r.Max, 1000))
  }

  /** The average lies between the minimum and the maximum. */
  lemma AvgWithinRange(rrt: seq<int>)
    requires |rrt| > 0
    ensures Summary(rrt).Min <= Summary(rrt).Avg <= Summary(rrt).Max
  {
    var n, lo, hi, total := |rrt|, SeqMin(rrt), SeqMax(rrt), Sum(rrt);
    SumBounds(rrt, lo, hi);
    var q := GoDiv(total, n);
    GoDivBounds(total, n);
    CancelFactor(n, q, hi);
    CancelFactor(n, lo, q);
  }

  /** The ordering survives the conversion to milliseconds. */
  lemma MillisOrdered(rrt: seq<int>)
    requires |rrt| > 0
    ensures Millis(Summary(rrt)).Min <= Millis(Summary(rrt)).Avg <= Millis(Summary(rrt)).Max
  {
    AvgWithinRange(rrt);
    var s := Summary(rrt);
    GoDivMonotone(s.Min, s.Avg, 1000);
    GoDivMonotone(s.Avg, s.Max, 1000);
  }

  /** 10000, 20000 and 15000 microseconds are reported as 10/15/20 ms. */
  lemma SummaryExample()
    ensures Millis(Summary([10000, 20000, 15000])) == Rtt(10, 15, 20)
  {
    var s := [10000, 20000, 15000];
    assert s[1..] == [20000, 15000] && s[1..][1..] == [15000];
    assert s[..2] == [10000, 20000] && s[..2][..1] == [10000] && s[..2][..1][..0] == [];
    assert Sum(s[..2][..1]) == 10000;
    assert Sum(s[..2]) == 30000;
    assert Sum(s) == 45000;
  }

  /** The min/avg/max line of the summary, in whole milliseconds. */
  method Statistics(rrt: seq<int>) returns (report: Rtt)
    requires |rrt| > 0
    ensures report == Millis(Summary(rrt))
    ensures report.Min <= report.Avg <= report.Max
  {
    var min, max := MinMax(rrt);
    var total := 0;
    for i := 0 to |rrt|
      invariant total == Sum(rrt[..i])
    {
      assert rrt[..i + 1][..i] == rrt[..i];
      total := total + rrt[i];
    }
    assert rrt[..|rrt|] == rrt;
    var avg := GoDiv(total, |rrt|);
    report := Rtt(GoDiv(min, 1000), GoDiv(avg, 1000), GoDiv(max, 1000));
    MillisOrdered(rrt);
  }

  // ---------------------------------------------------------------------
  // RTT change
  // ---------------------------------------------------------------------

  /** The sample the RTT change is measured against: the one before the
      newest, when there are at least two. */
  function ChangeBaseline(rrt: seq<int>): Option<int>
  {
    if |rrt| > 1 then Some(rrt[|rrt| - 2]) else None
  }

  /** After a reply, the baseline is the sample of the previous reply of the
      session, and there is none after the first reply. */
  lemma BaselineIsPreviousReply(os: seq<Outcome>, o: Outcome)
    requires o.Reply?
    ensures ChangeBaseline(Run(Initial, os + [o]).RRT) ==
            if Samples(os) == [] then None else Some(Samples(os)[|Samples(os)| - 1])
  {
    var all := os + [o];
    assert all[..|all| - 1] == os;
    SessionCounters(os);
  }

  /** After a failed attempt, the baseline is the one the previous attempt
      had: the newest sample is not the one compared against. */
  lemma BaselineAfterFailure(c: Counters, o: Outcome)
    requires !o.Reply?
    ensures ChangeBaseline(Step(c, o).RRT) == ChangeBaseline(c.RRT)
  {
  }

  // ---------------------------------------------------------------------
  // Session loop
  // ---------------------------------------------------------------------

  /** The two microsecond values the RTT change of a reply is computed from. */
  datatype Change = Change(Before: int, Current: int)

  /** What one cycle reports, before formatting. */
  datatype Report =
    | Replied(PayloadSize: int, Address: string, Seq: int, TTL: int, RTT: nat, Change: Option<Change>)
    | Unreachable(Address: string, Seq: int)

  /** The report of a cycle whose attempt finished in time. */
  function RepliedReport(result: PingResult, address: string, sequence: int, rrt: seq<int>): (r: Report)
    ensures r.Replied? && r.Address == address && r.Seq == sequence
    ensures r.PayloadSize == result.PayloadSize && r.TTL == result.UsedTTL && r.RTT == result.RTT
    ensures r.Change.Some? <==> |rrt| > 1
    ensures r.Change.Some? ==> r.Change.value == Change(rrt[|rrt| - 2], Micros(result.RTT))
  {
    var change := match ChangeBaseline(rrt)
      case None => None
      case Some(before) => Some(Change(before, Micros(result.RTT)));
    Replied(result.PayloadSize, address, sequence, result.UsedTTL, result.RTT, change)
  }

  /** One attempt, raced against the timeout: `answeredInTime` tells which one
      finished first, and a read that never returns never wins. Quiet mode
      only drops the report; the attempt and its effect on the counters are
      the same. */
  method Cycle(p: Ping, pid: int, outcome: Outcome, answeredInTime: bool, quiet: bool)
    returns (report: Option<Report>)
    requires outcome.Pending? ==> !answeredInTime
    modifies p`Sequence, p`Success, p`Failed, p`RRT
    ensures p.State() == Step(old(p.State()), outcome)
    ensures p.Configuration() == old(p.Configuration())
    ensures quiet ==> report == None
    ensures !quiet && !answeredInTime ==> report == Some(Unreachable(p.IPAddress, p.Sequence))
    ensures !quiet && answeredInTime ==>
      report == Some(RepliedReport(ResultOf(outcome), p.IPAddress, p.Sequence, p.RRT))
  {
    var data, _ := p.Ping(pid, outcome);
    if quiet {
      report := None;
    } else if answeredInTime {
      report := Some(RepliedReport(data, p.IPAddress, p.Sequence, p.RRT));
    } else {
      report := Some(Unreachable(p.IPAddress, p.Sequence));
    }
  }

  /** What one cycle of the loop meets. */
  datatype Attempt = Attempt(outcome: Outcome, answeredInTime: bool)

  /** A pending attempt cannot have answered before the timeout. */
  predicate Possible(a: Attempt)
  {
    a.outcome.Pending? ==> !a.answeredInTime
  }

  function Outcomes(attempts: seq<Attempt>): (os: seq<Outcome>)
    ensures |os| == |attempts| && forall i :: 0 <= i < |os| ==> os[i] == attempts[i].outcome
  {
    seq(|attempts|, i requires 0 <= i < |attempts| => attempts[i].outcome)
  }

  /** The cycles of the session loop, one per attempt, until the interrupt. */
  method Loop(p: Ping, pid: int, attempts: seq<Attempt>, quiet: bool)
    returns (reports: seq<Option<Report>>)
    requires forall i :: 0 <= i < |attempts| ==> Possible(attempts[i])
    modifies p`Sequence, p`Success, p`Failed, p`RRT
    ensures p.State() == Run(old(p.State()), Outcomes(attempts))
    ensures p.Configuration() == old(p.Configuration())
    ensures |reports| == |attempts|
    ensures forall i :: 0 <= i < |reports| ==> (reports[i] == None <==> quiet)
  {
    reports := [];
    for i := 0 to |attempts|
      invariant p.State() == Run(old(p.State()), Outcomes(attempts[..i]))
      invariant p.Configuration() == old(p.Configuration())
      invariant |reports| == i
      invariant forall j :: 0 <= j < i ==> (reports[j] == None <==> quiet)
    {
      var report := Cycle(p, pid, attempts[i].outcome, attempts[i].answeredInTime, quiet);
      ghost var upto := Outcomes(attempts[..i + 1]);
      assert upto[..i] == Outcomes(attempts[..i]);
      reports := reports + [report];
    }
    assert attempts[..|attempts|] == attempts;
  }

  /** A whole session from the configuration to the interrupt: afterwards
      Sequence is the number of cycles; Success + Failed + (the attempts still
      blocked in their read) == Sequence, so Success + Failed == Sequence when
      every cycle was answered in time; RRT holds exactly the RTTs of the
      replies in order; and the configuration, the fixed payload included, is
      what the target chose. */
  method Session(interval: int, timeout: int, ttl: int, targetIP: string, plainTarget: string,
                 pid: int, attempts: seq<Attempt>, quiet: bool)
    returns (p: Ping, reports: seq<Option<Report>>)
    requires forall i :: 0 <= i < |attempts| ==> Possible(attempts[i])
    ensures fresh(p)
    ensures p.Sequence == |attempts|
    ensures Consistent(p.State())
    ensures p.Success + p.Failed + PendingCount(Outcomes(attempts)) == p.Sequence
    ensures (forall i :: 0 <= i < |attempts| ==> attempts[i].answeredInTime) ==>
            p.Success + p.Failed == p.Sequence
    ensures p.RRT == Samples(Outcomes(attempts))
    ensures p.Configuration() ==
      Config(interval, targetIP, FamilyOf(targetIP).Listen, EchoPayload, FamilyOf(targetIP).Network,
             FamilyOf(targetIP).ProtocolNumber, plainTarget, timeout, ttl)
    ensures |reports| == |attempts|
  {
    p := NewPing(interval, timeout, ttl, targetIP, plainTarget);
    reports := Loop(p, pid, attempts, quiet);
    SessionCounters(Outcomes(attempts));
    if forall i :: 0 <= i < |attempts| ==> attempts[i].answeredInTime {
      NoPendingCount(Outcomes(attempts));
    }
  }
}
