# goping: a Dafny model

goping is a command-line ping tool written in Go. It resolves a target to an
IP address and derives a session configuration from the address family:
ICMP over `udp4` on `0.0.0.0` for IPv4, and ICMPv6 over `udp6` on `::` for
IPv6. It then sends one ICMP echo request per interval. Each attempt is raced
against a timeout and prints either a reply line, with the change in RTT
against the previous sample, or an "unreachable" line. On interrupt it prints
the packet loss and the min/avg/max RTT in milliseconds.

The model has four modules:

- `Wrappers` (`wrappers.dfy`) holds an `Option` type.
- `Helper` (`helper.dfy`) models package helper:
  - the colon-count family tests;
  - the domain-name pattern, written as a predicate that splits on dots;
  - the minimum/maximum scan.
- `Ping` (`ping.dfy`) models package ping:
  - the session record, as a class with the Go struct's fields;
  - its method `Ping`, which performs one attempt;
  - the record `PingResult` that `Ping` returns.

  The socket work of one attempt (listening, writing, reading, parsing) is an
  `Outcome` parameter: one of the four failures, a read that never returns
  (`Pending`; the socket has no read deadline), or a reply with its elapsed
  nanoseconds, bytes, TTL and payload length. The functions `Step`, `Run` and
  `Samples` specify what the running counters become.
- `GoPing` (`goping.dfy`) models the main program:
  - the configuration derivation;
  - the loss formula, both as written and as intended;
  - the RTT summary;
  - the RTT-change baseline;
  - the session loop, with one `Cycle` per attempt.

  Which side of the timeout race wins is an input (`answeredInTime`).

## Model

| member | source | states |
|---|---|---|
| Helper.Count | helper/helper.go:18 | The number of occurrences of a character never exceeds the length of the string. |
| Helper.CountIsMultiplicity | helper/helper.go:18 | The count equals the multiplicity of the character in the multiset of the string's characters. |
| Helper.IsIPv4 | helper/helper.go:16-19 | Fewer than two ':'. IsIPv6Iff ties it to "no two positions hold ':'", and ExactlyOneFamily makes it the complement of IsIPv6. |
| Helper.IsIPv6 | helper/helper.go:21-24 | Two or more ':'. IsIPv6Iff ties it to "two distinct positions hold ':'". |
| Helper.ExactlyOneFamily | helper/helper.go:16-24 | Every string is exactly one of IPv4 and IPv6. |
| Helper.IsIPv6Iff | helper/helper.go:16-24 | IsIPv6 holds exactly when two distinct positions of the address hold ':'. IsIPv4 holds exactly when they do not. |
| Helper.CountAtLeastTwo | helper/helper.go:23 | A count of at least two is equivalent to two distinct occurrences. |
| Helper.CountAtLeastOne | helper/helper.go:18 | A count of at least one is equivalent to membership. |
| Helper.FirstIndex | helper/helper.go:8 | The split point of a label is the first '.' in the string. No '.' comes before it, and it is the length when there is no '.'. |
| Helper.MatchesDomain | helper/helper.go:8 | The whole-string match of the pattern, with the punycode prefix as a parameter. MatchesDomainIffPattern ties it to the labels-then-final-label reading. |
| Helper.IsDomainName | helper/helper.go:8-14 | The source's IsDomainName: MatchesDomain with the prefix as written (" xn--"). PunycodeTldAsWritten shows what that prefix accepts and rejects. |
| Helper.IsDomainNameIntended | helper/helper.go:8-14 | The same match with the intended prefix "xn--". PunycodeTldIntended and IntendedHasNoSpace state what it accepts. |
| Helper.MatchesDomainIffPattern | helper/helper.go:8-14 | The split-on-dots matcher accepts a string exactly when the string is one or more labels, each followed by a dot, then a final label. A label is `[a-z0-9]`, optionally `[a-z0-9-]{0,61}[a-z0-9]`. A final label is `[a-z]{1,63}`, or the prefix followed by `[a-z0-9]{1,59}`. |
| Helper.MatchesDomainHasPattern | helper/helper.go:8 | Every accepted string is given as its labels and final label. |
| Helper.PatternMatchesDomain | helper/helper.go:8 | Every string built from labels and a final label is accepted. |
| Helper.AcceptedHasLabelAndDot | helper/helper.go:8 | An accepted name contains a dot, and the text before its first dot is a label. |
| Helper.DomainChars | helper/helper.go:8 | Every character of an accepted name is a lower-case letter, a digit, '-', '.' or a character of the punycode prefix. |
| Helper.RejectsUpperCaseAndColon | helper/helper.go:8-14 | A name holding an upper-case letter or a ':' is rejected. This covers every IPv6 literal. |
| Helper.RejectsDigitsAndDots | helper/helper.go:8 | A string of digits and dots never matches, because the final label must start with a letter. |
| Helper.Ipv4LiteralIsNotDomainName | helper/helper.go:8-14 | The dotted IPv4 literal 93.184.216.34 is not taken for a domain name. |
| Helper.OneLabelDomain | helper/helper.go:8 | `label.tld` matches exactly when `tld` is a final label or itself a domain. |
| Helper.PrefixedFinalLabel | helper/helper.go:8 | The prefix followed by 1 to 59 letters or digits is a final label. |
| Helper.PunycodeTldAsWritten | helper/helper.go:8 | With the pattern as written, `name.xn--code` is rejected and `name. xn--code` (with a space) is accepted. |
| Helper.PunycodeTldIntended | helper/helper.go:8 | With the intended pattern, `name.xn--code` is accepted for every label `name` and punycode `code`. |
| Helper.IntendedHasNoSpace | helper/helper.go:8 | No name the intended pattern accepts contains a space. |
| Helper.PunycodeExampleAsWritten | helper/helper.go:8 | `example.xn--p1ai` is rejected by the pattern as written. |
| Helper.PunycodeExampleIntended | helper/helper.go:8 | `example.xn--p1ai` is accepted by the intended pattern. |
| Helper.SeqMin | helper/helper.go:27-39 | The reference minimum is an element of the list and no greater than any element. |
| Helper.SeqMax | helper/helper.go:27-39 | The reference maximum is an element of the list and no smaller than any element. |
| Helper.MinMax | helper/helper.go:27-39 | The single scan returns values that belong to the slice and bound every element. They are ordered, and equal SeqMin and SeqMax. |
| Ping.EchoId | ping/ping.go:95 | `pid & 0xffff` lies in [0, 0xffff] and is congruent to the pid modulo 2^16. |
| Ping.Echo | ping/ping.go:91-102 | The request has type 128 (ICMPv6 echo request) exactly when the protocol number is 58, and type 8 otherwise. It has code 0, the masked identifier, the current sequence number and the session payload. |
| Ping.Received | ping/ping.go:119-120 | A read takes the whole packet or 1500 bytes, whichever is smaller. |
| Ping.ReceiveBuffer | ping/ping.go:119-120 | The receive buffer is 1500 bytes: the received prefix of the packet, then zeros. |
| Ping.Micros | ping/ping.go:160 | `Duration.Microseconds`: the whole microseconds m with m·1000 <= elapsed < m·1000 + 1000. |
| Ping.Step | ping/ping.go:72-162 | One attempt adds one to Sequence and keeps the counters consistent. A reply adds a success and its sample. A failure exit adds a failure. A pending attempt adds nothing else. |
| Ping.Run | ping/ping.go:72-162 | The state after a sequence of attempts. RunFrom states its Sequence, Success, Failed and RRT in closed form. |
| Ping.Samples | ping/ping.go:160 | The replies' microsecond RTTs in order, never more than the attempts. RunFrom shows they are exactly what RRT gains. |
| Ping.PendingCount | ping/ping.go:120 | The number of attempts blocked for good in their read, never more than the attempts. |
| Ping.NoPendingCount | ping/ping.go:120 | Without blocked reads, the pending count is zero. |
| Ping.ResultOf | ping/ping.go:75-152 | A result is a success exactly when a reply was parsed. Every failure exit returns the zero PingResult. On a reply the result holds the TTL read back, the whole 1500-byte buffer, the elapsed time and the reply body length. |
| Ping.RunFrom | ping/ping.go:72-162 | Over a run of attempts: Sequence grows by their number; Success grows by the number of replies; Failed grows by the number of failures (attempts neither replied nor pending); RRT gains exactly the replies' microsecond RTTs, in order. |
| Ping.RunKeepsConsistent | ping/ping.go:72-162 | Success + Failed <= Sequence, with one RRT sample per success, is preserved over any run. |
| Ping.SessionCounters | ping/ping.go:42-162 | From zeroed counters: Sequence is the number of attempts; Success + Failed + the pending attempts == Sequence, so Success + Failed == Sequence when none is pending; RRT is exactly the reply samples. |
| Ping.Ping.constructor | ping/ping.go:17-66 | The struct literal sets the given configuration and zero running fields. |
| Ping.Ping.Ping | ping/ping.go:69-165 | One attempt increments Sequence. It then increments Failed (on any of the four failure exits), changes nothing more (when the read at line 120 never returns), or increments Success and appends the elapsed microseconds to RRT. The new state is Step of the old one. It returns ResultOf(outcome) and builds Echo(ProtocolNumber, pid, Sequence, Message). Configuration and consistency are preserved. |
| GoPing.FamilyOf | goping.go:80-98 | The family is IPv6 (protocol 58, `udp6`, `::`) exactly when the address has two or more colons, and IPv4 (protocol 1, `udp4`, `0.0.0.0`) otherwise. |
| GoPing.ExampleIPv4Family | goping.go:80-98 | An IPv4 literal gets the IPv4 family. |
| GoPing.ExampleIPv6Family | goping.go:92-98 | An IPv6 literal gets the IPv6 family. |
| GoPing.Ascii | goping.go:89 | `[]byte(s)` of an ASCII string keeps its length and character codes. |
| GoPing.NewPing | goping.go:79-98 | The new record holds the interval, target, timeout, TTL and the 13-byte payload "echo requests", plus the family of the target address. Every running field is zero. |
| GoPing.GoDiv | goping.go:110-120 | Go's `/` on integers, truncating toward zero. GoDivBounds and GoDivSign state its meaning. |
| GoPing.GoDivBounds | goping.go:110-120 | Go's truncating quotient is the floor for non-negative dividends and the ceiling for negative ones. |
| GoPing.GoDivSign | goping.go:110-120 | The truncating quotient keeps the sign of the dividend. |
| GoPing.GoDivMonotone | goping.go:120 | Truncating division by a positive divisor is monotone. |
| GoPing.LossAsWritten | goping.go:110 | The loss expression exactly as written. LossAsWrittenIsAllOrNothing states its values. |
| GoPing.LossAsWrittenIsAllOrNothing | goping.go:110 | The loss as written is 0 when every attempt succeeded and 100 otherwise. |
| GoPing.LossAsWrittenExample | goping.go:110 | 7 replies out of 10 attempts are reported as 100% loss. |
| GoPing.LossQuotient | goping.go:110 | The truncated 100·Success/Sequence lies in [0, 100]. It is 100 exactly when every attempt succeeded, and it is the floor of the exact share. |
| GoPing.Loss | goping.go:110 | The intended loss lies in [0, 100]. It is 0 exactly when every attempt succeeded and 100 when none did. It is the lost share rounded up to a whole percent. |
| GoPing.LossExample | goping.go:110 | 7 replies out of 10 attempts are 30% loss. |
| GoPing.SumBounds | goping.go:115-118 | The total of the samples lies between n times their lower bound and n times their upper bound. |
| GoPing.Summary | goping.go:113-119 | The minimum, the truncated mean and the maximum of the samples. AvgWithinRange states that the mean lies between the other two. |
| GoPing.Millis | goping.go:120 | Each value divided by 1000, truncated. MillisOrdered states that the order survives. |
| GoPing.AvgWithinRange | goping.go:113-119 | The truncated average lies between the minimum and the maximum sample. |
| GoPing.MillisOrdered | goping.go:120 | min/1000 <= avg/1000 <= max/1000. |
| GoPing.SummaryExample | goping.go:113-120 | Samples of 10000, 20000 and 15000 µs are reported as 10/15/20 ms. |
| GoPing.Statistics | goping.go:113-120 | The MinMax call, the summing loop and the divisions give Millis(Summary(rrt)), and the three values are ordered. |
| GoPing.ChangeBaseline | goping.go:153-156 | `RRT[len-2]` when there are at least two samples, and none otherwise. BaselineIsPreviousReply and BaselineAfterFailure state what that sample is. |
| GoPing.RepliedReport | goping.go:150-163 | The reply line carries the payload size, address, sequence, TTL and RTT of the result. It has a change exactly when there are at least two samples, and then the change compares the second-last sample with the RTT in microseconds. |
| GoPing.BaselineIsPreviousReply | goping.go:152-158 | After a reply, the RTT change is measured against the previous reply's sample, and there is none after the first reply. |
| GoPing.BaselineAfterFailure | goping.go:152-158 | After a failed attempt, the baseline is the one the previous attempt had. |
| GoPing.Possible | goping.go:139-146 | An attempt whose read never returns cannot signal `done` before the timer. |
| GoPing.Outcomes | goping.go:134-172 | The outcomes of the cycles, one per cycle in order. |
| GoPing.Cycle | goping.go:136-169 | One cycle performs one attempt, whose new state is Step of the old one. Quiet mode reports nothing. A lost race reports "unreachable" with the address and sequence. An answered attempt reports the payload size, address, sequence, TTL, RTT and change baseline. |
| GoPing.Loop | goping.go:134-172 | After the cycles the state is Run of the old state over their outcomes. The configuration is unchanged. There is one report per cycle, and it is empty exactly in quiet mode. |
| GoPing.Session | goping.go:79-172 | After a whole session: Sequence is the number of cycles; Success + Failed + the attempts still blocked in their read == Sequence, so Success + Failed == Sequence when every cycle was answered in time; RRT holds exactly the replies' RTTs in order; the configuration is the target's family. |

## Left out

- Sockets: listening (including the `log.Fatal` when listening fails), SetTTL/SetHopLimit, writing, reading, parsing and the TTL read-back. They become the `Outcome` parameter of `Ping.Ping.Ping`.
- The wire encoding of the echo message, including the truncation of `Seq` to 16 bits. The model keeps the message as a record of its fields.
- The no-op "time exceeded" check at ping/ping.go:155-158, because it has no effect.
- Time: the clock, the sleep between cycles and the elapsed session time. Elapsed nanoseconds are an input of a reply.
- Concurrency: the goroutine per attempt, the signal handler and the timer race. The race is the `answeredInTime` input. The model does not capture the summary reading the fields while an attempt writes them.
- GoPing.Cycle: an attempt that loses the race but finishes later (the read returns after the timeout) has its outcome applied within its own cycle. In the program its Success or Failed update can land during a later cycle, or after the summary was printed. An attempt whose read never returns is modelled exactly, as the `Pending` outcome.
- GoPing.Loop: the same simplification for late-finishing attempts. Between cycles, the program's counters can lag the model's.
- GoPing.Session: the same simplification. The program's Success + Failed can stay further below Sequence than the number of `Pending` outcomes while late attempts are still running.
- The floating-point RTT change (`helper.PercentageChange`) and its formatting with a sign. The model keeps the two values it is computed from (`Change`).
- HTML output (`helper.GenHTML`), and command-line parsing, DNS lookup and `net.ParseIP` at goping.go:1-77. `IsDomainName` is modelled, but the choice of target it feeds is not.
- Output: the formatting (`fmt.Printf`) of the reply, unreachable and summary lines, and the `log.Println(err)` on each failure exit of ping/ping.go (lines 106, 114, 122 and 131).
- ping/protocol_number.go is not part of this model.
- GoPing.Summary: int64 overflow of the total is not modelled; integers are unbounded.
- GoPing.Statistics: requires at least one sample. With no samples the source panics in `helper.MinMax`, which reads `array[0]` of an empty slice (helper/helper.go:28), before the division at goping.go:119 is reached.
- Helper.MinMax: requires a non-empty slice, for the same reason.
- GoPing.Loss: requires at least one attempt. With Sequence 0 the source divides by zero and panics.
- GoPing.LossAsWritten: requires a non-zero Sequence, for the same reason.

## Findings

| source | as written | input that shows it | evidently intended | confidence | as-written member | corrected member |
|---|---|---|---|---|---|---|
| goping.go:110 | `100 - (p.Success / p.Sequence * 100)` divides before multiplying, so the integer quotient is 0 or 1 and the loss is 0% or 100% | Success 7, Sequence 10 gives 100% | 30%: `100 - 100 * Success / Sequence` | high (not executed) | GoPing.LossAsWrittenExample | GoPing.LossExample |
| helper/helper.go:8 | the punycode alternative of the final label is ` xn--[a-z0-9]{1,59}`, with a leading space | `example.xn--p1ai` is rejected, and `example. xn--p1ai` is accepted | `xn--[a-z0-9]{1,59}`, with no space | high (not executed) | Helper.PunycodeExampleAsWritten | Helper.PunycodeExampleIntended |
