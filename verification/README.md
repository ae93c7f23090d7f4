# HiPerConTracer, verified

HiPerConTracer measures round-trip times and paths in the Internet, stores the results in text files, imports these
into databases and prints them again. This project models that pipeline in Dafny, from the checksum of a probe to the
printed result, and proves what each stage promises. `dafny verify dfyconfig.toml` checks all of it.

The model has the source's form: objects whose methods change fields and buffers are classes, loops are loops, and each
such method is proved against a function on values. What the program promises is then proved about these functions, for
all inputs, all states, or all runs of a state machine.

| part | files | main results |
|---|---|---|
| Checksums | `Words`, `Internet16`, `OnesComplement`, `ChecksumTweak` | The unrolled native-endian sum is the checksum of RFC 1071; the tweak always reaches its target |
| ICMP probes | `Headers`, `Probes`, `Filing`, `IcmpModule` | All probes of a round carry one checksum; one entry per round and hop |
| Life cycle | `Wrappers`, `Addresses`, `ResultEntries`, `TimeStamps`, `LifeCycle`, `EntryHistory`, `IoModule`, `StampAttribution`, `LateReplies` | Over all interleavings: a result is final, nothing is lost, keys never clash; delays add up; when a kernel time stamp reaches its own probe, and a late reply another one |
| Ping | `Lexicographic`, `PingCalls`, `PingProcessing`, `Ping`, `PingLines` | A call to any number of destinations uses one checksum; when exactly processing completes, and then independently of the order; every line written reads as its result |
| UDP probes, replies | `IpHeaders`, `UdpProbes`, `UdpModule`, `Responses`, `Decoders`, `Answers` | All packets of a call verify and say what their turn is; which bytes exactly are taken for an answer, and whose answer an entry has; a quoted or returned probe of a call resolves to its own entry while that is live; whatever is received is a step of the life cycle |
| Text | `Numbers`, `Tokens`, `ResultLines`, `Conversions` | Printed results are read back; lines of version 1 read as what they mean |
| Database | `Sorting`, `TracerouteData`, `TracerouteReader`, `TracerouteImport`, `TracerouteQuery`, `Pipeline` | The statement is a well-formed list of exactly the runs; import and query give the same runs back |
| Merging, writing | `Merge`, `ResultsFiles`, `ResultsWriter` | Every thread schedule prints the same list; published files hold exactly what was closed without error |

## How the code is modelled

- Machine integers are ranges of `int`, with every wrap-around and truncation written out; bit operations on bytes are
  written as arithmetic, and the combination of status and flags uses `bv32`.
- The host is little-endian, `unsigned long` has 64 bits, and times are counts of nanoseconds after 1970.
- Clock readings, results of `send_to()`, received messages and kernel time stamps are parameters, and the theorems
  hold for all of them. So are the outcomes of file operations: writing, flushing, renaming, removing, opening, and
  creating directories may each fail.
- `abort()`, failed `assure()` and `assert()`, and exceptions are results of the functions. Where a method has such a
  check as a precondition, a lemma says when it holds.
- The database is a collection of rows that a query returns in the order of its ORDER BY clause. How it orders
  addresses is left open: the results hold for every ranking that tells addresses apart.
- Printing and reading of addresses is the library's, assumed to be inverse and without spaces.

## Where the code does not do what one may expect

The model follows the code, and says exactly when an expected property holds.

- The checksum 0xffff cannot be reached by any tweak, all others can (`ChecksumTweak.ReachableChecksums`). The program
  excludes it.
- The 32-bit accumulator is exact up to 131074 bytes; `OnesComplement.WrapBeyondBound` has the next even length.
- A UDP checksum of zero is sent as zero; RFC 768 replaces it. This happens for exactly one source port or two, the
  checksum that the probe has with port 0 (`UdpProbes.ChecksumIsZero`, `UdpProbes.ZeroChecksumOccurs`).
- A reply whose application time is more than one nanosecond before the send time, which takes a clock that is set back,
  makes the program abort when it writes the result, in all formats but the old one. Processing completes exactly if
  there is none (`PingProcessing.ProcessingCompletes`, `PingProcessing.ClockStepStops`).
- In lines of version 1, a round-trip time that is not available becomes 0 (`PingLines.NoMicroseconds`).
- A reply to a request that has been reported can be recorded for the request 65536 later (`LateReplies.LateReply`).
- The checksum of a round's ICMPv6 probes includes a pseudo-header, which the program does not know of; they still
  share one (`Probes.RoundsShareWireChecksum`).
- A failed send and the next send share a time stamp ID, and unless the key wraps to zero between them, the failed one
  takes the kernel's time stamp (`StampAttribution.StampReachesOwnEntry`, `StampAttribution.FailedSendTakesStamp`).
- A results file that is complete but cannot be renamed is removed by the opening of the next file
  (`ResultsFiles.FailedRenameLosesFile`).
- The unconditional check of the application's round-trip time also passes one nanosecond before the send time, since the
  value for "not available" is -1 (`TimeStamps.ChecksPass`).
- A #T line with all status flags set leaves a NoSQL statement open for good (`TracerouteImport.ImportSucceeds`).
- The removal of duplicates compares #T lines only. Rows that come twice, which the primary key of the table prevents,
  would lose all hops but the first (`TracerouteQuery.DoubledRunLosesHops`), and two runs that differ only in a
  measurement ID that is filled in for one of them can be printed as one (the condition `MappedApart` of
  `TracerouteQuery.StoredRunsComeBack`).
- Runs without hops have no rows in SQL, so they do not come back (`TracerouteQuery.NothingDropped`).
- Hop lines of version 1 as the documentation (README.md, line 506) and the writer (src/traceroute.cc, line 707) have them are
  rejected by the converter, which expects a space after the tab (`Conversions.DocumentedOldHopRejected`).
- A round-trip time of -1 microseconds in a line of version 1 becomes -1000 nanoseconds, not "not available"
  (`Conversions.OldPingReads`).

## Model

| member | source | states |
|---|---|---|
| OnesComplement.OnesSumIsCanon | src/internet16.cc:33-78 | The RFC 1071 sum of a message is the representative modulo 65535 of the plain sum of its words, where zero stands only for a sum of zero |
| Internet16.ComputeInternet16 | src/internet16.cc:34-78 | Adding native words in steps of 20, 8 and 2 bytes and an odd last byte adds the little-endian sum of the whole buffer, modulo 2^32 |
| Internet16.NativeSumAppend | src/internet16.cc:33-78 | The sums of two buffers add up, if the first has an even length |
| OnesComplement.FoldTwice | src/internet16.h:41-46 | Two folds bring every 32-bit sum into 16 bits without changing it modulo 65535, and give zero only for zero |
| OnesComplement.FinishIsCanon | src/internet16.h:41-46 | The finished checksum is the swapped complement of the representative, and 0xffff exactly for a sum of zero |
| OnesComplement.SwappedSum | src/internet16.cc:41-77 | The little-endian sum is 256 times the network-order sum modulo 65535 |
| OnesComplement.CanonSwap | src/internet16.h:45 | The byte swap turns the little-endian result into the network-order one, for all lengths, odd ones included |
| OnesComplement.FinishIsChecksum | src/internet16.h:41-46 | Native sum, folds, complement and swap give the RFC 1071 checksum whenever the sum did not exceed 32 bits |
| OnesComplement.PiecewiseSum | src/iomodule-udp.cc:327-341 | Accumulating even-length pieces and one last piece of any length equals one call on their concatenation |
| OnesComplement.NoWrap | src/traceserviceheader.h:56-57 | Up to 131074 bytes, more than any header and payload, the 32-bit accumulator never overflows |
| OnesComplement.WrapBeyondBound | src/internet16.cc:41-54 | Two bytes more, all 0xff, and the result is not the checksum any more: the bound is exact for even lengths |
| OnesComplement.InternetChecksum | src/iomodule-udp.cc:334-336 | Computing and finishing the sum of a buffer gives its RFC 1071 checksum |
| ChecksumTweak.TweakValueIs | src/iomodule-icmp.cc:298-305 | With the uint32 subtraction and uint16 truncation and increment, both branches give the ones' complement difference |
| ChecksumTweak.SumAfterPut | src/iomodule-icmp.cc:305-312 | Writing a word at an even offset changes the sum by the difference of the words |
| ChecksumTweak.TweakHitsTarget | src/iomodule-icmp.cc:298-313 | Whatever the message and the target below 0xffff, the tweaked message has exactly the target checksum |
| ChecksumTweak.ReachableChecksums | src/iomodule-icmp.cc:294-296 | Some tweak gives a checksum if and only if that is not 0xffff |
| ChecksumTweak.ChecksummedVerifies | src/iomodule-icmp.cc:307-312 | A message that carries its checksum sums to all ones, as a receiver of ICMPv4 checks |
| ChecksumTweak.SameWithPseudoHeader | src/iomodule-icmp.cc:298-315 | Messages with one checksum still have one checksum when the same pseudo-header is added to each, as for ICMPv6 |
| Headers.EchoFields | src/icmpheader.h:70-80 | Type, code, checksum, identifier and sequence number are read back from an echo header |
| Headers.PayloadFields | src/traceserviceheader.h:46-53 | Magic number, TTL, round, tweak and time stamp are read back from a payload of any size, and the filler behind them |
| Headers.PayloadOfParts | src/iomodule-icmp.cc:278-283 | The setters turn any payload of a call into the payload of the probe, whatever it held for earlier probes |
| Headers.TraceServiceHeader.constructor | src/traceserviceheader.h:62-71 | A new payload is zero in its first 64 bytes, and then counts |
| Headers.TraceServiceHeader.SetMagicNumber | src/traceserviceheader.h:79-84 | Writes the number in network byte order and nothing else |
| Headers.TraceServiceHeader.SetChecksumTweak | src/traceserviceheader.h:96-99 | Writes the tweak, or sequence number, in network byte order and nothing else |
| Headers.TraceServiceHeader.SetSendTimeStamp | src/traceserviceheader.h:118-127 | Writes the 64-bit time stamp in network byte order and nothing else |
| Headers.ICMPHeader.SetSeqNumber | src/icmpheader.h:80 | Writes the sequence number in network byte order and nothing else |
| Probes.PlanIsComplete | src/iomodule-icmp.cc:244-260 | The double loop has rounds times TTLs turns, each pair of round and TTL exactly once, rounds upward and hops downward |
| Probes.ProbeCarriesTarget | src/iomodule-icmp.cc:288-315 | The assure on the new checksum never fires: any probe carries the given target, or sets it, and verifies |
| Probes.MessageFields | src/iomodule-icmp.cc:272-286 | Everything a receiver reads from a probe |
| Probes.SendProbeCarries | src/iomodule-icmp.cc:272-335 | One turn: the probe carries its round's target, which the entry records; no other target changes |
| Probes.RoundsShareChecksum | src/iomodule-icmp.cc:259-336 | In every call all probes of a round carry one common checksum, given or taken from the first; given targets stay |
| Probes.RoundsShareWireChecksum | src/iomodule-icmp.cc:259-336 | And for ICMPv6 they share the checksum that includes the call's pseudo-header |
| Probes.OneEntryPerTurn | src/iomodule-icmp.cc:261-338 | One entry per turn, with its round, hop, time and size and every other field of a new entry, under consecutive 16-bit sequence numbers |
| Probes.CallProbeSays | src/iomodule-icmp.cc:261-286 | In every call, the bytes of probe k: type, identifier, k-th sequence number, magic number, and TTL, round and send time of turn k |
| Probes.EntriesAreStamped | src/iomodule-icmp.cc:322-328 | All entries of a call are in the state that the time stamp results rely on |
| StampAttribution.IDsOfCall | src/iomodule-icmp.cc:322-332 | In every ICMP call, entry k has the ID that the number of successes before turn k determines, so a failed send and the next one share theirs |
| StampAttribution.IDsOfUDPCall | src/iomodule-udp.cc:348-360 | The same for every UDP call |
| Probes.CallIsRun | src/iomodule-icmp.cc:341-346 | With live entries from the last 65536 - n allocations only, a call of n probes is a run of insertions into free keys |
| IcmpModule.ICMPModule.constructor | src/iomodule-icmp.cc:65-70 | The packet size is the one asked for, but at least that of the headers; the payload fills it |
| IcmpModule.ICMPModule.ConfigSays | src/iomodule-icmp.cc:234-246 | What a call fixes: echo request of the address family, the module's numbers, payload and packet size |
| IcmpModule.ICMPModule.MessageChecksum | src/iomodule-icmp.cc:308-312 | Header and payload summed one after the other give the checksum of the message |
| IcmpModule.ICMPModule.AdjustChecksum | src/iomodule-icmp.cc:284-315 | The header buffers after a turn are the tweaked probe, with the program's assure proved on the way |
| IcmpModule.ICMPModule.UpdateProbe | src/iomodule-icmp.cc:272-315 | The buffers that earlier probes have changed become exactly this turn's message |
| IcmpModule.ICMPModule.SendRequest | src/iomodule-icmp.cc:188-358 | The nested loops over changing buffers, targets, counters and map do what the specification of a call says, with all entries filed |
| Filing.InsertChecked | src/iomodule-icmp.cc:341-352 | An entry is filed under its free key, and marked if it was not sent |
| LifeCycle.SameKey | src/iomodule-icmp.cc:262 | Two allocations share a key exactly if they are 0 or 65536 apart |
| LifeCycle.StepKeepsInvariant | src/iomodule-base.cc:311-442 | Every send, time stamp, reply and time-out keeps keys equal to sequence numbers, and sent = reported + live |
| LifeCycle.RunKeepsInvariant | src/iomodule-base.cc:311-442 | So does every interleaving of them |
| LifeCycle.StatusIsFinal | src/iomodule-base.cc:340-441 | Once known, an entry's status never changes again in any run |
| LifeCycle.NothingIsLost | src/ping.cc:210-236 | In any run each allocated entry is live or has been reported |
| LifeCycle.ReportsOnlyGrow | src/ping.cc:218-236 | Reports are only appended |
| LifeCycle.RunNotifiesOnce | src/iomodule-base.cc:340-441 | The new-result callback fires at most once per entry, and only with a known status |
| LifeCycle.KnownStatus | src/iomodule-base.cc:358-437 | The types and codes that have a status other than Unknown, for either address family |
| EntryHistory.StampFiled | src/iomodule-icmp.cc:578-612 | Exactly which layer of the entry found gets the kernel's source and time: a software stamp comes first, a hardware stamp counts only for transmission; all else stays |
| EntryHistory.ReplyFiled | src/iomodule-base.cc:317-441 | What a reply changes: nothing if an address contradicts; else, for an entry without status, hop, size and three receive stamps; after that the source address at most |
| EntryHistory.RunEntry | src/iomodule-base.cc:340-441 | Over every run an entry keeps its request, once it has a status its answer, and its send times unless a stamp with its ID arrives |
| EntryHistory.QueuingDelay | src/iomodule-icmp.cc:597-606 | A scheduler stamp a and a later transmission stamp b that reach an entry give the queuing delay b - a in every run, or none if a > b |
| Answers.AnswersFromMessages | src/iomodule-base.cc:340-441 | Over all inputs, each allocation whose callback was called has the sender, length, times and status of the first message accepted for it, for good |
| LifeCycle.FreshKeys | src/iomodule-icmp.cc:341-346 | The next n allocations find free keys if and only if all live entries stem from the last 65536 - n allocations |
| LifeCycle.InsertsRun | src/iomodule-icmp.cc:341-346 | Entries numbered in sequence are insertions that are all possible |
| StampAttribution.StampReachesOwnEntry | src/iomodule-icmp.cc:565-622 | After any call, the time stamp of a probe that was sent reaches its own entry if and only if no older entry under a smaller key has its ID, and the send before did not fail (or its key is not smaller) |
| StampAttribution.UDPStampReachesOwnEntry | src/iomodule-icmp.cc:565-622 | The same condition, as an equivalence, after any UDP call |
| StampAttribution.FailedSendTakesStamp | src/iomodule-icmp.cc:565-622 | In every call: after a failed send under a smaller key, the time stamp of the next probe leaves its own entry as it is |
| IoModule.ResultsMap.Insert | src/iomodule-icmp.cc:342-346 | The map gains the entry under its sequence number |
| IoModule.IOModuleBase.RecordResult | src/iomodule-base.cc:311-442 | A reply changes the entry under its number if the addresses match, the status only once, and no other entry |
| IoModule.IOModuleBase.UpdateSendTimeInResultEntry | src/iomodule-icmp.cc:565-622 | A time stamp changes the first entry with its ID, in key order, and no other |
| ResultEntries.ResultEntry.Initialise | src/resultentry.cc:109-144 | The whole value of an entry, new or used before: no time stamp but the send time keeps a source; scope identifiers are dropped |
| ResultEntries.ResultEntry.Expire | src/resultentry.cc:157-164 | The whole value of an entry that timed out |
| ResultEntries.ResultEntry.SendingFailed | src/resultentry.cc:168-199 | The whole value of an entry that could not be sent |
| TimeStamps.DelaysAddUp | src/resultentry.cc:203-449 | If all four parts are available, the application RTT is, and is their sum; so 0 <= software RTT <= application RTT |
| TimeStamps.ValuesAre | src/resultentry.cc:453-478 | Each of the six values delivered is the difference of the two time stamps it is named after, or -1 under an exact condition; the packed word has the sources |
| TimeStamps.ValuesAddUp | src/resultentry.cc:453-515 | If the four parts are delivered, they add up to the application's RTT that is delivered |
| TimeStamps.SourceCodes | src/resultentry.h:112-127 | The code of each time source |
| TimeStamps.ChecksPass | src/resultentry.cc:453-515 | Of the checks only the application's can abort, and it does exactly if the reply is earlier than one nanosecond before the send time |
| TimeStamps.LocalCompletionsPass | src/resultentry.cc:157-199 | After a time-out or a failed send no check aborts, and the RTT is the expiration or zero |
| TimeStamps.PendingEntryAborts | src/resultentry.cc:480-484 | What obtainResultsValues does with an entry that has no result yet |
| TimeStamps.PackedTimeSourceDecodes | src/resultentry.cc:469-478 | The packed time source decodes to all eight sources |
| PingProcessing.ComparisonIsKeyOrder | src/ping.cc:180-198 | The comparison is the lexicographic order by address, traffic class and round |
| PingProcessing.ComparisonIsStrictWeakOrder | src/ping.cc:180-198 | It is a strict weak order, as std::sort demands |
| PingProcessing.WaitsExactly | src/ping.cc:213-216 | When exactly an entry still waits, with the truncation of the duration cast |
| PingProcessing.TimedOutAs | src/ping.cc:213-217 | An entry whose time is up has the time-out as its result, received when it expired, and is else unchanged |
| PingProcessing.FailsExactly | src/resultentry.cc:480-484 | Processing a reachable entry aborts the program if and only if its reply came more than a nanosecond before its request, whatever the time and the expiration (and never with lines of version 1) |
| PingProcessing.ProcessingCompletes | src/ping.cc:202-236 | Processing completes, in any order, if and only if there is no such entry; otherwise it aborts at the first one in the order |
| PingProcessing.ClockStepStops | src/ping.cc:219-226 | A reachable state in which it aborts |
| PingProcessing.ProcessingIsRun | src/ping.cc:202-236 | Processing is a run of the life cycle up to where it stops, and what it reports is what it writes; it does not stop if and only if no reply came before its request, and then what it leaves does not depend on the order |
| Ping.Ping.ChooseTargets | src/ping.cc:145-153 | All rounds get the target that identifier and sequence number determine |
| Ping.Ping.SendRequests | src/ping.cc:140-176 | The calls for all destinations, one after the other, with fields, targets and map as specified |
| Ping.Ping.ProcessResults | src/ping.cc:202-236 | Aborts exactly at the first entry whose checks fail; the entries before it are written, in the order, passed to the callback, erased and counted down one by one to zero. Without an abort the map keeps exactly the waiting entries |
| Ping.RemoveCompleted | src/ping.cc:213-231 | One entry: expired, written and erased, with the assure on the erasure proved, or an abort when writing it fails a check |
| PingLines.EntryReadsBack | src/ping.cc:253-300 | A completed entry passes the checks and prints a line that the importer reads as its result: status code, time stamp, and the obtained values |
| PingLines.EntryColumns | src/ping.cc:274-300 | The first 14 columns of an entry's line, in terms of its fields |
| PingLines.EntryTimes | src/ping.cc:274-300 | Its last six columns are the differences of its time stamps |
| PingLines.ReplyCodes | src/iomodule-base.cc:358-437 | The number that stands in the line for each ICMP type and code, of both address families |
| PingLines.LocalCodes | src/resultentry.cc:168-199 | And for a time-out and each error of sendto() |
| PingLines.OldRTT | src/resultentry.cc:519-535 | Which round-trip time a line of version 1 has, in terms of the entry's time stamps |
| PingLines.ReportsReadBack | src/ping.cc:253-300 | So does every result that any run reports, if its reply did not come before its request |
| PingLines.WrittenReadsBack | src/ping.cc:202-236 | Every line of version 2 that processing writes, up to its end or its abort, reads as the result of its entry, in the order of writing |
| PingLines.OldEntryReadsBack | src/ping.cc:304-322 | A line of version 1 reads as its meaning, with the most accurate round-trip time in microseconds |
| PingLines.StatusCodesDiffer | src/resultentry.h:38-79 | The status is known from its code |
| PingCalls.PingTarget | src/ping.cc:145-150 | The target is never 0xffff |
| PingCalls.TargetTellsNumber | src/ping.cc:145-150 | Checksum and identifier give back the call's first sequence number, unless the checksum is zero, and when it is |
| PingCalls.OneChecksumForAll | src/ping.cc:143-167 | All messages of a call, to all destinations and in all rounds, carry one checksum |
| PingCalls.CallsNumber | src/ping.cc:161-167 | All calls together number their entries in sequence |
| PingCalls.PingCallIsRun | src/ping.cc:140-176 | In reachable states with recent entries only, the whole call finds free keys and is a run of insertions |
| IpHeaders.IPv4Header.constructor | src/ipv4header.h:64-66 | The buffer is not initialised, but for one byte |
| IpHeaders.IPv6Header.SetTrafficClass | src/ipv6header.h:75-79 | The class is read back from the two bytes that it is spread over, and the version and flow label in the same bytes stay |
| UdpModule.PrepareIPv4 | src/iomodule-udp.cc:222-229 | All bytes that stay the same are set, whatever the buffer contained |
| UdpModule.PrepareIPv6 | src/iomodule-udp.cc:211-217 | All bytes that stay the same are set, whatever the buffer contained |
| UdpModule.UpdateIPv4 | src/iomodule-udp.cc:310-338 | Whatever the buffer contained, the 20 bytes are the header of this probe with its checksum |
| UdpModule.UpdateDatagram | src/iomodule-udp.cc:317-341 | UDP header and payload of this probe, with the checksum over pseudo-header, header and payload |
| UdpProbes.PseudoFirst | src/iomodule-udp.cc:327-341 | The order in which the pieces are summed does not matter |
| UdpProbes.IPv4HeaderVerifies | src/iomodule-udp.cc:336-338 | Every IPv4 header sums to all ones (RFC 791, section 3.1) |
| UdpProbes.DatagramVerifies | src/iomodule-udp.cc:327-341 | Every datagram sums to all ones with its pseudo-header (RFC 768; RFC 8200, section 8.1) |
| UdpProbes.ChecksumIsZero | src/iomodule-udp.cc:327-341 | The checksum is zero if and only if the source port is the checksum of the same probe with port 0, or 0xffff if that is zero |
| UdpProbes.ChecksumAsTransmitted | src/iomodule-udp.cc:341 | The checksum is the one that RFC 768 transmits if and only if the source port is none of these |
| UdpProbes.ZeroChecksumOccurs | src/iomodule-udp.cc:341 | For every probe there is a source port other than 0 with which the checksum is zero |
| UdpModule.UDPModule.constructor | src/iomodule-udp.cc:66-71 | The packet size is the one asked for, but at least that of the headers; the payload fills it |
| UdpModule.UDPModule.ConfigSays | src/iomodule-udp.cc:199-205 | What a call fixes: the module's ports, size and magic number |
| UdpModule.UDPModule.UpdatePacket | src/iomodule-udp.cc:303-346 | The buffers that earlier packets have changed become exactly this turn's packet, for both address families |
| UdpModule.UDPModule.SendRequest | src/iomodule-udp.cc:162-379 | The nested loops over changing buffers, counters and map do what the specification of a call says, with all entries filed |
| UdpProbes.OnePacketPerTurn | src/iomodule-udp.cc:296-365 | One packet and one entry per turn, with the same consecutive sequence number, and every field of the entry |
| UdpProbes.CallPacketSays | src/iomodule-udp.cc:303-324 | In every call, the bytes of packet k: every field of IP and UDP header; TTL in the IP header and the payload, round, k-th sequence number and send time of turn k |
| UdpProbes.CallVerifies | src/iomodule-udp.cc:303-341 | Every packet of every call verifies, as a receiver does it: the IPv4 header, and the datagram with a pseudo-header taken from the packet itself |
| UdpProbes.UDPCallIsRun | src/iomodule-udp.cc:364-370 | In reachable states with recent entries only, a call finds free keys and is a run of insertions |
| Responses.HandlePayloadResponse | src/iomodule-icmp.cc:627-732 | The handlers of both modules change the map as the decoded response says, or not at all, and call the callback exactly for an accepted first result |
| Responses.ResponsesHandled | src/iomodule-udp.cc:386-482 | Whatever bytes are received, the types and codes that either module's handler passes on have a status |
| Decoders.ICMPv6Takes | src/iomodule-icmp.cc:636-678 | Which bytes the ICMP module takes for an answer, and what from them: exactly echo replies and errors with its own identifier and magic number |
| Decoders.ICMPv4Takes | src/iomodule-icmp.cc:680-731 | The same for IPv4, with headers of any size; errors need only the identifier |
| Decoders.UDPv6Takes | src/iomodule-udp.cc:399-441 | Which ICMPv6 errors the UDP module takes: exactly those that quote its own ports and magic number |
| Decoders.UDPv4Takes | src/iomodule-udp.cc:443-480 | Which ICMPv4 errors it takes: exactly those that quote its own ports; the identification is the number |
| Decoders.UDPReplyTakes | src/iomodule-udp.cc:392-400 | Which datagrams it takes: exactly those with its magic number |
| Responses.InputsAreRun | src/iomodule-icmp.cc:544-551 | Messages of any content, between any other events, are a run of the life cycle: each is one reply, or nothing |
| Responses.InputsKeepInvariant | src/iomodule-base.cc:311-442 | So nothing that is received breaks the invariant, or notifies twice |
| Responses.ResolvedUpdates | src/iomodule-base.cc:317-441 | A message that resolves to an entry without status gives it hop, size, receive times and status, and changes no other |
| Responses.QuotedProbeResolvesV4 | src/iomodule-icmp.cc:707-728 | An ICMPv4 error resolves to the probe that it quotes, with any options and at least 8 bytes, and passes the address check |
| Responses.QuotedProbeResolvesV6 | src/iomodule-icmp.cc:658-676 | An ICMPv6 error resolves to the probe that it quotes up to its payload header |
| Responses.EchoReplyResolves | src/iomodule-icmp.cc:640-705 | An echo of a probe resolves to the probe, for both address families |
| Responses.CallProbeResolves | src/iomodule-icmp.cc:658-728 | In every ICMP call, an error that quotes the beginning of probe k resolves to entry k, for both address families |
| Responses.CallEchoResolves | src/iomodule-icmp.cc:640-705 | In every ICMP call, an echo of probe k resolves to entry k |
| LateReplies.TimelyReply | src/iomodule-base.cc:317-336 | A reply to an allocation that is live finds its own entry |
| LateReplies.LateReply | src/iomodule-base.cc:317-336 | A reply to an allocation that is not live any more is recorded for another one if and only if a live allocation a multiple of 65536 later has matching addresses, and otherwise dropped |
| Responses.SentIsQuotable | src/iomodule-udp.cc:210-232 | The header as sent is among the headers that an error may quote |
| Responses.QuotedUDPResolvesV4 | src/iomodule-udp.cc:444-480 | An ICMPv4 error that quotes a UDP probe resolves by the identification, whatever routers did to service, flags, TTL, options and checksum |
| Responses.QuotedUDPResolvesV6 | src/iomodule-udp.cc:406-440 | An ICMPv6 error that quotes a UDP probe up to its payload header resolves to it, whatever routers did outside next header and addresses |
| Responses.CallPacketResolves | src/iomodule-udp.cc:386-482 | In every UDP call, an error that quotes the beginning of packet k as it was sent resolves to entry k |
| Responses.UDPReplyResolves | src/iomodule-udp.cc:393-401 | A returned UDP payload resolves to the probe |
| Responses.CallReturnResolves | src/iomodule-udp.cc:386-401 | In every UDP call, the payload of packet k, returned on the UDP socket, resolves to entry k |
| TracerouteData.StatusUnpacks | src/hpct-query.cc:248-256 | Status and flags in one column come apart again if and only if the status fits the low byte and the flags leave it free |
| TracerouteReader.Statement.BeginRow | src/database-statement.h:70-92 | Opens a row with its separator; only if none is open |
| TracerouteReader.Statement.EndRow | src/database-statement.h:94-107 | Closes the open row and counts it |
| TracerouteReader.TracerouteReader.BeginParsing | src/reader-traceroute.cc:543-565 | A new statement, and no rows |
| TracerouteReader.TracerouteReader.ParseContents | src/reader-traceroute.cc:603-795 | The loop over a file's lines has the specified effect on statement and counter, or fails as specified |
| TracerouteReader.TracerouteReader.FinishParsing | src/reader-traceroute.cc:569-599 | The statement is completed exactly if there are rows |
| TracerouteImport.GroupingInverts | src/reader-traceroute.cc:669-795 | Grouping the lines of runs gives the runs |
| TracerouteImport.ImportBuildsDocuments | src/reader-traceroute.cc:603-795 | After any files no row is open, both counters have one row per run, and the text is the rendering of exactly the runs |
| TracerouteImport.ImportSucceeds | src/reader-traceroute.cc:669-794 | The statement is complete if and only if every hop has its #T line, no line is bad, and no #T line has all flags set |
| TracerouteImport.HopsAreJoined | src/reader-traceroute.cc:763-780 | The hops are separated correctly if and only if just the first hop has a number up to 1 |
| TracerouteImport.ImportBuildsAllRows | src/reader-traceroute.cc:603-795 | For SQL, over any files: succeeds if and only if every hop has its #T line and no line is bad; then no row is open, both counters have one row per hop, and the text has gained exactly these rows |
| TracerouteImport.SQLStatement | src/database-statement.h:70-107 | The whole SQL statement of any files: INSERT INTO, then one tuple for each hop, in parentheses and joined by commas; and exactly which files make it |
| TracerouteImport.NoSQLStatement | src/database-statement.h:70-107 | The whole NoSQL statement of any files: one document for each run, in braces and joined by commas, with its hops joined by commas |
| TracerouteImport.CountersAgree | src/reader-traceroute.cc:569-576 | The assert at the end of an import, that both counters agree, never fails, for either kind of database |
| TracerouteImport.LinesAreRows | src/reader-traceroute.cc:712-761 | Importing the lines of runs makes the rows of the runs |
| TracerouteQuery.Query | src/hpct-query.cc:758-791 | The fetch loop and its macros compute the specified output, line by line |
| TracerouteQuery.SortedRowsNeverAbort | src/hpct-query.cc:173-176 | Rows in the database's order never violate the sorting order, whatever they contain |
| TracerouteQuery.OutputSorted | src/hpct-query.cc:786-790 | From rows of runs in order the runs are rebuilt, one after the other |
| TracerouteQuery.NothingDropped | src/reader-traceroute.cc:712-761 | Only runs without hops do not come back |
| TracerouteQuery.StoredRunsComeBack | src/hpct-query.cc:753-791 | Rows of imported runs, in the database's order, print as the same runs in key order, with and without removing duplicates; measurement IDs that are not stored are replaced by the known ones |
| TracerouteQuery.RepeatedRunRemoved | src/hpct-query.cc:165-187 | A run that repeats the last #T line is removed as a whole, and counted once |
| TracerouteQuery.DoubledRunLosesHops | src/hpct-query.cc:165-187 | Of a run whose rows come twice, the removal leaves only the #T line and the first hop |
| Pipeline.SameTextSameHeader | src/hpct-query.cc:165-187 | Headers whose printed #T lines are equal are equal, so the search for duplicates may compare either |
| Pipeline.FilesComeBack | src/hpct-query.cc:200-268 | Printed runs, read, stored and queried, are printed again as the text of the same runs in key order, after the format line |
| Numbers.ReadBack | src/reader-traceroute.cc:165-184 | A printed number is read back, decimal or hexadecimal |
| Numbers.ReadBackSigned | src/reader-traceroute.cc:520-539 | A negative number is read as unsigned, and the cast restores it |
| Numbers.PrintedForm | src/ping.cc:274-300 | Numbers are printed in lower case, without leading zeros |
| Numbers.PaddedForm | src/ping.cc:274-300 | Padded numbers have the width, with zeros in front |
| Tokens.Tokenise | src/reader-traceroute.cc:652-663 | The tokeniser's loop finds the tokens between spaces, up to the limit |
| Tokens.SplitJoined | src/reader-traceroute.cc:652-663 | Tokens joined by spaces are found again, up to the limit; what follows is dropped |
| ResultLines.PingReadsBack | src/ping.cc:274-300 | Printing any Ping result and parsing it restores every field, with delays that are not available |
| ResultLines.FieldLimits | src/reader-traceroute.cc:205-490 | Exactly which numbers and time stamps the importer takes: the fields' limits, and times from ten years back to one day ahead |
| ResultLines.HeaderReadsBack | src/hpct-query.cc:223-244 | A printed #T line is parsed as its header |
| ResultLines.HopReadsBack | src/hpct-query.cc:246-268 | A printed hop line is parsed as its hop, whatever the reader's columns held before |
| Conversions.PingReads | src/reader-ping.cc:137-190 | A printed Ping line of version 2 reads as its result |
| Conversions.OldPingReads | src/conversions.cc:37-111 | A Ping line of version 1 reads as its meaning: nanoseconds, and defaults for the columns it lacks |
| Conversions.OldHeaderReads | src/conversions.cc:146-175 | A #T line of version 1 reads as its meaning, and its time stamp is kept |
| Conversions.OldHopReads | src/conversions.cc:177-205 | A hop line of version 1 reads as its meaning: decimal status, nanoseconds, the run's time stamp |
| Conversions.OldRunReads | src/reader-traceroute.cc:644-663 | A run of version 1 reads as the run that it means |
| Conversions.DocumentedOldHopRejected | src/conversions.cc:177-208 | Hop lines without a space after the tab, as the documentation and the writer have them, are rejected |
| Conversions.PrintedRunsRead | src/reader-traceroute.cc:636-724 | The printed lines of any runs are read as the lines of the runs |
| Merge.EntryOrderIsKeyOrder | src/hpct-results.cc:117-154 | The six-level comparison is the lexicographic order of the keys |
| Merge.HopRowsAreNumbered | src/hpct-results.cc:650-654 | A header's hop rows are numbered in sequence |
| Merge.FileAdds | src/hpct-results.cc:560-660 | From a whole file a worker adds exactly its single rows, and the hop rows of each header with numbers and joined lines |
| Merge.WorkerFails | src/hpct-results.cc:560-660 | A worker has no error of its own if and only if no line is broken and each hop row has its header row |
| Merge.AddressOrder | src/hpct-results.cc:117-154 | IPv4 before IPv6; within a family the first octet that differs decides |
| Merge.SearchIsTheSets | src/hpct-results.cc:598-607 | The search for an entry with the same key is that of the ordered set: neither entry is less than the other |
| Merge.NoErrorStep | src/hpct-results.cc:598-607 | A step keeps the set in order and loses nothing |
| Merge.SchedulesEnd | src/hpct-results.cc:892-909 | No schedule has more steps than the workers have actions |
| Merge.ScheduleCompletes | src/hpct-results.cc:892-909 | Every schedule can be completed, so that all workers finish |
| Merge.EveryScheduleMerges | src/hpct-results.cc:892-925 | Under every schedule: no error if and only if no line is bad and all keys differ; then the lines of the same strictly increasing list are printed in its order, with the maximum time stamp; otherwise nothing |
| ResultsFiles.StepKeeps | src/resultswriter.cc:104-179 | Every step, whatever operations fail, keeps: files with a final name are complete and not empty; the only temporary file is the stream's, and if its rename failed it is complete |
| ResultsFiles.RunDelivers | src/resultswriter.cc:104-179 | After any run the published files, by number, hold exactly the tuples whose close succeeded (flush and rename), in order |
| ResultsFiles.PublishedForever | src/outputstream.cc:71-172 | A published file is never changed or removed |
| ResultsFiles.FailedFileDisappears | src/outputstream.cc:139-172 | A file whose close fails, the rename included, has no final name, and its temporary file goes with the next opening or the end if its removal works |
| ResultsFiles.FailedRenameLosesFile | src/outputstream.cc:160-167 | After a failed rename the whole file is there under its temporary name, and is lost in the same change of files if and only if that gets as far as removing it |
| ResultsFiles.NeverPublishedLater | src/resultswriter.cc:104-152 | A number that was passed without a file never gets one |
| ResultsWriter.OutputStream.Close | src/outputstream.cc:135-172 | Flush, rename or remove, and clean up; a failed flush is thrown first, a failed rename or removal after the file is closed |
| ResultsWriter.OutputStream.Open | src/outputstream.cc:71-131 | Closes without synchronisation, removes an existing file, and opens the temporary one; each step may throw |
| ResultsWriter.ResultsWriter.ChangeFile | src/resultswriter.cc:104-152 | Closes the file if it has tuples, and opens the next number |
| ResultsWriter.ResultsWriter.Insert | src/resultswriter.cc:166-179 | Writes the header before the first tuple only |

## Left out

- Sockets, control messages, name resolution, timers, privileges, logging (which at trace level checks a result before it is written, in all formats) and command lines.
- The early return of sendRequest when the traffic class cannot be set, and the setting of the TTL.
- The result entries are allocated one per turn, not ahead of the loop.
- Calls with packet sizes above 65535; the program's options do not allow them.
- UdpModule.UDPModule.SendRequest: local address and destination are of the module's address family, as the program's callers grant; builds without the options for own IP headers are left out.
- IpHeaders.IPv4Header.SetFragmentOffset: only offsets that fit the field; the program writes zero.
- Scheduling of Traceroute TTLs, its processing of results and path hashes; what newResult does.
- Ping.Ping.ProcessResults: the option to remove destinations after a run, and what the result callback does.
- PingLines.OldEntryReadsBack: times before 1970, and those that the importer takes for implausible, are excluded, as they are for lines of version 2.
- Ping.Ping.SendRequests: the destinations' mutex and the timers.
- TracerouteReader.TracerouteReader.ParseContents: lines are given as parsed; `Conversions` reads them from text. The text of single values in a statement is not modelled, only how values are joined.
- TracerouteQuery.Query: an output line is kept as the record that it prints; `Pipeline` gives its text.
- The queries on NoSQL databases, on tables of version 1, and their filters.
- Conversions.OldPingReads: at most ten columns are printed; what follows an eleventh column is dropped, where the program writes a length beyond its array.
- Characters with code zero in a line, which end the line for the converters.
- Merge.EveryScheduleMerges: lines are given as parsed, and the check of the first file's format comes before it. Unsorted output is left out.
- ResultsFiles.RunDelivers: files of one writer, by number; directories, owners and compression are left out. A temporary file's contents are only "partial" until it is synchronised. An exception that leaves the stream's destructor ends the program; the model has what is on the disk then.
- The importer's worker queues (fetchFiles), file names and priorities, and the jitter computation.
- Database clients, configuration files, compression, CRC-32 and SHA-1.
- Big-endian hosts: the last odd byte of a buffer would be added to the wrong half.
