/** The lines that Ping writes for its results, in either version, and that the importer reads them back. */
module PingLines {
  import opened Words
  import opened ResultEntries
  import opened TimeStamps
  import opened LifeCycle
  import opened Numbers
  import opened Tokens
  import opened ResultLines
  import opened Conversions
  import opened PingProcessing

  function StatusCode(status: HopStatus): uint32 {
    match status
    case Unknown => 0
    case TimeExceeded => 1
    case UnreachableScope => 100
    case UnreachableNetwork => 101
    case UnreachableHost => 102
    case UnreachableProtocol => 103
    case UnreachablePort => 104
    case UnreachableProhibited => 105
    case UnreachableUnknown => 110
    case Timeout => 200
    case NotSentGenericError => 210
    case NotSentPermissionDenied => 211
    case NotSentNetworkUnreachable => 212
    case NotSentHostUnreachable => 213
    case NotAvailableAddress => 214
    case NotValidMsgSize => 215
    case NotEnoughBufferSpace => 216
    case Success => 255
  }

  /** The code says the status. */
  lemma StatusCodesDiffer(a: HopStatus, b: HopStatus)
    ensures StatusCode(a) == StatusCode(b) ==> a == b
    ensures StatusCode(a) <= 0xff
  {
  }

  /** What the importer gets for each ICMP message, as numbers (RFC 792; RFC 1812, section 5.2.7.1; RFC 4443). */
  lemma ReplyCodes(icmpType: byte, icmpCode: byte)
    ensures StatusCode(ReplyStatus(false, icmpType, icmpCode))
         == if icmpType == 0 then 255
            else if icmpType == 11 then 1
            else if icmpType == 3 then
              if icmpCode in {0, 6} then 101 else if icmpCode in {1, 7} then 102
              else if icmpCode == 3 then 104 else if icmpCode == 13 then 105 else 110
            else 0
    ensures StatusCode(ReplyStatus(true, icmpType, icmpCode))
         == if icmpType == 129 || (icmpType == 0 && icmpCode == 0) then 255
            else if icmpType == 3 then 1
            else if icmpType == 1 then
              if icmpCode == 0 then 101 else if icmpCode == 1 then 105 else if icmpCode == 2 then 100
              else if icmpCode == 3 then 102 else if icmpCode == 4 then 104 else 110
            else 0
  {
  }

  /** And for requests without a reply. */
  lemma LocalCodes(e: Entry, expiration: nat, error: SendError)
    ensures StatusCode(Expired(e, expiration).status) == 200
    ensures StatusCode(FailedToSend(e, error).status)
         == if error.PermissionDenied? then 211 else if error.NetworkUnreachable? then 212
            else if error.HostUnreachable? then 213 else if error.AddressNotAvailable? then 214
            else if error.MessageSize? then 215 else if error.NoBufferSpace? then 216 else 210
  {
  }

  // ----- Lines of version 2 -----

  /** What the writer adds to an entry. */
  datatype Origin = Origin(protocol: char, measurementID: uint32)

  /** The result that is printed for an entry. */
  function ResultOf(e: Entry, origin: Origin): PingResult
    requires ResultsValues(e).Values?
  {
    var v := ResultsValues(e);
    PingResult(origin.protocol, origin.measurementID, e.source, e.request.destination.address,
               Wrap64(e.sent.application.time),
               e.request.roundNumber, e.request.destination.trafficClass, e.request.packetSize, e.responseSize,
               e.request.checksum,
               e.request.sourcePort, e.request.destinationPort, StatusCode(e.status), v.timeSource,
               v.delayAppSend, v.delayQueuing, v.delayAppReceive, v.rttApplication, v.rttSoftware, v.rttHardware)
  }

  ghost predicate TimeFits(time: int) { 0 <= time < 0x8000_0000_0000_0000 }

  /** All times are after 1970, and in 64 signed bits. */
  ghost predicate TimesFit(e: Entry) {
    && TimeFits(e.sent.application.time) && TimeFits(e.sent.software.time)
    && TimeFits(e.sent.hardware.time) && TimeFits(e.sent.scheduler.time)
    && TimeFits(e.received.application.time) && TimeFits(e.received.software.time) && TimeFits(e.received.hardware.time)
  }

  lemma ValuesFit(e: Entry)
    requires TimesFit(e) && ResultsValues(e).Values?
    ensures var v := ResultsValues(e);
      && IsInt64(v.delayAppSend) && IsInt64(v.delayQueuing) && IsInt64(v.delayAppReceive)
      && IsInt64(v.rttApplication) && IsInt64(v.rttSoftware) && IsInt64(v.rttHardware)
  {
    hide PackedTimeSource;
  }

  lemma TimeStampFits(time: int)
    requires TimeFits(time)
    ensures Wrap64(time) == time && Signed64(time) == time
  {
  }

  /** When an entry is written in an importable way: its send time is one that the importer accepts. */
  ghost predicate Importable(e: Entry, origin: Origin, now: int) {
    TimesFit(e) && IsPlausible(e.sent.application.time, now) && origin.protocol != ' '
  }

  lemma ResultPrintable(e: Entry, origin: Origin, now: int)
    requires ResultsValues(e).Values? && Importable(e, origin, now)
    ensures ResultOf(e, origin).Printable(now)
  {
    hide ResultsValues, IsPlausible, Wrap64, Signed64;
    ValuesFit(e);
    TimeStampFits(e.sent.application.time);
  }

  /** A completed entry whose reply did not come before its request prints a line that reads as its result. */
  lemma EntryReadsBack(e: Entry, origin: Origin, text: AddressText, now: int)
    requires Stamped(e) && e.status != Unknown && OnTime(e) && text.Valid() && Importable(e, origin, now)
    ensures ResultsValues(e).Values?
    ensures ReadPingLine(PrintPing(ResultOf(e, origin), text), text, now) == PingLine.Result(ResultOf(e, origin))
  {
    hide ResultsValues, PrintPing, ReadPingLine, ResultOf, Importable, Stamped;
    ChecksPass(e);
    ResultPrintable(e, origin, now);
    PingReads(ResultOf(e, origin), text, now);
  }

  /** The first 14 columns of the line, in terms of the entry's fields. */
  lemma EntryColumns(e: Entry, origin: Origin, text: AddressText, now: int)
    requires Stamped(e) && e.status != Unknown && OnTime(e) && text.Valid() && Importable(e, origin, now)
    ensures ResultsValues(e).Values? && e.sent.application.time >= 0
    ensures var t := Split(PrintPing(ResultOf(e, origin), text), 20); var q := e.request;
      && |t| == 20 && t[0] == "#P" + [origin.protocol] && t[1] == Print(origin.measurementID, 10)
      && t[2] == text.show(e.source) && t[3] == text.show(q.destination.address)
      && t[4] == Print(e.sent.application.time, 16) && t[5] == Print(q.roundNumber, 10)
      && t[6] == Print(q.destination.trafficClass, 16) && t[7] == Print(q.packetSize, 10)
      && t[8] == Print(e.responseSize, 10) && t[9] == Print(q.checksum, 16)
      && t[10] == Print(q.sourcePort, 10) && t[11] == Print(q.destinationPort, 10)
      && t[12] == Print(StatusCode(e.status), 10) && t[13] == PrintPadded(ResultsValues(e).timeSource, 16, 8)
  {
    TimeStampFits(e.sent.application.time);
    hide *;
    EntryLine(e, origin, text, now);
    PingColumnsAre(ResultOf(e, origin), text);
    ResultFields(e, origin);
  }

  lemma EntryLine(e: Entry, origin: Origin, text: AddressText, now: int)
    requires Stamped(e) && e.status != Unknown && OnTime(e) && text.Valid() && Importable(e, origin, now)
    ensures ResultsValues(e).Values?
      && Split(PrintPing(ResultOf(e, origin), text), 20) == PingColumns(ResultOf(e, origin), text)
    ensures |PingColumns(ResultOf(e, origin), text)| == 20
  {
    hide ResultsValues, PrintPing, Split, ResultOf, Importable, Stamped, PingColumns;
    ChecksPass(e);
    ResultPrintable(e, origin, now);
    PingReadsBack(ResultOf(e, origin), text, now);
  }

  /** The last six columns of the line are the differences of the entry's time stamps. */
  lemma EntryTimes(e: Entry, origin: Origin, text: AddressText, now: int)
    requires Stamped(e) && e.status != Unknown && OnTime(e) && text.Valid() && Importable(e, origin, now)
    ensures ResultsValues(e).Values?
    ensures var t, sent, received := Split(PrintPing(ResultOf(e, origin), text), 20), e.sent, e.received;
      && |t| == 20
      && t[14] == PrintSigned(Difference(sent.scheduler.source == TimestampingSW, sent.application, sent.scheduler))
      && t[15] == PrintSigned(Difference(sent.scheduler.source == TimestampingSW
                                         && sent.software.source == TimestampingSW,
                                         sent.scheduler, sent.software))
      && t[16] == PrintSigned(Difference(received.software.source == TimestampingSW, received.software,
                                         received.application))
      && t[17] == PrintSigned(Difference(true, sent.application, received.application))
      && t[18] == PrintSigned(Difference(received.software.source != NoSource && received.software.time != 0,
                                         sent.software, received.software))
      && t[19] == PrintSigned(Difference(sent.hardware.source == TimestampingHW
                                         && received.hardware.source == TimestampingHW,
                                         sent.hardware, received.hardware))
  {
    ReceivedSet(e);
    hide *;
    EntryLine(e, origin, text, now);
    ValuesAre(e);
    PingColumnsAre(ResultOf(e, origin), text);
    ResultFields(e, origin);
    LastColumns(ResultOf(e, origin), text);
  }

  lemma ReceivedSet(e: Entry)
    requires Stamped(e) && e.status != Unknown
    ensures e.received.application.source == SysClock && e.received.application.time != 0
  {
  }

  lemma ResultFields(e: Entry, origin: Origin)
    requires ResultsValues(e).Values?
    ensures var p, v := ResultOf(e, origin), ResultsValues(e);
      && p.protocol == origin.protocol && p.measurementID == origin.measurementID && p.source == e.source
      && p.destination == e.request.destination.address && p.sendTimeStamp == Wrap64(e.sent.application.time)
      && p.burstSeq == e.request.roundNumber && p.trafficClass == e.request.destination.trafficClass
      && p.packetSize == e.request.packetSize && p.responseSize == e.responseSize && p.checksum == e.request.checksum
      && p.sourcePort == e.request.sourcePort && p.destinationPort == e.request.destinationPort
      && p.status == StatusCode(e.status) && p.timeSource == v.timeSource
      && TimesOf(p) == [v.delayAppSend, v.delayQueuing, v.delayAppReceive, v.rttApplication, v.rttSoftware,
                        v.rttHardware]
  {
    hide ResultsValues;
  }

  lemma LastColumns(p: PingResult, text: AddressText)
    requires |PingColumns(p, text)| == 20 && PingColumns(p, text)[14..20] == SignedColumns(TimesOf(p))
    ensures |TimesOf(p)| == 6
    ensures var t, times := PingColumns(p, text), TimesOf(p);
      && t[14] == PrintSigned(times[0]) && t[15] == PrintSigned(times[1]) && t[16] == PrintSigned(times[2])
      && t[17] == PrintSigned(times[3]) && t[18] == PrintSigned(times[4]) && t[19] == PrintSigned(times[5])
  {
    hide PrintSigned, PingColumns;
    forall i | 0 <= i < 6 ensures PingColumns(p, text)[14 + i] == PrintSigned(TimesOf(p)[i]) {
      assert PingColumns(p, text)[14..20][i] == PingColumns(p, text)[14 + i];
    }
  }

  // ----- Lines of version 1 -----

  /** The most exact layer whose round-trip time is positive, or the application. */
  function MostAccurate(e: Entry): (layer: Layer)
    ensures !layer.Scheduler?
  {
    if RTT(e, Hardware) > 0 then Hardware else if RTT(e, Software) > 0 then Software else Application
  }

  /** C++ division of a signed count: truncation toward zero. */
  function Microseconds(ns: int): int { if ns >= 0 then ns / 1000 else -(-ns / 1000) }

  function OldResultOf(e: Entry): OldPing {
    var layer := MostAccurate(e);
    OldPing(e.source, e.request.destination.address, Wrap64(Microseconds(e.sent.application.time)), e.request.checksum,
            StatusCode(e.status), Microseconds(RTT(e, layer)), 10, e.request.destination.trafficClass,
            e.request.packetSize,
            PackSources(e.received.At(layer).source, e.sent.At(layer).source))
  }

  /**
   The round-trip time of a line of version 1, and its time source: of the hardware if that is positive, else of the
   kernel if that is positive, else of the application, or 0 if the reply came before the request.
   */
  lemma OldRTT(e: Entry)
    requires Stamped(e) && e.status != Unknown
    ensures var o, sent, received := OldResultOf(e), e.sent, e.received;
      if && sent.hardware.source == TimestampingHW && received.hardware.source == TimestampingHW
         && sent.hardware.time < received.hardware.time
      then o.rtt == (received.hardware.time - sent.hardware.time) / 1000 && o.timeSource == 0xaa
      else if && received.software.source != NoSource && received.software.time != 0
              && sent.software.time < received.software.time
      then && o.rtt == (received.software.time - sent.software.time) / 1000
           && o.timeSource == 0x10 * SourceCode(received.software.source) + SourceCode(sent.software.source)
      else && o.timeSource == 0x11
           && o.rtt == if sent.application.time <= received.application.time
                       then (received.application.time - sent.application.time) / 1000 else 0
  {
    NoMicroseconds();
  }

  lemma MicrosecondsFit(time: int)
    requires TimeFits(time)
    ensures 0 <= 1000 * Microseconds(time) <= time && Wrap64(Microseconds(time)) == Microseconds(time)
    ensures Signed64(1000 * Microseconds(time)) == 1000 * Microseconds(time)
  {
    var us := Microseconds(time);
    assert time == 1000 * us + time % 1000;
    assert 0 <= us < 0x8000_0000_0000_0000;
  }

  lemma RTTFits(e: Entry, layer: Layer)
    requires TimesFit(e) && !layer.Scheduler?
    ensures RTT(e, layer) == -1 || TimeFits(RTT(e, layer))
  {
  }

  lemma OldPrintable(e: Entry, now: int)
    requires TimesFit(e) && IsPlausible(1000 * Microseconds(e.sent.application.time), now)
    ensures OldResultOf(e).Printable(now)
  {
    hide IsPlausible, RTT, MostAccurate, Microseconds, Signed64, Wrap64;
    var rtt := RTT(e, MostAccurate(e));
    RTTFits(e, MostAccurate(e));
    MicrosecondsFit(e.sent.application.time);
    if rtt == -1 {
      NoMicroseconds();
    } else {
      MicrosecondsFit(rtt);
    }
  }

  /** The value for "not available" is truncated to zero. */
  lemma NoMicroseconds()
    ensures Microseconds(-1) == 0
  {
  }

  /** Lines of version 1 are never refused for a wrong clock; they read as what they mean. */
  lemma OldEntryReadsBack(e: Entry, text: AddressText, now: int)
    requires text.Valid() && TimesFit(e) && IsPlausible(1000 * Microseconds(e.sent.application.time), now)
    ensures OldResultOf(e).columns == 10 && 1000 * OldResultOf(e).timeStamp <= MAX64
    ensures ReadPingLine(Join(OldPingTokens(OldResultOf(e), text)), text, now)
        == PingLine.Result(OldResultOf(e).Meaning())
  {
    hide ReadPingLine, Join, OldPingTokens, IsPlausible;
    OldPrintable(e, now);
    OldPingReads(OldResultOf(e), text, now);
  }

  // ----- All lines of a run -----

  /** The results file's lines. */
  function PingTexts(entries: seq<Entry>, origin: Origin, text: AddressText): (lines: seq<string>)
    requires forall i :: 0 <= i < |entries| ==> ResultsValues(entries[i]).Values?
    ensures |lines| == |entries|
  {
    seq(|entries|, i requires 0 <= i < |entries| => PrintPing(ResultOf(entries[i], origin), text))
  }

  /** Every result that a run reports, and whose reply did not come before its request, reads back from its line. */
  lemma ReportsReadBack(first: uint16, events: seq<Event>, w: World, i: nat, origin: Origin, text: AddressText,
                        now: int)
    requires IsRun(Start(first), events, w) && i < |w.reported| && text.Valid()
    requires OnTime(w.reported[i].1) && Importable(w.reported[i].1, origin, now)
    ensures var e := w.reported[i].1;
      && ResultsValues(e).Values?
      && ReadPingLine(PrintPing(ResultOf(e, origin), text), text, now) == PingLine.Result(ResultOf(e, origin))
  {
    StartIsInvariant(first);
    RunKeepsInvariant(Start(first), events, w);
    ReportComplete(w, i);
    hide *;
    EntryReadsBack(w.reported[i].1, origin, text, now);
  }

  lemma ReportComplete(w: World, i: nat)
    requires Invariant(w) && i < |w.reported|
    ensures Stamped(w.reported[i].1) && w.reported[i].1.status != Unknown
  {
  }

  /** What is written has a result, and passed the checks. */
  ghost predicate Reportable(e: Entry) { Stamped(e) && e.status != Unknown && OnTime(e) }

  ghost predicate AllReportable(entries: seq<Entry>) { forall i :: 0 <= i < |entries| ==> Reportable(entries[i]) }

  ghost predicate AllImportable(entries: seq<Entry>, origin: Origin, now: int) {
    forall i :: 0 <= i < |entries| ==> Importable(entries[i], origin, now)
  }

  lemma {:induction false} WrittenReportable(table: Table, order: seq<uint16>, now: int, expiration: nat)
    requires forall k :: k in order ==> k in table && Stamped(table[k])
    requires NoneFails(CurrentFormat, table, order, |order|, now, expiration)
    ensures AllReportable(Written(table, order, now, expiration))
  {
    hide Completion, Fails, Reportable, Stamped;
    if order == [] {
    } else {
      var last := |order| - 1;
      forall j | 0 <= j < last ensures order[..last][j] == order[j] {
      }
      WrittenReportable(table, order[..last], now, expiration);
      CompletionReportable(table[order[last]], now, expiration);
    }
  }

  lemma CompletionReportable(e: Entry, now: int, expiration: nat)
    requires Stamped(e) && !Fails(CurrentFormat, e, now, expiration)
    ensures AllReportable(Completion(e, now, expiration))
  {
    hide Stamped, TimedOut, ResultsValues;
    TimedOutIsStamped(e, now, expiration);
    var t := TimedOut(e, now, expiration);
    if t.status != Unknown {
      ChecksPass(t);
    }
  }

  /**
   Whatever processing writes as lines of version 2, up to its end or to where it stops: every line reads as the
   result of its entry, in the order of writing.
   */
  lemma WrittenReadsBack(w: World, order: seq<uint16>, now: int, expiration: nat, origin: Origin, text: AddressText,
                         later: int)
    requires Invariant(w) && IsOrder(order, w.table.Keys) && text.Valid()
    requires AllImportable(Written(w.table, order[..Reached(CurrentFormat, w.table, order, now, expiration)], now,
                                   expiration),
                           origin, later)
    ensures var written := Written(w.table, order[..Reached(CurrentFormat, w.table, order, now, expiration)], now,
                                   expiration);
      && (forall i :: 0 <= i < |written| ==> ResultsValues(written[i]).Values?)
      && (forall i :: 0 <= i < |written| ==>
            ReadPingLine(PingTexts(written, origin, text)[i], text, later)
                == PingLine.Result(ResultOf(written[i], origin)))
  {
    hide *;
    TableStamped(w);
    OrderMembers(w.table, order);
    var n := Reached(CurrentFormat, w.table, order, now, expiration);
    FirstNoneFails(w.table, order, n, now, expiration);
    WrittenReportable(w.table, order[..n], now, expiration);
    TextsReadBack(Written(w.table, order[..n], now, expiration), origin, text, later);
  }

  lemma TextsReadBack(entries: seq<Entry>, origin: Origin, text: AddressText, now: int)
    requires AllReportable(entries) && AllImportable(entries, origin, now) && text.Valid()
    ensures forall i :: 0 <= i < |entries| ==> ResultsValues(entries[i]).Values?
    ensures forall i :: 0 <= i < |entries| ==>
              ReadPingLine(PingTexts(entries, origin, text)[i], text, now)
                  == PingLine.Result(ResultOf(entries[i], origin))
  {
    hide ResultsValues, PrintPing, ReadPingLine, ResultOf, Importable, Reportable;
    forall i | 0 <= i < |entries|
      ensures ResultsValues(entries[i]).Values?
      ensures ReadPingLine(PrintPing(ResultOf(entries[i], origin), text), text, now)
          == PingLine.Result(ResultOf(entries[i], origin))
    {
      ReportableReadsBack(entries[i], origin, text, now);
    }
  }

  lemma FirstNoneFails(table: Table, order: seq<uint16>, n: nat, now: int, expiration: nat)
    requires (forall k :: k in order ==> k in table) && NoneFails(CurrentFormat, table, order, n, now, expiration)
    ensures forall k :: k in order[..n] ==> k in table
    ensures NoneFails(CurrentFormat, table, order[..n], n, now, expiration)
  {
    hide Fails;
  }

  lemma ReportableReadsBack(e: Entry, origin: Origin, text: AddressText, now: int)
    requires Reportable(e) && text.Valid() && Importable(e, origin, now)
    ensures ResultsValues(e).Values?
    ensures ReadPingLine(PrintPing(ResultOf(e, origin), text), text, now) == PingLine.Result(ResultOf(e, origin))
  {
    hide ResultsValues, PrintPing, ReadPingLine, ResultOf, Importable, Stamped;
    EntryReadsBack(e, origin, text, now);
  }
}
