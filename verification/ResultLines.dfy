/**
 The text lines of results, version 2: how the writers and the query program print them, and how the
 importer's field parsers read them back.
 */
module ResultLines {
  import opened Wrappers
  import opened Words
  import opened Addresses
  import opened Numbers
  import opened Tokens
  import opened TracerouteData

  /** Printing and reading addresses, which is the library's matter. */
  datatype AddressText = AddressText(show: Address -> string, read: string -> Option<Address>) {
    ghost predicate Valid() {
      forall a :: IsToken(show(a)) && read(show(a)) == Some(a)
    }
  }

  // ----- Field parsers; None where they throw -----

  function Narrowed(n: Option<uint64>, max: nat): Option<uint64> {
    if n.Some? && n.value > max then None else n
  }

  /** An unsigned int takes the lower 32 bits. */
  function ParseUnsigned(s: string, base: nat): Option<uint32>
    requires IsBase(base)
  {
    match ParseWhole(s, base)
    case None => None
    case Some(n) => Some(Wrap32(n))
  }

  const HOUR := 3600 * 1_000_000_000

  /** Time stamps must not be older than 10 years or more than a day ahead. */
  predicate IsPlausible(timeStamp: int, now: int) { now - 10 * 365 * 24 * HOUR <= timeStamp <= now + 24 * HOUR }

  function ParseTimeStamp(s: string, now: int): Option<uint64> {
    match ParseWhole(s, 16)
    case None => None
    case Some(n) => if IsPlausible(Signed64(n), now) then Some(n) else None
  }

  function ParseTrafficClass(s: string): Option<uint64> { Narrowed(ParseWhole(s, 16), 0xff) }

  function ParseChecksum(s: string): Option<uint64> { Narrowed(ParseWhole(s, 16), 0xffff) }

  function ParsePort(s: string): Option<uint64> { Narrowed(ParseWhole(s, 10), 0xffff) }

  function ParseHops(s: string): Option<uint64> {
    var n := Narrowed(ParseWhole(s, 10), 255);
    if n == Some(0) then None else n
  }

  /** Read as unsigned, and cast. */
  function ParseSigned(s: string, base: nat): Option<int>
    requires IsBase(base)
  {
    match ParseWhole(s, base)
    case None => None
    case Some(n) => Some(Signed64(n))
  }

  function SignedColumns(times: seq<int>): (columns: seq<string>)
    ensures |columns| == |times|
  {
    seq(|times|, i requires 0 <= i < |times| => PrintSigned(times[i]))
  }

  // ----- Ping -----

  datatype PingResult = PingResult(
    protocol: char,
    measurementID: uint32,
    source: Address,
    destination: Address,
    sendTimeStamp: uint64,
    burstSeq: uint32,
    trafficClass: byte,
    packetSize: uint32,
    responseSize: uint32,
    checksum: uint16,
    sourcePort: uint16,
    destinationPort: uint16,
    status: uint32,
    timeSource: uint32,
    delayAppSend: int,
    delayQueuing: int,
    delayAppReceive: int,
    rttApplication: int,
    rttSoftware: int,
    rttHardware: int)
  {
    /** What fits the fields as they are printed; whether a delay is available does not matter. */
    ghost predicate Printable(now: int) {
      && protocol != ' ' && IsPlausible(Signed64(sendTimeStamp), now)
      && IsInt64(delayAppSend) && IsInt64(delayQueuing) && IsInt64(delayAppReceive)
      && IsInt64(rttApplication) && IsInt64(rttSoftware) && IsInt64(rttHardware)
    }
  }

  const PING_COLUMNS := 20

  function PingColumns(p: PingResult, text: AddressText): (columns: seq<string>)
    ensures |columns| == PING_COLUMNS
  {
    ["#P" + [p.protocol], Print(p.measurementID, 10), text.show(p.source), text.show(p.destination),
     Print(p.sendTimeStamp, 16), Print(p.burstSeq, 10), Print(p.trafficClass, 16), Print(p.packetSize, 10),
     Print(p.responseSize, 10), Print(p.checksum, 16), Print(p.sourcePort, 10), Print(p.destinationPort, 10),
     Print(p.status, 10), PrintPadded(p.timeSource, 16, 8)]
    + SignedColumns(TimesOf(p))
  }

  function TimesOf(p: PingResult): (times: seq<int>)
    ensures |times| == 6
  {
    [p.delayAppSend, p.delayQueuing, p.delayAppReceive, p.rttApplication, p.rttSoftware, p.rttHardware]
  }

  function PrintPing(p: PingResult, text: AddressText): string { Join(PingColumns(p, text)) }

  function ParsePing(tuple: seq<string>, text: AddressText, now: int): Option<PingResult>
    requires |tuple| == PING_COLUMNS && |tuple[0]| >= 3
  {
    var measurementID := ParseUnsigned(tuple[1], 10);
    var source := text.read(tuple[2]);
    var destination := text.read(tuple[3]);
    var sendTimeStamp := ParseTimeStamp(tuple[4], now);
    var burstSeq := ParseUnsigned(tuple[5], 10);
    var trafficClass := ParseTrafficClass(tuple[6]);
    var packetSize := ParseUnsigned(tuple[7], 10);
    var responseSize := ParseUnsigned(tuple[8], 10);
    var checksum := ParseChecksum(tuple[9]);
    var sourcePort := ParsePort(tuple[10]);
    var destinationPort := ParsePort(tuple[11]);
    var status := ParseUnsigned(tuple[12], 10);
    var timeSource := ParseUnsigned(tuple[13], 16);
    var times := ParseTimes(tuple[14..20]);
    if && measurementID.Some? && source.Some? && destination.Some? && sendTimeStamp.Some? && burstSeq.Some?
       && trafficClass.Some? && packetSize.Some? && responseSize.Some? && checksum.Some?
       && sourcePort.Some? && destinationPort.Some? && status.Some? && timeSource.Some? && times.Some? then
      Some(PingResult(tuple[0][2], measurementID.value, source.value, destination.value, sendTimeStamp.value,
                      burstSeq.value,
                      trafficClass.value, packetSize.value, responseSize.value, checksum.value,
                      sourcePort.value, destinationPort.value, status.value, timeSource.value,
                      times.value[0], times.value[1], times.value[2], times.value[3], times.value[4], times.value[5]))
    else None
  }

  function ParseTimes(tuple: seq<string>): (r: Option<seq<int>>)
    ensures r.Some? ==> |r.value| == |tuple|
  {
    if tuple == [] then Some([])
    else
      var first := ParseSigned(tuple[0], 10);
      var rest := ParseTimes(tuple[1..]);
      if first.Some? && rest.Some? then Some([first.value] + rest.value) else None
  }

  // ----- Fields are read back -----

  lemma {:induction false} DigitsAreToken(s: string, base: nat)
    requires IsBase(base) && s != [] && Digits(s, base)
    ensures IsToken(s)
  {
    assert DigitValue(' ') == 16;
    forall c | c in s ensures c != ' ' {
      var i :| 0 <= i < |s| && s[i] == c;
    }
  }

  lemma SignedIsToken(n: int)
    ensures IsToken(PrintSigned(n))
  {
    if n < 0 {
      DigitsAreToken(Print(-n, 10), 10);
    } else {
      DigitsAreToken(Print(n, 10), 10);
    }
  }

  lemma NumberField(n: nat, base: nat)
    requires (base == 10 || base == 16) && n <= 0xffff_ffff_ffff_ffff
    ensures IsToken(Print(n, base)) && ParseWhole(Print(n, base), base) == Some(n)
    ensures n < 0x1_0000_0000 ==> ParseUnsigned(Print(n, base), base) == Some(n)
  {
    hide Print, ParseWhole;
    DigitsAreToken(Print(n, base), base);
    ReadBack(n, base);
  }

  lemma PaddedField(n: uint32)
    ensures IsToken(PrintPadded(n, 16, 8)) && ParseUnsigned(PrintPadded(n, 16, 8), 16) == Some(n)
  {
    hide PrintPadded, ParseWhole;
    DigitsAreToken(PrintPadded(n, 16, 8), 16);
    ReadBackPadded(n, 16, 8);
  }

  lemma SignedField(n: int)
    requires IsInt64(n)
    ensures IsToken(PrintSigned(n)) && ParseSigned(PrintSigned(n), 10) == Some(n)
  {
    SignedIsToken(n);
    hide PrintSigned, ParseWhole, Signed64, Wrap64;
    ReadBackSigned(n);
  }

  lemma {:induction false} TimesFields(times: seq<int>)
    requires forall i :: 0 <= i < |times| ==> IsInt64(times[i])
    ensures AreTokens(SignedColumns(times)) && ParseTimes(SignedColumns(times)) == Some(times)
  {
    hide PrintSigned, ParseSigned, IsToken;
    if times == [] {
    } else {
      SignedField(times[0]);
      TimesFields(times[1..]);
      assert SignedColumns(times)[0] == PrintSigned(times[0]) && SignedColumns(times)[1..] == SignedColumns(times[1..]);
      assert times == [times[0]] + times[1..];
    }
  }

  // ----- Ping lines are read back -----

  lemma SmallFields(trafficClass: byte, checksum: uint16, port: uint16)
    ensures ParseTrafficClass(Print(trafficClass, 16)) == Some(trafficClass)
    ensures ParseChecksum(Print(checksum, 16)) == Some(checksum)
    ensures ParsePort(Print(port, 10)) == Some(port)
  {
    hide Print, ParseWhole;
    NumberField(trafficClass, 16);
    NumberField(checksum, 16);
    NumberField(port, 10);
  }

  lemma TimeStampField(timeStamp: uint64, now: int)
    requires IsPlausible(Signed64(timeStamp), now)
    ensures ParseTimeStamp(Print(timeStamp, 16), now) == Some(timeStamp)
  {
    hide Print, ParseWhole, IsPlausible, Signed64;
    NumberField(timeStamp, 16);
  }

  /**
   Which printed numbers the parsers take: the limits of the fields, and times from ten years back to one day ahead.
   */
  lemma FieldLimits(n: uint64, now: int)
    ensures ParseTrafficClass(Print(n, 16)) == (if n <= 255 then Some(n) else None)
    ensures ParseChecksum(Print(n, 16)) == (if n <= 65535 then Some(n) else None)
    ensures ParsePort(Print(n, 10)) == (if n <= 65535 then Some(n) else None)
    ensures ParseHops(Print(n, 10)) == (if 1 <= n <= 255 then Some(n) else None)
    ensures n < 0x8000_0000_0000_0000 ==>
              ParseTimeStamp(Print(n, 16), now)
              == if now - 315_360_000_000_000_000 <= n <= now + 86_400_000_000_000 then Some(n) else None
  {
    hide Print, ParseWhole;
    NumberField(n, 16);
    NumberField(n, 10);
  }

  lemma PingNumbersRead(p: PingResult, now: int)
    requires IsPlausible(Signed64(p.sendTimeStamp), now)
    ensures ParseUnsigned(Print(p.measurementID, 10), 10) == Some(p.measurementID)
    ensures ParseTimeStamp(Print(p.sendTimeStamp, 16), now) == Some(p.sendTimeStamp)
    ensures ParseUnsigned(Print(p.burstSeq, 10), 10) == Some(p.burstSeq)
    ensures ParseTrafficClass(Print(p.trafficClass, 16)) == Some(p.trafficClass)
    ensures ParseUnsigned(Print(p.packetSize, 10), 10) == Some(p.packetSize)
    ensures ParseUnsigned(Print(p.responseSize, 10), 10) == Some(p.responseSize)
    ensures ParseChecksum(Print(p.checksum, 16)) == Some(p.checksum)
    ensures ParsePort(Print(p.sourcePort, 10)) == Some(p.sourcePort)
    ensures ParsePort(Print(p.destinationPort, 10)) == Some(p.destinationPort)
    ensures ParseUnsigned(Print(p.status, 10), 10) == Some(p.status)
    ensures ParseUnsigned(PrintPadded(p.timeSource, 16, 8), 16) == Some(p.timeSource)
  {
    hide *;
    NumberField(p.measurementID, 10);
    TimeStampField(p.sendTimeStamp, now);
    NumberField(p.burstSeq, 10);
    SmallFields(p.trafficClass, p.checksum, p.sourcePort);
    SmallFields(p.trafficClass, p.checksum, p.destinationPort);
    NumberField(p.packetSize, 10);
    NumberField(p.responseSize, 10);
    NumberField(p.status, 10);
    PaddedField(p.timeSource);
  }

  lemma PingNumbersAreTokens(p: PingResult)
    ensures IsToken(Print(p.measurementID, 10)) && IsToken(Print(p.sendTimeStamp, 16)) && IsToken(Print(p.burstSeq, 10))
    ensures IsToken(Print(p.trafficClass, 16)) && IsToken(Print(p.packetSize, 10)) && IsToken(Print(p.responseSize, 10))
    ensures IsToken(Print(p.checksum, 16)) && IsToken(Print(p.sourcePort, 10)) && IsToken(Print(p.destinationPort, 10))
    ensures IsToken(Print(p.status, 10)) && IsToken(PrintPadded(p.timeSource, 16, 8))
  {
    hide *;
    NumberField(p.measurementID, 10);
    NumberField(p.sendTimeStamp, 16);
    NumberField(p.burstSeq, 10);
    NumberField(p.trafficClass, 16);
    NumberField(p.packetSize, 10);
    NumberField(p.responseSize, 10);
    NumberField(p.checksum, 16);
    NumberField(p.sourcePort, 10);
    NumberField(p.destinationPort, 10);
    NumberField(p.status, 10);
    PaddedField(p.timeSource);
  }

  lemma TagIsToken(kind: string, protocol: char)
    requires (kind == "#P" || kind == "#T") && protocol != ' '
    ensures IsToken(kind + [protocol])
  {
  }

  lemma PingColumnsAre(p: PingResult, text: AddressText)
    ensures var t := PingColumns(p, text);
      && |t| == 20 && t[0] == "#P" + [p.protocol] && t[1] == Print(p.measurementID, 10)
      && t[2] == text.show(p.source) && t[3] == text.show(p.destination)
      && t[4] == Print(p.sendTimeStamp, 16) && t[5] == Print(p.burstSeq, 10) && t[6] == Print(p.trafficClass, 16)
      && t[7] == Print(p.packetSize, 10) && t[8] == Print(p.responseSize, 10) && t[9] == Print(p.checksum, 16)
      && t[10] == Print(p.sourcePort, 10) && t[11] == Print(p.destinationPort, 10) && t[12] == Print(p.status, 10)
      && t[13] == PrintPadded(p.timeSource, 16, 8) && t[14..20] == SignedColumns(TimesOf(p))
  {
    hide Print, PrintPadded, SignedColumns, TimesOf, Digits;
  }

  lemma TokenBefore(t: seq<string>, n: nat)
    requires n < |t| && AreTokens(t[n + 1..]) && IsToken(t[n])
    ensures AreTokens(t[n..])
  {
    hide IsToken;
    assert forall i :: n < i < |t| ==> t[i] == t[n + 1..][i - n - 1];
  }

  lemma SevenTokens(t: seq<string>, n: nat)
    requires n + 6 < |t| && AreTokens(t[n + 7..])
    requires IsToken(t[n]) && IsToken(t[n + 1]) && IsToken(t[n + 2]) && IsToken(t[n + 3])
    requires IsToken(t[n + 4]) && IsToken(t[n + 5]) && IsToken(t[n + 6])
    ensures AreTokens(t[n..])
  {
    hide *;
    TokenBefore(t, n + 6);
    TokenBefore(t, n + 5);
    TokenBefore(t, n + 4);
    TokenBefore(t, n + 3);
    TokenBefore(t, n + 2);
    TokenBefore(t, n + 1);
    TokenBefore(t, n);
  }

  lemma PingTokens(p: PingResult, text: AddressText, now: int)
    requires text.Valid() && p.Printable(now)
    ensures AreTokens(PingColumns(p, text))
  {
    AddressesAreTokens(p, text, now);
    hide *;
    TimesFields(TimesOf(p));
    PingNumbersAreTokens(p);
    TagIsToken("#P", p.protocol);
    PingColumnsAre(p, text);
    var t := PingColumns(p, text);
    assert t[14..] == t[14..20] && t[0..] == t;
    SevenTokens(t, 7);
    SevenTokens(t, 0);
  }

  lemma AddressesAreTokens(p: PingResult, text: AddressText, now: int)
    requires text.Valid() && p.Printable(now)
    ensures IsToken(text.show(p.source)) && IsToken(text.show(p.destination)) && p.protocol != ' '
    ensures forall i :: 0 <= i < 6 ==> IsInt64(TimesOf(p)[i])
  {
    hide IsToken;
  }

  /** Fields that are read one by one are the result. */
  lemma PingOfFields(t: seq<string>, p: PingResult, text: AddressText, now: int)
    requires |t| == PING_COLUMNS && t[0] == "#P" + [p.protocol]
    requires ParseUnsigned(t[1], 10) == Some(p.measurementID)
    requires text.read(t[2]) == Some(p.source) && text.read(t[3]) == Some(p.destination)
    requires ParseTimeStamp(t[4], now) == Some(p.sendTimeStamp) && ParseUnsigned(t[5], 10) == Some(p.burstSeq)
    requires ParseTrafficClass(t[6]) == Some(p.trafficClass) && ParseUnsigned(t[7], 10) == Some(p.packetSize)
    requires ParseUnsigned(t[8], 10) == Some(p.responseSize) && ParseChecksum(t[9]) == Some(p.checksum)
    requires ParsePort(t[10]) == Some(p.sourcePort) && ParsePort(t[11]) == Some(p.destinationPort)
    requires ParseUnsigned(t[12], 10) == Some(p.status) && ParseUnsigned(t[13], 16) == Some(p.timeSource)
    requires ParseTimes(t[14..20]) == Some(TimesOf(p))
    ensures ParsePing(t, text, now) == Some(p)
  {
    hide ParseUnsigned, ParseTimes, ParseTrafficClass, ParseChecksum, ParsePort, ParseTimeStamp;
  }

  lemma PingFields(p: PingResult, text: AddressText, now: int)
    requires text.Valid() && p.Printable(now)
    ensures ParsePing(PingColumns(p, text), text, now) == Some(p)
  {
    AddressesRead(p, text, now);
    hide *;
    TimesFields(TimesOf(p));
    PingNumbersRead(p, now);
    PingColumnsAre(p, text);
    PingOfFields(PingColumns(p, text), p, text, now);
  }

  lemma AddressesRead(p: PingResult, text: AddressText, now: int)
    requires text.Valid() && p.Printable(now)
    ensures text.read(text.show(p.source)) == Some(p.source)
      && text.read(text.show(p.destination)) == Some(p.destination)
    ensures IsPlausible(Signed64(p.sendTimeStamp), now)
    ensures forall i :: 0 <= i < 6 ==> IsInt64(TimesOf(p)[i])
  {
  }

  /** Printing any Ping result and reading the line restores every field, including delays that are not available. */
  lemma PingReadsBack(p: PingResult, text: AddressText, now: int)
    requires text.Valid() && p.Printable(now)
    ensures Split(PrintPing(p, text), PING_COLUMNS) == PingColumns(p, text)
    ensures ParsePing(PingColumns(p, text), text, now) == Some(p)
  {
    PingTokens(p, text, now);
    PingFields(p, text, now);
    hide ParsePing, PingColumns, Split, Join;
    SplitJoined(PingColumns(p, text), "", PING_COLUMNS);
    assert "" + Join(PingColumns(p, text)) == Join(PingColumns(p, text));
  }

  // ----- Traceroute -----

  const TRACEROUTE_COLUMNS := 14
  const HOP_COLUMNS := 12

  /** The path hash is printed as unsigned. */
  function HeaderColumns(h: Header, text: AddressText): (columns: seq<string>)
    ensures |columns| == TRACEROUTE_COLUMNS
  {
    ["#T" + [h.protocol as char], Print(h.measurementID, 10), text.show(h.source), text.show(h.destination),
     Print(h.timeStamp, 16), Print(h.roundNumber, 10), Print(h.totalHops, 10),
     Print(h.trafficClass, 16), Print(h.packetSize, 10), Print(h.checksum, 16), Print(h.sourcePort, 10),
     Print(h.destinationPort, 10), Print(WordNumber(h.statusFlags), 16), Print(Wrap64(h.pathHash), 16)]
  }

  /** A hop line starts with a tab. */
  function HopColumns(h: Hop, text: AddressText): (columns: seq<string>)
    ensures |columns| == HOP_COLUMNS
  {
    ["\t" + Print(h.sendTimeStamp, 16), Print(h.hopNumber, 10), Print(h.responseSize, 10),
     Print(WordNumber(h.status), 10),
     PrintPadded(h.timeSource, 16, 8)]
    + SignedColumns(HopTimes(h)) + [text.show(h.address)]
  }

  function HopTimes(h: Hop): (times: seq<int>)
    ensures |times| == 6
  {
    [h.delayAppSend, h.delayQueuing, h.delayAppReceive, h.rttApplication, h.rttSoftware, h.rttHardware]
  }

  function PrintHeader(h: Header, text: AddressText): string { Join(HeaderColumns(h, text)) }

  function PrintHop(h: Hop, text: AddressText): string { Join(HopColumns(h, text)) }

  ghost predicate HeaderPrintable(h: Header, now: int) {
    && h.protocol != 0x20 && IsPlausible(Signed64(h.timeStamp), now)
    && 1 <= h.totalHops <= 255 && IsInt64(h.pathHash)
  }

  ghost predicate HopPrintable(h: Hop, now: int) {
    && IsPlausible(Signed64(h.sendTimeStamp), now) && 1 <= h.hopNumber <= 255
    && forall i :: 0 <= i < 6 ==> IsInt64(HopTimes(h)[i])
  }

  function AsWord(n: uint32): bv32 { n as bv32 }

  function WordNumber(x: bv32): uint32 { x as int }

  function ParseWord(s: string, base: nat): Option<bv32>
    requires IsBase(base)
  {
    match ParseUnsigned(s, base)
    case None => None
    case Some(n) => Some(AsWord(n))
  }

  function ParseHeader(tuple: seq<string>, text: AddressText, now: int): Option<Header>
    requires |tuple| == TRACEROUTE_COLUMNS && |tuple[0]| >= 3
  {
    var measurementID := ParseUnsigned(tuple[1], 10);
    var source := text.read(tuple[2]);
    var destination := text.read(tuple[3]);
    var timeStamp := ParseTimeStamp(tuple[4], now);
    var roundNumber := ParseUnsigned(tuple[5], 10);
    var totalHops := ParseHops(tuple[6]);
    var trafficClass := ParseTrafficClass(tuple[7]);
    var packetSize := ParseUnsigned(tuple[8], 10);
    var checksum := ParseChecksum(tuple[9]);
    var sourcePort := ParsePort(tuple[10]);
    var destinationPort := ParsePort(tuple[11]);
    var statusFlags := ParseWord(tuple[12], 16);
    var pathHash := ParseSigned(tuple[13], 16);
    if && measurementID.Some? && source.Some? && destination.Some? && timeStamp.Some? && roundNumber.Some?
       && totalHops.Some? && trafficClass.Some? && packetSize.Some? && checksum.Some?
       && sourcePort.Some? && destinationPort.Some? && statusFlags.Some? && pathHash.Some? then
      Some(Header(tuple[0][2] as int % 0x100, measurementID.value, source.value, destination.value, timeStamp.value,
                  roundNumber.value, totalHops.value, trafficClass.value, packetSize.value, checksum.value,
                  sourcePort.value, destinationPort.value, statusFlags.value, pathHash.value))
    else None
  }

  function ParseHop(tuple: seq<string>, text: AddressText, now: int): Option<Hop>
    requires |tuple| == TRACEROUTE_COLUMNS
  {
    var sendTimeStamp := ParseTimeStamp(tuple[0], now);
    var hopNumber := ParseHops(tuple[1]);
    var responseSize := ParseUnsigned(tuple[2], 10);
    var status := ParseWord(tuple[3], 10);
    var timeSource := ParseUnsigned(tuple[4], 16);
    var times := ParseTimes(tuple[5..11]);
    var address := text.read(tuple[11]);
    if && sendTimeStamp.Some? && hopNumber.Some? && responseSize.Some? && status.Some? && timeSource.Some?
       && times.Some? && address.Some? then
      Some(Hop(sendTimeStamp.value, hopNumber.value, responseSize.value, status.value, timeSource.value,
               times.value[0], times.value[1], times.value[2], times.value[3], times.value[4], times.value[5],
               address.value))
    else None
  }

  /** The tuple keeps the columns of earlier lines where a line has fewer. */
  function Overlaid(columns: seq<string>, tuple: seq<string>): (r: seq<string>)
    requires |columns| <= |tuple|
    ensures |r| == |tuple|
  {
    columns + tuple[|columns|..]
  }

  function ParseTuple(tuple: seq<string>, text: AddressText, now: int): Line
    requires |tuple| == TRACEROUTE_COLUMNS
  {
    if |tuple[0]| >= 3 && tuple[0][0] == '#' && tuple[0][1] == 'T' then
      var header := ParseHeader(tuple, text, now);
      if header.Some? then HeaderLine(header.value) else Bad
    else if |tuple[0]| >= 1 && tuple[0][0] == '\t' then
      var hop := ParseHop(tuple, text, now);
      if hop.Some? then HopLine(hop.value) else Bad
    else Bad
  }

  // ----- Traceroute lines are read back -----

  lemma WordBack(x: bv32)
    ensures AsWord(WordNumber(x)) == x
  {
  }

  lemma WordField(x: bv32, base: nat)
    requires base == 10 || base == 16
    ensures IsToken(Print(WordNumber(x), base)) && ParseWord(Print(WordNumber(x), base), base) == Some(x)
  {
    hide Print, ParseUnsigned, AsWord, WordNumber, IsToken;
    WordBack(x);
    NumberField(WordNumber(x), base);
  }

  lemma HopsField(n: nat)
    requires 1 <= n <= 255
    ensures IsToken(Print(n, 10)) && ParseHops(Print(n, 10)) == Some(n)
  {
    hide Print, ParseWhole, IsToken;
    NumberField(n, 10);
  }

  lemma HashField(n: int)
    requires IsInt64(n)
    ensures IsToken(Print(Wrap64(n), 16)) && ParseSigned(Print(Wrap64(n), 16), 16) == Some(n)
  {
    hide Print, ParseWhole, IsToken, Wrap64, Signed64;
    NumberField(Wrap64(n), 16);
    SignedWraps(n);
  }

  lemma TabbedTimeStamp(timeStamp: uint64, now: int)
    requires IsPlausible(Signed64(timeStamp), now)
    ensures IsToken("\t" + Print(timeStamp, 16)) && ParseTimeStamp("\t" + Print(timeStamp, 16), now) == Some(timeStamp)
  {
    DigitsAreToken(Print(timeStamp, 16), 16);
    TabbedToken(Print(timeStamp, 16));
    hide Print, IsPlausible, Signed64, IsToken, Digits;
    ReadBack(timeStamp, 16);
    hide Stoull;
    StoullAfterTab(Print(timeStamp, 16), 16);
  }

  lemma TabbedToken(t: string)
    requires IsToken(t)
    ensures IsToken("\t" + t)
  {
  }

  lemma HeaderFieldsRead(h: Header, now: int)
    requires HeaderPrintable(h, now)
    ensures ParseUnsigned(Print(h.measurementID, 10), 10) == Some(h.measurementID)
    ensures ParseTimeStamp(Print(h.timeStamp, 16), now) == Some(h.timeStamp)
    ensures ParseUnsigned(Print(h.roundNumber, 10), 10) == Some(h.roundNumber)
    ensures ParseHops(Print(h.totalHops, 10)) == Some(h.totalHops)
    ensures ParseTrafficClass(Print(h.trafficClass, 16)) == Some(h.trafficClass)
    ensures ParseUnsigned(Print(h.packetSize, 10), 10) == Some(h.packetSize)
    ensures ParseChecksum(Print(h.checksum, 16)) == Some(h.checksum)
    ensures ParsePort(Print(h.sourcePort, 10)) == Some(h.sourcePort)
    ensures ParsePort(Print(h.destinationPort, 10)) == Some(h.destinationPort)
    ensures ParseWord(Print(WordNumber(h.statusFlags), 16), 16) == Some(h.statusFlags)
    ensures ParseSigned(Print(Wrap64(h.pathHash), 16), 16) == Some(h.pathHash)
  {
    hide IsPlausible, Signed64, Wrap64, Print, ParseUnsigned, ParseTimeStamp, ParseHops, ParseTrafficClass,
        ParseChecksum, ParsePort,
      ParseWord, ParseSigned, IsToken, ParseWhole, IsInt64;
    NumberField(h.measurementID, 10);
    TimeStampField(h.timeStamp, now);
    NumberField(h.roundNumber, 10);
    HopsField(h.totalHops);
    SmallFields(h.trafficClass, h.checksum, h.sourcePort);
    SmallFields(h.trafficClass, h.checksum, h.destinationPort);
    NumberField(h.packetSize, 10);
    WordField(h.statusFlags, 16);
    HashField(h.pathHash);
  }

  lemma HeaderNumbersAreTokens(h: Header, now: int)
    requires HeaderPrintable(h, now)
    ensures IsToken(Print(h.measurementID, 10)) && IsToken(Print(h.timeStamp, 16)) && IsToken(Print(h.roundNumber, 10))
    ensures IsToken(Print(h.totalHops, 10)) && IsToken(Print(h.trafficClass, 16)) && IsToken(Print(h.packetSize, 10))
    ensures IsToken(Print(h.checksum, 16)) && IsToken(Print(h.sourcePort, 10)) && IsToken(Print(h.destinationPort, 10))
    ensures IsToken(Print(WordNumber(h.statusFlags), 16)) && IsToken(Print(Wrap64(h.pathHash), 16))
  {
    hide IsPlausible, Signed64, Wrap64, Print, ParseUnsigned, ParseHops, ParseWord, ParseSigned, IsToken, ParseWhole,
        IsInt64;
    NumberField(h.measurementID, 10);
    NumberField(h.timeStamp, 16);
    NumberField(h.roundNumber, 10);
    HopsField(h.totalHops);
    NumberField(h.trafficClass, 16);
    NumberField(h.packetSize, 10);
    NumberField(h.checksum, 16);
    NumberField(h.sourcePort, 10);
    NumberField(h.destinationPort, 10);
    WordField(h.statusFlags, 16);
    HashField(h.pathHash);
  }

  lemma HeaderColumnsAre(h: Header, text: AddressText)
    ensures var t := HeaderColumns(h, text);
      && |t| == 14 && t[0] == "#T" + [h.protocol as char] && t[1] == Print(h.measurementID, 10)
      && t[2] == text.show(h.source) && t[3] == text.show(h.destination)
      && t[4] == Print(h.timeStamp, 16) && t[5] == Print(h.roundNumber, 10) && t[6] == Print(h.totalHops, 10)
      && t[7] == Print(h.trafficClass, 16) && t[8] == Print(h.packetSize, 10) && t[9] == Print(h.checksum, 16)
      && t[10] == Print(h.sourcePort, 10) && t[11] == Print(h.destinationPort, 10)
      && t[12] == Print(WordNumber(h.statusFlags), 16) && t[13] == Print(Wrap64(h.pathHash), 16)
  {
    hide Print, Digits, Wrap64, WordNumber;
  }

  lemma HeaderAddresses(h: Header, text: AddressText, now: int)
    requires text.Valid() && HeaderPrintable(h, now)
    ensures text.read(text.show(h.source)) == Some(h.source)
      && text.read(text.show(h.destination)) == Some(h.destination)
    ensures IsToken(text.show(h.source)) && IsToken(text.show(h.destination)) && IsToken("#T" + [h.protocol as char])
  {
    TagIsToken("#T", h.protocol as char);
    hide IsToken;
  }

  lemma HeaderTokens(h: Header, text: AddressText, now: int)
    requires text.Valid() && HeaderPrintable(h, now)
    ensures AreTokens(HeaderColumns(h, text))
  {
    hide *;
    HeaderAddresses(h, text, now);
    HeaderNumbersAreTokens(h, now);
    HeaderColumnsAre(h, text);
    var t := HeaderColumns(h, text);
    NoTokens();
    assert t[14..] == [] && t[0..] == t;
    SevenTokens(t, 7);
    SevenTokens(t, 0);
  }

  lemma NoTokens()
    ensures AreTokens([])
  {
  }

  lemma HeaderOfFields(t: seq<string>, h: Header, text: AddressText, now: int)
    requires |t| == 14 && t[0] == "#T" + [h.protocol as char] && ParseUnsigned(t[1], 10) == Some(h.measurementID)
    requires text.read(t[2]) == Some(h.source) && text.read(t[3]) == Some(h.destination)
    requires ParseTimeStamp(t[4], now) == Some(h.timeStamp) && ParseUnsigned(t[5], 10) == Some(h.roundNumber)
    requires ParseHops(t[6]) == Some(h.totalHops) && ParseTrafficClass(t[7]) == Some(h.trafficClass)
    requires ParseUnsigned(t[8], 10) == Some(h.packetSize) && ParseChecksum(t[9]) == Some(h.checksum)
    requires ParsePort(t[10]) == Some(h.sourcePort) && ParsePort(t[11]) == Some(h.destinationPort)
    requires ParseWord(t[12], 16) == Some(h.statusFlags) && ParseSigned(t[13], 16) == Some(h.pathHash)
    ensures ParseTuple(t, text, now) == HeaderLine(h)
  {
    hide ParseUnsigned, ParseTimeStamp, ParseHops, ParseTrafficClass, ParseChecksum, ParsePort, ParseWord, ParseSigned;
  }

  /** A printed #T line is read back. */
  lemma HeaderReadsBack(h: Header, text: AddressText, now: int)
    requires text.Valid() && HeaderPrintable(h, now)
    ensures Split(PrintHeader(h, text), TRACEROUTE_COLUMNS) == HeaderColumns(h, text)
    ensures ParseTuple(HeaderColumns(h, text), text, now) == HeaderLine(h)
  {
    hide *;
    PrintHeaderIs(h, text);
    HeaderTokens(h, text, now);
    HeaderAddresses(h, text, now);
    HeaderFieldsRead(h, now);
    HeaderColumnsAre(h, text);
    HeaderOfFields(HeaderColumns(h, text), h, text, now);
    SplitJoined(HeaderColumns(h, text), "", TRACEROUTE_COLUMNS);
  }

  lemma PrintHeaderIs(h: Header, text: AddressText)
    ensures PrintHeader(h, text) == "" + Join(HeaderColumns(h, text)) && TRACEROUTE_COLUMNS == 14
  {
  }

  lemma HopFieldsRead(h: Hop, now: int)
    requires HopPrintable(h, now)
    ensures ParseTimeStamp("\t" + Print(h.sendTimeStamp, 16), now) == Some(h.sendTimeStamp)
    ensures ParseHops(Print(h.hopNumber, 10)) == Some(h.hopNumber)
    ensures ParseUnsigned(Print(h.responseSize, 10), 10) == Some(h.responseSize)
    ensures ParseWord(Print(WordNumber(h.status), 10), 10) == Some(h.status)
    ensures ParseUnsigned(PrintPadded(h.timeSource, 16, 8), 16) == Some(h.timeSource)
    ensures AreTokens(SignedColumns(HopTimes(h))) && ParseTimes(SignedColumns(HopTimes(h))) == Some(HopTimes(h))
    ensures IsToken("\t" + Print(h.sendTimeStamp, 16)) && IsToken(Print(h.hopNumber, 10))
      && IsToken(Print(h.responseSize, 10))
    ensures IsToken(Print(WordNumber(h.status), 10)) && IsToken(PrintPadded(h.timeSource, 16, 8))
  {
    hide IsPlausible, Signed64, Print, PrintPadded, ParseUnsigned, ParseTimeStamp, ParseHops, ParseWord, IsToken,
        ParseWhole, IsInt64,
      SignedColumns, ParseTimes, AreTokens, HopTimes;
    TabbedTimeStamp(h.sendTimeStamp, now);
    HopsField(h.hopNumber);
    NumberField(h.responseSize, 10);
    WordField(h.status, 10);
    PaddedField(h.timeSource);
    TimesFields(HopTimes(h));
  }

  lemma HopColumnsAre(h: Hop, text: AddressText)
    ensures var t := HopColumns(h, text);
      && |t| == 12 && t[0] == "\t" + Print(h.sendTimeStamp, 16) && t[1] == Print(h.hopNumber, 10)
      && t[2] == Print(h.responseSize, 10) && t[3] == Print(WordNumber(h.status), 10)
      && t[4] == PrintPadded(h.timeSource, 16, 8)
      && t[5..11] == SignedColumns(HopTimes(h)) && t[11] == text.show(h.address)
  {
    hide Print, PrintPadded, Digits, SignedColumns, HopTimes;
  }

  lemma HopTokens(h: Hop, text: AddressText, now: int)
    requires text.Valid() && HopPrintable(h, now)
    ensures AreTokens(HopColumns(h, text))
  {
    hide *;
    HopAddress(h, text);
    HopFieldsRead(h, now);
    HopColumnsAre(h, text);
    TokensAround(HopColumns(h, text), 5, 11);
  }

  lemma HopAddress(h: Hop, text: AddressText)
    requires text.Valid()
    ensures text.read(text.show(h.address)) == Some(h.address) && IsToken(text.show(h.address))
  {
    hide IsToken;
  }

  lemma TokensAround(t: seq<string>, from: nat, to: nat)
    requires from == 5 && to == 11 && |t| == 12
    requires IsToken(t[0]) && IsToken(t[1]) && IsToken(t[2]) && IsToken(t[3]) && IsToken(t[4])
    requires AreTokens(t[from..to]) && IsToken(t[11])
    ensures AreTokens(t)
  {
    hide IsToken;
    forall i | 0 <= i < 12 ensures IsToken(t[i]) {
      if 5 <= i < 11 {
        assert t[i] == t[from..to][i - 5];
      }
    }
  }

  lemma HopOfFields(t: seq<string>, h: Hop, stamp: string, text: AddressText, now: int)
    requires |t| == 14 && t[0] == "\t" + stamp && ParseTimeStamp(t[0], now) == Some(h.sendTimeStamp)
      && ParseHops(t[1]) == Some(h.hopNumber)
    requires ParseUnsigned(t[2], 10) == Some(h.responseSize) && ParseWord(t[3], 10) == Some(h.status)
    requires ParseUnsigned(t[4], 16) == Some(h.timeSource) && ParseTimes(t[5..11]) == Some(HopTimes(h))
    requires text.read(t[11]) == Some(h.address)
    ensures ParseTuple(t, text, now) == HopLine(h)
  {
    hide ParseUnsigned, ParseTimeStamp, ParseHops, ParseTimes, ParseWord;
    assert t[0][0] == '\t';
  }

  /** A printed hop line is read back, whatever the tuple held before. */
  lemma HopReadsBack(h: Hop, text: AddressText, now: int, tuple: seq<string>)
    requires text.Valid() && HopPrintable(h, now) && |tuple| == 14
    ensures Split(PrintHop(h, text), TRACEROUTE_COLUMNS) == HopColumns(h, text)
    ensures |HopColumns(h, text)| == 12 && TRACEROUTE_COLUMNS == 14
    ensures ParseTuple(Overlaid(HopColumns(h, text), tuple), text, now) == HopLine(h)
  {
    hide *;
    PrintHopIs(h, text);
    HopTokens(h, text, now);
    HopAddress(h, text);
    HopFieldsRead(h, now);
    HopColumnsAre(h, text);
    OverlaidIs(HopColumns(h, text), tuple);
    TenOrSixteen();
    HopOfFields(Overlaid(HopColumns(h, text), tuple), h, Print(h.sendTimeStamp, 16), text, now);
    SplitJoined(HopColumns(h, text), "", TRACEROUTE_COLUMNS);
  }

  lemma TenOrSixteen()
    ensures IsBase(10) && IsBase(16)
  {
  }

  lemma OverlaidIs(columns: seq<string>, tuple: seq<string>)
    requires |columns| == 12 && |tuple| == 14
    ensures var t := Overlaid(columns, tuple);
      && |t| == 14 && t[0] == columns[0] && t[1] == columns[1] && t[2] == columns[2] && t[3] == columns[3]
      && t[4] == columns[4]
      && t[5..11] == columns[5..11] && t[11] == columns[11]
  {
  }

  lemma PrintHopIs(h: Hop, text: AddressText)
    ensures PrintHop(h, text) == "" + Join(HopColumns(h, text)) && TRACEROUTE_COLUMNS == 14
  {
  }
}
