/** Traceroute results as the files and the database hold them: header lines, hop lines, table rows. */
module TracerouteData {
  import opened Words
  import opened Addresses

  /** A #T line. Flags and status are words whose bits are combined. */
  datatype Header = Header(
    protocol: byte,
    measurementID: uint32,
    source: Address,
    destination: Address,
    timeStamp: uint64,
    roundNumber: uint32,
    totalHops: uint32,
    trafficClass: byte,
    packetSize: uint32,
    checksum: uint16,
    sourcePort: uint16,
    destinationPort: uint16,
    statusFlags: bv32,
    pathHash: int)

  /** A line of one hop, after its #T line. */
  datatype Hop = Hop(
    sendTimeStamp: uint64,
    hopNumber: uint32,
    responseSize: uint32,
    status: bv32,
    timeSource: uint32,
    delayAppSend: int,
    delayQueuing: int,
    delayAppReceive: int,
    rttApplication: int,
    rttSoftware: int,
    rttHardware: int,
    address: Address)

  /** A line of a results file. Bad stands for whatever the field parsers reject. */
  datatype Line = FormatID | HeaderLine(header: Header) | HopLine(hop: Hop) | Bad

  /** One run: its #T line and the hop lines that follow. */
  datatype Run = Run(header: Header, hops: seq<Hop>)

  function HopLines(hops: seq<Hop>): (lines: seq<Line>)
    ensures |lines| == |hops|
  {
    seq(|hops|, i requires 0 <= i < |hops| => HopLine(hops[i]))
  }

  function LinesOf(runs: seq<Run>): seq<Line> {
    if runs == [] then [] else [HeaderLine(runs[0].header)] + (HopLines(runs[0].hops) + LinesOf(runs[1..]))
  }

  /** A row of the database table: one hop, with the fields of its run. */
  datatype Row = Row(header: Header, hop: Hop, status: bv32)

  /** Hop status and the run's flags share a column: flags above, hop status in the lowest byte. */
  function Combined(status: bv32, flags: bv32): bv32 { status | flags }

  function StatusPart(combined: bv32): bv32 { combined & 0xff }

  function FlagsPart(combined: bv32): bv32 { combined - (combined & 0xff) }

  function RowOf(header: Header, hop: Hop): Row {
    Row(header.(statusFlags := 0), hop.(status := 0), Combined(hop.status, header.statusFlags))
  }

  /** Status and flags come apart again exactly if the status fits the lowest byte and the flags leave it free. */
  lemma StatusUnpacks(status: bv32, flags: bv32)
    ensures StatusPart(Combined(status, flags)) == status && FlagsPart(Combined(status, flags)) == flags
       <==> status <= 0xff && StatusPart(flags) == 0
  {
    hide *;
    var x := Combined(status, flags);
    if StatusPart(x) == status && FlagsPart(x) == flags {
      PartsAreSeparate(x);
    }
    if status <= 0xff && StatusPart(flags) == 0 {
      LowByteOfUnion(status, flags);
      DifferenceOfUnion(status, flags);
    }
  }

  lemma PartsAreSeparate(x: bv32)
    ensures StatusPart(x) <= 0xff && StatusPart(FlagsPart(x)) == 0
  {
  }

  lemma LowByteOfUnion(x: bv32, y: bv32)
    requires x <= 0xff && StatusPart(y) == 0
    ensures StatusPart(Combined(x, y)) == x
  {
  }

  lemma DifferenceOfUnion(x: bv32, y: bv32)
    requires x <= 0xff && StatusPart(y) == 0
    ensures FlagsPart(Combined(x, y)) == y
  {
    hide *;
    HighBytesOfUnion(x, y);
    FlagsAreHighBytes(Combined(x, y));
  }

  function HighBytes(x: bv32): bv32 { x & 0xffff_ff00 }

  lemma HighBytesOfUnion(x: bv32, y: bv32)
    requires x <= 0xff && StatusPart(y) == 0
    ensures HighBytes(Combined(x, y)) == y
  {
  }

  lemma FlagsAreHighBytes(x: bv32)
    ensures FlagsPart(x) == HighBytes(x)
  {
  }
}
