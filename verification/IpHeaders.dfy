/** IPv4, IPv6 and UDP headers: byte layout, the objects that edit them, and how they are read back. */
module IpHeaders {
  import opened Wrappers
  import opened Words
  import opened Addresses

  const IPV4_HEADER_SIZE := 20
  const IPV6_HEADER_SIZE := 40
  const UDP_HEADER_SIZE := 8

  const IPPROTO_ICMP := 1
  const IPPROTO_UDP := 17
  const IPPROTO_ICMPV6 := 58

  // ----- Layout (RFC 791 section 3.1, RFC 8200 section 3, RFC 768) -----

  function IPv4Bytes(typeOfService: byte, totalLength: uint16, identification: uint16, timeToLive: byte,
                     protocol: byte, checksum: uint16, source: seq<byte>, destination: seq<byte>): (r: seq<byte>)
    requires |source| == |destination| == 4
    ensures |r| == IPV4_HEADER_SIZE
  {
    [0x45, typeOfService] + Bytes16(totalLength) + Bytes16(identification) + [0, 0]
    + [timeToLive, protocol] + Bytes16(checksum) + source + destination
  }

  function IPv6Bytes(trafficClass: byte, payloadLength: uint16, nextHeader: byte, hopLimit: byte,
                     source: seq<byte>, destination: seq<byte>): (r: seq<byte>)
    requires |source| == |destination| == 16
    ensures |r| == IPV6_HEADER_SIZE
  {
    [0x60 + trafficClass / 0x10, trafficClass % 0x10 * 0x10, 0, 0] + Bytes16(payloadLength) + [nextHeader, hopLimit]
    + source + destination
  }

  function UDPBytes(sourcePort: uint16, destinationPort: uint16, length: uint16, checksum: uint16): (r: seq<byte>)
    ensures |r| == UDP_HEADER_SIZE
  {
    Bytes16(sourcePort) + Bytes16(destinationPort) + Bytes16(length) + Bytes16(checksum)
  }

  /** RFC 768: source, destination, zero, protocol, length. */
  function IPv4PseudoBytes(source: seq<byte>, destination: seq<byte>, protocol: byte, length: uint16): (r: seq<byte>)
    requires |source| == |destination| == 4
    ensures |r| == 12
  {
    source + destination + [0, protocol] + Bytes16(length)
  }

  /** RFC 8200 section 8.1: source, destination, 32-bit length, zeros, next header. */
  function IPv6PseudoBytes(source: seq<byte>, destination: seq<byte>, nextHeader: byte, length: uint32): (r: seq<byte>)
    requires |source| == |destination| == 16
    ensures |r| == 40
  {
    source + destination + Bytes32(length) + [0, 0, 0, nextHeader]
  }

  // ----- Objects -----

  function Overwritten(data: seq<byte>, i: nat, bytes: seq<byte>): (r: seq<byte>)
    requires i + |bytes| <= |data|
    ensures |r| == |data|
  {
    data[..i] + bytes + data[i + |bytes|..]
  }

  method CopyInto(data: array<byte>, i: nat, bytes: seq<byte>)
    requires i + |bytes| <= data.Length
    modifies data
    ensures data[..] == Overwritten(old(data[..]), i, bytes)
  {
    forall j | 0 <= j < |bytes| {
      data[i + j] := bytes[j];
    }
  }

  lemma ShiftedNibble(n: byte)
    ensures n * 0x10 % 0x100 == n % 0x10 * 0x10
  {
  }

  lemma JoinedNibbles(high: nat, low: nat)
    requires high < 0x10 && low < 0x10
    ensures (high * 0x10 + low) / 0x10 == high && (high * 0x10 + low) % 0x10 == low
  {
  }

  function FlowLabelOf(b1: byte, b2: byte, b3: byte): uint32 {
    var high: int, middle: int, low: int := b1 % 0x10, b2, b3;
    0x1_0000 * high + 0x100 * middle + low
  }

  class IPv4Header {
    const Data: array<byte>

    /** The contents are not initialised, but for the flags. */
    constructor ()
      ensures fresh(Data) && Data.Length == IPV4_HEADER_SIZE + 40 && Data[6] == 0
    {
      Data := new byte[IPV4_HEADER_SIZE + 40];
      new;
      Data[6] := 0;
    }

    method SetVersion(version: byte)
      requires Data.Length == IPV4_HEADER_SIZE + 40
      modifies Data
      ensures Data[..] == old(Data[..])[0 := version % 0x10 * 0x10 + old(Data[0]) % 0x10]
    {
      ShiftedNibble(version);
      Data[0] := version * 0x10 % 0x100 + Data[0] % 0x10;
    }

    method SetHeaderLength(headerLength: byte)
      requires Data.Length == IPV4_HEADER_SIZE + 40
      modifies Data
      ensures Data[..] == old(Data[..])[0 := old(Data[0]) / 0x10 * 0x10 + headerLength / 4 % 0x10]
    {
      Data[0] := Data[0] / 0x10 * 0x10 + headerLength / 4 % 0x10;
    }

    method SetFragmentOffset(fragmentOffset: uint16)
      requires Data.Length == IPV4_HEADER_SIZE + 40 && fragmentOffset < 0x2000
      modifies Data
      ensures Data[..] == old(Data[..])[6 := old(Data[6]) / 0x20 * 0x20
                                        + fragmentOffset / 0x100][7 := fragmentOffset % 0x100]
    {
      Data[6] := Data[6] / 0x20 * 0x20 + fragmentOffset / 0x100;
      Data[7] := fragmentOffset % 0x100;
    }

    function HeaderLength(): nat
      requires Data.Length > 0
      reads Data
    {
      Data[0] % 0x10 * 4
    }
  }

  class IPv6Header {
    const Data: array<byte>

    /** The contents are not initialised, but for one byte. */
    constructor ()
      ensures fresh(Data) && Data.Length == IPV6_HEADER_SIZE && Data[1] == 0
    {
      Data := new byte[IPV6_HEADER_SIZE];
      new;
      Data[1] := 0;
    }

    method SetVersion(version: byte)
      requires Data.Length == IPV6_HEADER_SIZE
      modifies Data
      ensures Data[..] == old(Data[..])[0 := version % 0x10 * 0x10 + old(Data[0]) % 0x10]
    {
      Data[0] := version % 0x10 * 0x10 + Data[0] % 0x10;
    }

    function Version(): byte
      requires Data.Length == IPV6_HEADER_SIZE
      reads Data
    {
      Data[0] / 0x10
    }

    function TrafficClass(): byte
      requires Data.Length == IPV6_HEADER_SIZE
      reads Data
    {
      Data[0] % 0x10 * 0x10 + Data[1] / 0x10
    }

    function FlowLabel(): uint32
      requires Data.Length == IPV6_HEADER_SIZE
      reads Data
    {
      FlowLabelOf(Data[1], Data[2], Data[3])
    }

    /** The class is read back, and the fields that share its bytes stay. */
    method SetTrafficClass(trafficClass: byte)
      requires Data.Length == IPV6_HEADER_SIZE
      modifies Data
      ensures TrafficClass() == trafficClass && Version() == old(Version()) && FlowLabel() == old(FlowLabel())
      ensures Data[..] == old(Data[..])[0 := old(Data[0]) / 0x10 * 0x10 + trafficClass / 0x10]
                                       [1 := old(Data[1]) % 0x10 + trafficClass % 0x10 * 0x10]
    {
      JoinedNibbles(Data[0] / 0x10, trafficClass / 0x10);
      JoinedNibbles(trafficClass % 0x10, Data[1] % 0x10);
      Data[0] := Data[0] / 0x10 * 0x10 + trafficClass / 0x10;
      Data[1] := Data[1] % 0x10 + trafficClass % 0x10 * 0x10;
    }

    /** The class, which shares a byte with the label, stays. */
    method SetFlowLabel(flowLabel: uint32)
      requires Data.Length == IPV6_HEADER_SIZE
      modifies Data
      ensures Version() == old(Version()) && TrafficClass() == old(TrafficClass())
      ensures Data[..] == old(Data[..])[1 := old(Data[1]) / 0x10 * 0x10 + flowLabel / 0x1_0000 % 0x10]
                                       [2 := flowLabel / 0x100 % 0x100][3 := flowLabel % 0x100]
    {
      JoinedNibbles(Data[1] / 0x10, flowLabel / 0x1_0000 % 0x10);
      Data[1] := Data[1] / 0x10 * 0x10 + flowLabel / 0x1_0000 % 0x10;
      Data[2] := flowLabel / 0x100 % 0x100;
      Data[3] := flowLabel % 0x100;
    }
  }

  class UDPHeader {
    const Data: array<byte>

    /** The contents are not initialised. */
    constructor ()
      ensures fresh(Data) && Data.Length == UDP_HEADER_SIZE
    {
      Data := new byte[UDP_HEADER_SIZE];
    }
  }

  // ----- Reading headers from a received message -----


  datatype IPv4Fields = IPv4Fields(protocol: byte, identification: uint16, source: Address, destination: Address)

  /** The header must have version 4 and 0 to 40 bytes of options, which are skipped. */
  function ReadIPv4(input: seq<byte>): (r: Option<(IPv4Fields, seq<byte>)>)
    ensures r.Some? ==> IPV4_HEADER_SIZE <= |input| && |r.value.1| <= |input| - IPV4_HEADER_SIZE
  {
    if |input| < IPV4_HEADER_SIZE || input[0] / 0x10 != 4 then None
    else
      var headerLength := input[0] % 0x10 * 4;
      if headerLength < IPV4_HEADER_SIZE || |input| < headerLength then None
      else Some((IPv4Fields(input[9], Get16(input, 4), V4(input[12..16]), V4(input[16..20])), input[headerLength..]))
  }

  datatype IPv6Fields = IPv6Fields(nextHeader: byte, source: Address, destination: Address)

  function ReadIPv6(input: seq<byte>): Option<(IPv6Fields, seq<byte>)> {
    if |input| < IPV6_HEADER_SIZE || input[0] / 0x10 != 6 then None
    else Some((IPv6Fields(input[6], V6(input[8..24], 0), V6(input[24..40], 0)), input[IPV6_HEADER_SIZE..]))
  }

  datatype UDPFields = UDPFields(sourcePort: uint16, destinationPort: uint16, length: uint16, checksum: uint16)

  /** The header must announce at least 8 bytes of data. */
  function ReadUDP(input: seq<byte>): Option<(UDPFields, seq<byte>)> {
    if |input| < UDP_HEADER_SIZE || Get16(input, 4) - 8 < 8 then None
    else Some((UDPFields(Get16(input, 0), Get16(input, 2), Get16(input, 4), Get16(input, 6)), input[UDP_HEADER_SIZE..]))
  }

  datatype ICMPFields = ICMPFields(icmpType: byte, code: byte, identifier: uint16, seqNumber: uint16)

  function ReadICMP(input: seq<byte>): Option<(ICMPFields, seq<byte>)> {
    if |input| < 8 then None
    else Some((ICMPFields(input[0], input[1], Get16(input, 4), Get16(input, 6)), input[8..]))
  }

  datatype TraceServiceFields = TraceServiceFields(magicNumber: uint32, seqNumber: uint16)

  /** Only the smallest header is read, whatever the payload's size. */
  function ReadTraceService(input: seq<byte>): Option<(TraceServiceFields, seq<byte>)> {
    if |input| < 16 then None
    else Some((TraceServiceFields(Get32(input, 0), Get16(input, 6)), input[16..]))
  }
}
