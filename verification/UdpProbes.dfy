/**
 The packets of one UDP send call, with their three checksums. `SendPackets` is the specification of
 UdpModule.UDPModule.SendRequest.
 */
module UdpProbes {
  import opened Words
  import opened Addresses
  import opened Internet16
  import opened OnesComplement
  import opened ChecksumTweak
  import opened Headers
  import opened ResultEntries
  import opened TimeStamps
  import opened LifeCycle
  import opened Probes
  import opened Filing
  import opened IpHeaders

  /** What stays the same for all probes of a call. Payload and packet sizes fit their 16-bit fields. */
  datatype UDPConfig = UDPConfig(
    magicNumber: uint32,
    payloadSize: nat,
    sourcePort: uint16,
    destinationPort: uint16,
    localAddress: Address,
    destination: DestinationInfo)
  {
    predicate Valid() {
      && localAddress.V6? == destination.address.V6?
      && MIN_TRACESERVICE_HEADER_SIZE <= payloadSize && PacketSize() <= 0xffff
    }

    function PacketSize(): nat { (if localAddress.V6? then IPV6_HEADER_SIZE else IPV4_HEADER_SIZE) + UDPLength() }

    function UDPLength(): nat { UDP_HEADER_SIZE + payloadSize }
  }

  /** What differs from probe to probe. */
  datatype Turning = Turning(seqNumber: uint16, ttl: byte, round: byte, timeStamp: uint64)

  function PseudoHeader(c: UDPConfig): (r: seq<byte>)
    requires c.Valid()
    ensures |r| % 2 == 0 && |r| <= 40
  {
    if c.localAddress.V6?
        then IPv6PseudoBytes(c.localAddress.octets, c.destination.address.octets, IPPROTO_UDP, c.UDPLength())
    else IPv4PseudoBytes(c.localAddress.octets, c.destination.address.octets, IPPROTO_UDP, c.UDPLength())
  }

  /** For UDP, the payload header has the sequence number where ICMP has the tweak. */
  function UDPPayload(c: UDPConfig, t: Turning): (r: seq<byte>)
    requires c.Valid()
    ensures |r| == c.payloadSize
  {
    Payload(c.payloadSize, c.magicNumber, t.ttl, t.round, t.seqNumber, t.timeStamp)
  }

  function Datagram(c: UDPConfig, t: Turning, checksum: uint16): (r: seq<byte>)
    requires c.Valid()
    ensures |r| == c.UDPLength()
  {
    UDPBytes(c.sourcePort, c.destinationPort, c.UDPLength(), checksum) + UDPPayload(c, t)
  }

  /** The checksum of RFC 768, before its rule for zero: over pseudo-header, UDP header and payload. */
  function UDPChecksum(c: UDPConfig, t: Turning): uint16
    requires c.Valid()
  {
    Checksum(PseudoHeader(c) + Datagram(c, t, 0))
  }

  function IPv4HeaderOf(c: UDPConfig, t: Turning, checksum: uint16): (r: seq<byte>)
    requires c.Valid() && c.localAddress.V4?
    ensures |r| == IPV4_HEADER_SIZE
  {
    IPv4Bytes(c.destination.trafficClass, c.PacketSize(), t.seqNumber, t.ttl, IPPROTO_UDP, checksum,
              c.localAddress.octets, c.destination.address.octets)
  }

  function IPHeader(c: UDPConfig, t: Turning): seq<byte>
    requires c.Valid()
  {
    if c.localAddress.V6? then
      IPv6Bytes(c.destination.trafficClass, c.UDPLength(), IPPROTO_UDP, t.ttl, c.localAddress.octets,
                c.destination.address.octets)
    else IPv4HeaderOf(c, t, Checksum(IPv4HeaderOf(c, t, 0)))
  }

  /** The packet as sent. */
  function Packet(c: UDPConfig, t: Turning): seq<byte>
    requires c.Valid()
  {
    IPHeader(c, t) + Datagram(c, t, UDPChecksum(c, t))
  }

  // ----- What a receiver checks -----

  /** Ports and checksum of a header that is otherwise the same. */
  lemma UDPHeaderFields(sourcePort: uint16, destinationPort: uint16, length: uint16, checksum: uint16)
    ensures var u0 := UDPBytes(0, destinationPort, length, 0); u0[0] == 0 && u0[1] == 0
    ensures var u := UDPBytes(sourcePort, destinationPort, length, 0); u[6] == 0 && u[7] == 0
    ensures Put16(UDPBytes(sourcePort, destinationPort, length, 0), 6, checksum)
        == UDPBytes(sourcePort, destinationPort, length, checksum)
    ensures Put16(UDPBytes(0, destinationPort, length, 0), 0, sourcePort)
        == UDPBytes(sourcePort, destinationPort, length, 0)
  {
    assert HighByte(0) == 0 && LowByte(0) == 0;
    hide HighByte, LowByte;
  }

  /** The UDP datagram of every probe sums to all ones with its pseudo-header. */
  lemma DatagramVerifies(c: UDPConfig, t: Turning)
    requires c.Valid()
    ensures OnesSum(PseudoHeader(c) + Datagram(c, t, UDPChecksum(c, t))) == 0xffff
  {
    ChecksumIsOfZeroed(c, t);
    DatagramIs(c, t, 0);
    DatagramIs(c, t, UDPChecksum(c, t));
    hide *;
    EvenOffset(|PseudoHeader(c)|);
    var u := UDPBytes(c.sourcePort, c.destinationPort, c.UDPLength(), 0);
    UDPHeaderFields(c.sourcePort, c.destinationPort, c.UDPLength(), UDPChecksum(c, t));
    PutMiddle(PseudoHeader(c), u, UDPPayload(c, t), 6, UDPChecksum(c, t));
    ChecksummedVerifies(PseudoHeader(c) + Datagram(c, t, 0), |PseudoHeader(c)| + 6);
  }

  lemma DatagramIs(c: UDPConfig, t: Turning, checksum: uint16)
    requires c.Valid()
    ensures 0 <= c.UDPLength() <= 0xffff && |UDPBytes(c.sourcePort, c.destinationPort, c.UDPLength(), checksum)| == 8
    ensures Datagram(c, t, checksum) == UDPBytes(c.sourcePort, c.destinationPort, c.UDPLength(), checksum)
        + UDPPayload(c, t)
    ensures |PseudoHeader(c)| % 2 == 0
  {
    hide PseudoHeader, UDPPayload;
  }

  lemma EvenOffset(n: nat)
    requires n % 2 == 0
    ensures (n + 6) % 2 == 0
  {
  }

  lemma ChecksumIsOfZeroed(c: UDPConfig, t: Turning)
    requires c.Valid()
    ensures UDPChecksum(c, t) == Checksum(PseudoHeader(c) + Datagram(c, t, 0))
  {
  }

  /** The IPv4 header of every probe sums to all ones. */
  lemma IPv4HeaderVerifies(c: UDPConfig, t: Turning)
    requires c.Valid() && c.localAddress.V4?
    ensures |IPHeader(c, t)| == IPV4_HEADER_SIZE && OnesSum(IPHeader(c, t)) == 0xffff
  {
    ZeroAtHeaderChecksum(c, t, Checksum(IPv4HeaderOf(c, t, 0)));
    ChecksummedVerifies(IPv4HeaderOf(c, t, 0), 10);
  }

  lemma ZeroAtHeaderChecksum(c: UDPConfig, t: Turning, checksum: uint16)
    requires c.Valid() && c.localAddress.V4?
    ensures IPv4HeaderOf(c, t, 0)[10] == 0 && IPv4HeaderOf(c, t, 0)[11] == 0
    ensures Put16(IPv4HeaderOf(c, t, 0), 10, checksum) == IPv4HeaderOf(c, t, checksum)
  {
    assert HighByte(0) == 0 && LowByte(0) == 0;
    hide HighByte, LowByte;
  }

  /** What RFC 768 transmits: an all-zero checksum means that there is none. */
  function TransmittedChecksum(checksum: uint16): uint16 { if checksum == 0 then 0xffff else checksum }

  /** The source ports with which a probe's checksum is zero, from the checksum that it has with port 0. */
  predicate ZeroingPort(port: uint16, checksumWithoutPort: uint16) {
    port == checksumWithoutPort || (checksumWithoutPort == 0 && port == 0xffff)
  }

  /** The port adds to a sum that is never zero, since the protocol's number is part of it. */
  lemma PortAdds(c: UDPConfig, t: Turning)
    requires c.Valid()
    ensures var c0 := c.(sourcePort := 0);
      && c0.Valid() && NetworkSum(PseudoHeader(c0) + Datagram(c0, t, 0)) > 0
      && NetworkSum(PseudoHeader(c) + Datagram(c, t, 0)) == NetworkSum(PseudoHeader(c0) + Datagram(c0, t, 0))
          + c.sourcePort
  {
    var c0 := c.(sourcePort := 0);
    SamePayload(c, c.sourcePort, t);
    DatagramIs(c0, t, 0);
    DatagramIs(c, t, 0);
    ProtocolInPseudo(c0);
    hide Datagram, PseudoHeader, UDPPayload, UDPBytes, NetworkSum, Put16;
    var pseudo, u0 := PseudoHeader(c0), UDPBytes(0, c.destinationPort, c.UDPLength(), 0);
    UDPHeaderFields(c.sourcePort, c.destinationPort, c.UDPLength(), 0);
    PutMiddle(pseudo, u0, UDPPayload(c0, t), 0, c.sourcePort);
    var d0 := pseudo + Datagram(c0, t, 0);
    SumAfterPut(d0, |pseudo|, c.sourcePort);
    var i :| 0 <= i < |pseudo| && pseudo[i] != 0;
    assert d0[i] == pseudo[i];
    NonzeroSum(d0, i);
  }

  lemma ProtocolInPseudo(c: UDPConfig)
    requires c.Valid()
    ensures exists i :: 0 <= i < |PseudoHeader(c)| && PseudoHeader(c)[i] != 0
  {
    hide Bytes16, Bytes32;
    assert PseudoHeader(c)[if c.localAddress.V6? then 39 else 9] == IPPROTO_UDP;
  }

  /**
   A probe's checksum is zero exactly for one source port, or two: the checksum that it has with port 0, and
   0xffff if that is zero.
   */
  lemma ChecksumIsZero(c: UDPConfig, t: Turning)
    requires c.Valid()
    ensures UDPChecksum(c, t) == 0 <==> ZeroingPort(c.sourcePort, UDPChecksum(c.(sourcePort := 0), t))
  {
    var c0 := c.(sourcePort := 0);
    PortAdds(c, t);
    var sum0 := NetworkSum(PseudoHeader(c0) + Datagram(c0, t, 0));
    ChecksumIs(PseudoHeader(c0) + Datagram(c0, t, 0));
    ChecksumIs(PseudoHeader(c) + Datagram(c, t, 0));
    hide Datagram, PseudoHeader, Checksum, NetworkSum, Canon;
    CanonCongruent(sum0);
    CanonAdd(sum0, c.sourcePort);
  }

  /** The probe has the checksum that RFC 768 transmits exactly with any other source port. */
  lemma ChecksumAsTransmitted(c: UDPConfig, t: Turning)
    requires c.Valid()
    ensures UDPChecksum(c, t) == TransmittedChecksum(UDPChecksum(c, t))
       <==> !ZeroingPort(c.sourcePort, UDPChecksum(c.(sourcePort := 0), t))
  {
    ChecksumIsZero(c, t);
  }

  /** The exception does occur: for every probe there is a real source port with checksum zero. */
  lemma ZeroChecksumOccurs(c: UDPConfig, t: Turning)
    requires c.Valid()
    ensures exists port: uint16 :: port != 0 && UDPChecksum(c.(sourcePort := port), t) == 0
  {
    var z: int := UDPChecksum(c.(sourcePort := 0), t);
    var port: uint16 := if z == 0 then 0xffff else z;
    ChecksumIsZero(c.(sourcePort := port), t);
    assert c.(sourcePort := port).(sourcePort := 0) == c.(sourcePort := 0);
    assert UDPChecksum(c.(sourcePort := port), t) == 0;
  }

  lemma SamePayload(c: UDPConfig, port: uint16, t: Turning)
    requires c.Valid()
    ensures var c0 := c.(sourcePort := 0); var cp := c.(sourcePort := port);
      c0.Valid() && cp.Valid() && PseudoHeader(c0) == PseudoHeader(cp) && UDPPayload(c0, t) == UDPPayload(cp, t)
        && c0.UDPLength() == c.UDPLength()
  {
    hide Payload, IPv4PseudoBytes, IPv6PseudoBytes;
    var c0, cp := c.(sourcePort := 0), c.(sourcePort := port);
    assert c0.UDPLength() == cp.UDPLength() == c.UDPLength();
    assert c0.localAddress == cp.localAddress && c0.destination == cp.destination;
  }

  /** The order in which header, pseudo-header and payload are added does not matter. */
  lemma PseudoFirst(udp: seq<byte>, pseudo: seq<byte>, payload: seq<byte>)
    requires |udp| % 2 == 0 && |pseudo| % 2 == 0
    ensures Checksum(udp + pseudo + payload) == Checksum(pseudo + (udp + payload))
  {
    hide Checksum, NetworkSum;
    NetworkSumAppend(udp, pseudo + payload);
    NetworkSumAppend(pseudo, payload);
    NetworkSumAppend(udp, payload);
    NetworkSumAppend(pseudo, udp + payload);
    assert udp + pseudo + payload == udp + (pseudo + payload);
    ChecksumIs(udp + pseudo + payload);
    ChecksumIs(pseudo + (udp + payload));
  }

  // ----- What a packet says -----

  ghost predicate SaysIPv4(h: seq<byte>, c: UDPConfig, ttl: byte, seqNumber: uint16)
    requires c.Valid()
  {
    && |h| == 20 && h[0] == 0x45 && h[1] == c.destination.trafficClass && Get16(h, 2) == 28 + c.payloadSize
    && Get16(h, 4) == seqNumber && h[6] == 0 && h[7] == 0 && h[8] == ttl && h[9] == 17
    && h[12..16] == c.localAddress.octets && h[16..20] == c.destination.address.octets
  }

  ghost predicate SaysIPv6(h: seq<byte>, c: UDPConfig, ttl: byte)
    requires c.Valid()
  {
    && |h| == 40 && h[0] == 0x60 + c.destination.trafficClass / 0x10 && h[1] == c.destination.trafficClass % 0x10 * 0x10
    && h[2] == 0 && h[3] == 0 && Get16(h, 4) == 8 + c.payloadSize && h[6] == 17 && h[7] == ttl
    && h[8..24] == c.localAddress.octets && h[24..40] == c.destination.address.octets
  }

  ghost predicate SaysDatagram(d: seq<byte>, c: UDPConfig, ttl: byte, round: byte, seqNumber: uint16,
                               timeStamp: uint64) {
    && |d| == 8 + c.payloadSize >= 24
    && Get16(d, 0) == c.sourcePort && Get16(d, 2) == c.destinationPort && Get16(d, 4) == 8 + c.payloadSize
    && HasPayload(d, 8, c.magicNumber, ttl, round, timeStamp) && Get16(d, 14) == seqNumber
  }

  /** TTL in IP header and payload, round, sequence number and time of a packet, and all that the call fixes. */
  ghost predicate SaysPacket(p: seq<byte>, c: UDPConfig, ttl: byte, round: byte, seqNumber: uint16, timeStamp: uint64)
    requires c.Valid()
  {
    var size := if c.localAddress.V6? then 40 else 20;
    && |p| >= size
    && (if c.localAddress.V6? then SaysIPv6(p[..size], c, ttl) else SaysIPv4(p[..size], c, ttl, seqNumber))
    && SaysDatagram(p[size..], c, ttl, round, seqNumber, timeStamp)
  }

  lemma IPv4Says(c: UDPConfig, t: Turning, checksum: uint16)
    requires c.Valid() && c.localAddress.V4?
    ensures SaysIPv4(IPv4HeaderOf(c, t, checksum), c, t.ttl, t.seqNumber)
  {
    WordOfBytes(c.PacketSize());
    WordOfBytes(t.seqNumber);
    hide HighByte, LowByte, Word;
  }

  lemma IPv6Says(c: UDPConfig, t: Turning)
    requires c.Valid() && c.localAddress.V6?
    ensures SaysIPv6(IPHeader(c, t), c, t.ttl)
  {
    WordOfBytes(c.UDPLength());
    hide HighByte, LowByte, Word;
  }

  lemma DatagramSays(c: UDPConfig, t: Turning, checksum: uint16)
    requires c.Valid()
    ensures SaysDatagram(Datagram(c, t, checksum), c, t.ttl, t.round, t.seqNumber, t.timeStamp)
  {
    var u := UDPBytes(c.sourcePort, c.destinationPort, c.UDPLength(), checksum);
    WordOfBytes(c.sourcePort);
    WordOfBytes(c.destinationPort);
    WordOfBytes(c.UDPLength());
    PayloadFields(c.payloadSize, c.magicNumber, t.ttl, t.round, t.seqNumber, t.timeStamp);
    PayloadAt(u, c.payloadSize, c.magicNumber, t.ttl, t.round, t.seqNumber, t.timeStamp);
    hide Payload, Word, HighByte, LowByte, HasPayload;
    var d := Datagram(c, t, checksum);
    assert forall i :: 8 <= i < |d| ==> d[i] == UDPPayload(c, t)[i - 8];
  }

  lemma PacketSays(c: UDPConfig, t: Turning)
    requires c.Valid()
    ensures SaysPacket(Packet(c, t), c, t.ttl, t.round, t.seqNumber, t.timeStamp)
  {
    DatagramSays(c, t, UDPChecksum(c, t));
    HeaderSays(c, t);
    HeaderSize(c, t);
    hide IPHeader, Datagram, UDPChecksum, SaysIPv4, SaysIPv6, SaysDatagram;
    var size := |IPHeader(c, t)|;
    assert Packet(c, t)[..size] == IPHeader(c, t) && Packet(c, t)[size..] == Datagram(c, t, UDPChecksum(c, t));
  }

  lemma HeaderSays(c: UDPConfig, t: Turning)
    requires c.Valid()
    ensures if c.localAddress.V6?
        then SaysIPv6(IPHeader(c, t), c, t.ttl) else SaysIPv4(IPHeader(c, t), c, t.ttl, t.seqNumber)
  {
    hide SaysIPv4, SaysIPv6, IPv4HeaderOf, IPv6Bytes;
    if c.localAddress.V6? {
      IPv6Says(c, t);
    } else {
      IPv4Says(c, t, Checksum(IPv4HeaderOf(c, t, 0)));
    }
  }

  lemma LengthField(d: seq<byte>, n: uint16)
    requires |d| >= 8 && Get16(d, 4) == n
    ensures d[4..6] == Bytes16(n)
  {
    BytesOfWord(d[4], d[5]);
    hide HighByte, LowByte, Word;
  }

  lemma AgreesV4(h: seq<byte>, d: seq<byte>, c: UDPConfig, ttl: byte, seqNumber: uint16)
    requires c.Valid() && c.localAddress.V4? && SaysIPv4(h, c, ttl, seqNumber) && |d| >= 24
    requires d[4..6] == Bytes16(c.UDPLength())
    ensures (h + d)[0] / 0x10 == 4 && ReceivedPseudoHeader(h + d) == PseudoHeader(c)
  {
    hide Bytes16, Get16;
    assert (h + d)[12..20] == h[12..16] + h[16..20] && (h + d)[24..26] == d[4..6];
  }

  lemma AgreesV6(h: seq<byte>, d: seq<byte>, c: UDPConfig, ttl: byte)
    requires c.Valid() && c.localAddress.V6? && SaysIPv6(h, c, ttl) && |d| >= 24
    requires d[4..6] == Bytes16(c.UDPLength())
    ensures (h + d)[0] / 0x10 == 6 && ReceivedPseudoHeader(h + d) == PseudoHeader(c)
  {
    SmallLength(c.UDPLength());
    hide Bytes16, Bytes32, Get16;
    assert (h + d)[8..40] == h[8..24] + h[24..40] && (h + d)[44..46] == d[4..6];
  }

  lemma BytesOfWord(high: byte, low: byte)
    ensures HighByte(Word(high, low)) == high && LowByte(Word(high, low)) == low
  {
  }

  lemma SmallLength(n: uint16)
    ensures Bytes32(n) == [0, 0] + Bytes16(n)
  {
  }

  // ----- A whole call -----

  /** The state that one call carries from packet to packet. */
  datatype UDPSender = UDPSender(
    seqNumber: uint16,
    timeStampSeqID: uint32,
    messagesSent: nat,
    packets: seq<seq<byte>>,
    entries: seq<Entry>)

  function TurningOf(seqNumber: uint16, turn: Turn, time: int): Turning {
    Turning(seqNumber, turn.1 % 0x100, turn.0 % 0x100, Wrap64(time - EPOCH))
  }

  /** UDP entries record the ports, and no checksum. */
  function NewUDPEntry(c: UDPConfig, id: uint32, seqNumber: uint16, turn: Turn, time: int): Entry
    requires c.Valid()
  {
    Initial(Request(id, Wrap16(turn.0), seqNumber, Wrap32(turn.1), c.PacketSize(), 0, c.sourcePort, c.destinationPort,
                    c.destination),
            time, c.localAddress, Unknown)
  }

  function SendPacket(c: UDPConfig, s: UDPSender, turn: Turn, time: int, outcome: SendOutcome): UDPSender
    requires c.Valid()
  {
    var seqNumber := Increment(s.seqNumber);
    UDPSender(seqNumber,
              if outcome.Success() then Wrap32(s.timeStampSeqID + 1) else s.timeStampSeqID,
              if outcome.Success() then s.messagesSent + 1 else s.messagesSent,
              s.packets + [Packet(c, TurningOf(seqNumber, turn, time))],
              s.entries + [Checked(NewUDPEntry(c, s.timeStampSeqID, seqNumber, turn, time), outcome)])
  }

  function SendPackets(c: UDPConfig, s: UDPSender, plan: seq<Turn>, clock: seq<int>,
                       outcomes: seq<SendOutcome>): UDPSender
    requires c.Valid() && |clock| == |outcomes| == |plan|
    decreases |plan|
  {
    if plan == [] then s
    else SendPackets(c, SendPacket(c, s, plan[0], clock[0], outcomes[0]), plan[1..], clock[1..], outcomes[1..])
  }

  /** From sender state s, the rest of the call (turn number `current` and after) leads to `end`. */
  ghost predicate Leads(c: UDPConfig, s: UDPSender, rest: seq<Turn>, clock: seq<int>, outcomes: seq<SendOutcome>,
                        current: nat, end: UDPSender) {
    && c.Valid() && |clock| == |outcomes| == current + |rest|
    && SendPackets(c, s, rest, clock[current..], outcomes[current..]) == end
  }

  lemma LeadsFromStart(c: UDPConfig, s: UDPSender, plan: seq<Turn>, clock: seq<int>, outcomes: seq<SendOutcome>)
    requires c.Valid() && |clock| == |outcomes| == |plan|
    ensures Leads(c, s, plan, clock, outcomes, 0, SendPackets(c, s, plan, clock, outcomes))
  {
    assert clock[0..] == clock && outcomes[0..] == outcomes;
  }

  lemma LeadsStep(c: UDPConfig, s: UDPSender, rest: seq<Turn>, clock: seq<int>, outcomes: seq<SendOutcome>,
                  current: nat, end: UDPSender)
    requires rest != [] && Leads(c, s, rest, clock, outcomes, current, end)
    ensures c.Valid() && |clock| == |outcomes| == current + |rest|
    ensures Leads(c, SendPacket(c, s, rest[0], clock[current], outcomes[current]), rest[1..], clock, outcomes,
                  current + 1, end)
  {
    hide SendPacket;
    assert clock[current..][1..] == clock[current + 1..] && outcomes[current..][1..] == outcomes[current + 1..];
  }

  lemma LeadsToEnd(c: UDPConfig, s: UDPSender, clock: seq<int>, outcomes: seq<SendOutcome>, current: nat,
                   end: UDPSender)
    requires Leads(c, s, [], clock, outcomes, current, end)
    ensures s == end
  {
  }

  /** The packet of a turn, and its entry: they share the sequence number. */
  ghost predicate Recorded(packet: seq<byte>, e: Entry, c: UDPConfig, turn: Turn, seqNumber: uint16, time: int,
                           outcome: SendOutcome)
    requires c.Valid()
  {
    && packet == Packet(c, TurningOf(seqNumber, turn, time))
    && e.request.roundNumber == Wrap16(turn.0) && e.request.hopNumber == Wrap32(turn.1)
    && e.request.seqNumber == seqNumber && e.sent.application == TimeStamp(SysClock, time)
    && e.request.sourcePort == c.sourcePort && e.request.destinationPort == c.destinationPort
    && e.request.packetSize == |packet| && e.request.checksum == 0
    && e.request.destination == WithoutScope(c.destination) && e.source == c.localAddress.DropScopeID()
    && IsNew(e, c.destination, time, outcome)
  }

  lemma PacketIsRecorded(c: UDPConfig, id: uint32, turn: Turn, seqNumber: uint16, time: int, outcome: SendOutcome)
    requires c.Valid()
    ensures Recorded(Packet(c, TurningOf(seqNumber, turn, time)),
                     Checked(NewUDPEntry(c, id, seqNumber, turn, time), outcome),
                     c, turn, seqNumber, time, outcome)
  {
    PacketLength(c, TurningOf(seqNumber, turn, time));
    hide Packet, TurningOf;
  }

  lemma PacketLength(c: UDPConfig, t: Turning)
    requires c.Valid()
    ensures |Packet(c, t)| == c.PacketSize()
  {
    hide Checksum, IPv4Bytes, IPv6Bytes, UDPBytes, UDPPayload;
  }

  /** One packet and one entry per turn, in order, under consecutive sequence numbers. */
  lemma {:induction false} OnePacketPerTurn(c: UDPConfig, s: UDPSender, plan: seq<Turn>, clock: seq<int>,
                                            outcomes: seq<SendOutcome>)
    requires c.Valid() && |clock| == |outcomes| == |plan|
    requires |s.packets| == |s.entries|
    ensures var r := SendPackets(c, s, plan, clock, outcomes); var n := |s.packets|;
      && |r.packets| == |r.entries| == n + |plan| && s.packets <= r.packets && s.entries <= r.entries
      && (forall k :: 0 <= k < |plan| ==>
            Recorded(r.packets[n + k], r.entries[n + k], c, plan[k], KeyOf(s.seqNumber, k + 1), clock[k], outcomes[k]))
      && r.seqNumber == KeyOf(s.seqNumber, |plan|)
      && r.messagesSent == s.messagesSent + Successes(outcomes)
    decreases |plan|
  {
    hide Recorded, Packet, TurningOf, NewUDPEntry, Checked;
    if plan == [] {
      assert KeyOf(s.seqNumber, 0) == s.seqNumber;
    } else {
      var s' := SendPacket(c, s, plan[0], clock[0], outcomes[0]);
      PacketIsRecorded(c, s.timeStampSeqID, plan[0], Increment(s.seqNumber), clock[0], outcomes[0]);
      OnePacketPerTurn(c, s', plan[1..], clock[1..], outcomes[1..]);
      NextKey(s.seqNumber, |plan| - 1);
      var r, n := SendPackets(c, s', plan[1..], clock[1..], outcomes[1..]), |s.packets|;
      forall k | 0 <= k < |plan|
        ensures Recorded(r.packets[n + k], r.entries[n + k], c, plan[k], KeyOf(s.seqNumber, k + 1), clock[k],
                         outcomes[k])
      {
        if k == 0 {
          assert KeyOf(s.seqNumber, 0) == s.seqNumber;
          assert r.packets[n] == s'.packets[n] && r.entries[n] == s'.entries[n];
        } else {
          NextKey(s.seqNumber, k);
          assert Recorded(r.packets[|s'.packets| + (k - 1)], r.entries[|s'.packets| + (k - 1)], c, plan[1..][k - 1],
                          KeyOf(s'.seqNumber, k), clock[1..][k - 1], outcomes[1..][k - 1]);
        }
      }
    }
  }

  /** In every call: what the bytes of packet k say, in terms of its turn. */
  lemma CallPacketSays(c: UDPConfig, s: UDPSender, plan: seq<Turn>, clock: seq<int>, outcomes: seq<SendOutcome>, k: nat)
    requires c.Valid() && |clock| == |outcomes| == |plan| && s.packets == [] && s.entries == [] && k < |plan|
    ensures var packets := SendPackets(c, s, plan, clock, outcomes).packets;
      && |packets| == |plan|
      && SaysPacket(packets[k], c, plan[k].1 % 0x100, plan[k].0 % 0x100, KeyOf(s.seqNumber, k + 1),
                    Wrap64(clock[k] - 212_803_200_000_000_000))
  {
    hide SendPackets, Packet, KeyOf, Wrap64, SaysPacket;
    OnePacketPerTurn(c, s, plan, clock, outcomes);
    var r := SendPackets(c, s, plan, clock, outcomes);
    assert Recorded(r.packets[|s.packets| + k], r.entries[|s.packets| + k], c, plan[k], KeyOf(s.seqNumber, k + 1),
                    clock[k], outcomes[k]);
    PacketSays(c, TurningOf(KeyOf(s.seqNumber, k + 1), plan[k], clock[k]));
  }

  /** The pseudo-header that a receiver builds from a packet: addresses, protocol and the UDP header's length. */
  function ReceivedPseudoHeader(packet: seq<byte>): seq<byte>
    requires |packet| >= 44 && (packet[0] / 0x10 == 6 ==> |packet| >= 64)
  {
    if packet[0] / 0x10 == 6 then packet[8..40] + [0, 0] + packet[44..46] + [0, 0, 0, packet[6]]
    else packet[12..20] + [0, packet[9]] + packet[24..26]
  }

  /** What a receiver checks of a packet: the sum of the IPv4 header, and that of the datagram. */
  ghost predicate PacketVerifies(packet: seq<byte>) {
    && |packet| >= 44 && packet[0] / 0x10 in {4, 6} && (packet[0] / 0x10 == 6 ==> |packet| >= 64)
    && OnesSum(ReceivedPseudoHeader(packet) + packet[if packet[0] / 0x10 == 6 then 40 else 20..]) == 0xffff
    && (packet[0] / 0x10 == 4 ==> OnesSum(packet[..20]) == 0xffff)
  }

  lemma OnePacketVerifies(c: UDPConfig, t: Turning)
    requires c.Valid()
    ensures PacketVerifies(Packet(c, t))
  {
    DatagramVerifies(c, t);
    HeaderSays(c, t);
    DatagramSays(c, t, UDPChecksum(c, t));
    DatagramLength(Datagram(c, t, UDPChecksum(c, t)), c, t);
    if c.localAddress.V4? {
      IPv4HeaderVerifies(c, t);
      hide *;
      AgreesV4(IPHeader(c, t), Datagram(c, t, UDPChecksum(c, t)), c, t.ttl, t.seqNumber);
    } else {
      hide *;
      AgreesV6(IPHeader(c, t), Datagram(c, t, UDPChecksum(c, t)), c, t.ttl);
    }
    PacketParts(c, t);
    VerifiesParts(IPHeader(c, t), Datagram(c, t, UDPChecksum(c, t)), PseudoHeader(c));
  }

  lemma DatagramLength(d: seq<byte>, c: UDPConfig, t: Turning)
    requires c.Valid() && SaysDatagram(d, c, t.ttl, t.round, t.seqNumber, t.timeStamp)
    ensures |d| >= 24 && d[4..6] == Bytes16(c.UDPLength())
  {
    hide HasPayload, Bytes16;
    LengthField(d, c.UDPLength());
  }

  lemma PacketParts(c: UDPConfig, t: Turning)
    requires c.Valid()
    ensures Packet(c, t) == IPHeader(c, t) + Datagram(c, t, UDPChecksum(c, t))
    ensures |IPHeader(c, t)| == if c.localAddress.V6? then 40 else 20
  {
    HeaderSize(c, t);
    hide IPHeader, Datagram, UDPChecksum;
  }

  lemma VerifiesParts(h: seq<byte>, d: seq<byte>, pseudo: seq<byte>)
    requires |d| >= 24 && |h| > 0 && h[0] / 0x10 in {4, 6} && |h| == (if h[0] / 0x10 == 6 then 40 else 20)
    requires ReceivedPseudoHeader(h + d) == pseudo && OnesSum(pseudo + d) == 0xffff
    requires h[0] / 0x10 == 4 ==> OnesSum(h) == 0xffff
    ensures PacketVerifies(h + d)
  {
    hide OnesSum, ReceivedPseudoHeader;
    assert (h + d)[|h|..] == d && (h + d)[..|h|] == h;
  }

  lemma HeaderSize(c: UDPConfig, t: Turning)
    requires c.Valid()
    ensures |IPHeader(c, t)| == if c.localAddress.V6? then IPV6_HEADER_SIZE else IPV4_HEADER_SIZE
  {
    hide IPv6Bytes, IPv4Bytes, Checksum;
  }

  /** Every packet of every call verifies, whatever rounds, hops, times and earlier packets. */
  lemma CallVerifies(c: UDPConfig, s: UDPSender, plan: seq<Turn>, clock: seq<int>, outcomes: seq<SendOutcome>)
    requires c.Valid() && |clock| == |outcomes| == |plan| && s.packets == [] && s.entries == []
    ensures var packets := SendPackets(c, s, plan, clock, outcomes).packets;
      |packets| == |plan| && forall k :: 0 <= k < |packets| ==> PacketVerifies(packets[k])
  {
    hide SendPackets, PacketVerifies, Packet, TurningOf, KeyOf;
    OnePacketPerTurn(c, s, plan, clock, outcomes);
    var r := SendPackets(c, s, plan, clock, outcomes);
    forall k | 0 <= k < |plan| ensures PacketVerifies(r.packets[k]) {
      assert Recorded(r.packets[|s.packets| + k], r.entries[|s.packets| + k], c, plan[k], KeyOf(s.seqNumber, k + 1),
                      clock[k], outcomes[k]);
      OnePacketVerifies(c, TurningOf(KeyOf(s.seqNumber, k + 1), plan[k], clock[k]));
    }
  }

  lemma {:induction false} PacketEntriesAreStamped(c: UDPConfig, s: UDPSender, plan: seq<Turn>, clock: seq<int>,
                                                   outcomes: seq<SendOutcome>)
    requires c.Valid() && |clock| == |outcomes| == |plan| && StampedEntries(s.entries)
    requires forall i :: 0 <= i < |clock| ==> clock[i] > 0
    ensures StampedEntries(SendPackets(c, s, plan, clock, outcomes).entries)
    decreases |plan|
  {
    hide Packet, TurningOf, NewUDPEntry, Checked, Stamped;
    if plan == [] {
    } else {
      NewUDPEntryIsStamped(c, s.timeStampSeqID, Increment(s.seqNumber), plan[0], clock[0], outcomes[0]);
      PacketEntriesAreStamped(c, SendPacket(c, s, plan[0], clock[0], outcomes[0]), plan[1..], clock[1..],
                              outcomes[1..]);
    }
  }

  lemma NewUDPEntryIsStamped(c: UDPConfig, id: uint32, seqNumber: uint16, turn: Turn, time: int, outcome: SendOutcome)
    requires c.Valid() && time > 0
    ensures Stamped(Checked(NewUDPEntry(c, id, seqNumber, turn, time), outcome))
  {
    assert SendErrorStatus(outcome.Error()) != Unknown;
  }

  lemma PacketsNumber(c: UDPConfig, s: UDPSender, plan: seq<Turn>, clock: seq<int>, outcomes: seq<SendOutcome>)
    requires c.Valid() && |clock| == |outcomes| == |plan| && s.packets == [] && s.entries == []
    ensures var entries := SendPackets(c, s, plan, clock, outcomes).entries;
      |entries| == |plan| && Numbered(entries, s.seqNumber)
  {
    hide SendPackets, Packet, TurningOf, KeyOf;
    OnePacketPerTurn(c, s, plan, clock, outcomes);
    var r := SendPackets(c, s, plan, clock, outcomes);
    forall k | 0 <= k < |plan| ensures r.entries[k].request.seqNumber == KeyOf(s.seqNumber, k + 1) {
      assert Recorded(r.packets[|s.packets| + k], r.entries[|s.packets| + k], c, plan[k], KeyOf(s.seqNumber, k + 1),
                      clock[k], outcomes[k]);
    }
  }

  /**
   In every reachable state with recent entries only, a UDP call is a run of insertions: no assure on the map fires.
   */
  lemma UDPCallIsRun(w: World, c: UDPConfig, s: UDPSender, plan: seq<Turn>, clock: seq<int>, outcomes: seq<SendOutcome>)
    requires c.Valid() && |clock| == |outcomes| == |plan| && s.packets == [] && s.entries == []
    requires forall i :: 0 <= i < |clock| ==> clock[i] > 0
    requires Invariant(w) && s.seqNumber == KeyOf(w.first, w.allocations) && Recent(w, |plan|)
    ensures KeysFree(w.table.Keys, s.seqNumber, |plan|)
    ensures var entries := SendPackets(c, s, plan, clock, outcomes).entries;
      && |entries| == |plan| && IsRun(w, Inserts(entries), InsertAll(w, entries))
      && InsertAll(w, entries).table == WithEntries(w.table, entries, |entries|)
  {
    hide *;
    NothingStamped();
    PacketsNumber(c, s, plan, clock, outcomes);
    PacketEntriesAreStamped(c, s, plan, clock, outcomes);
    NumberedRun(w, SendPackets(c, s, plan, clock, outcomes).entries);
  }

  lemma NothingStamped()
    ensures StampedEntries([])
  {
  }
}
