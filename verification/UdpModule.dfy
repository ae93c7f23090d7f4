/** UDPModule: raw UDP probes with their IP header, and the three checksums of each. */
module UdpModule {
  import opened Words
  import opened Addresses
  import opened Internet16
  import opened OnesComplement
  import opened Headers
  import opened ResultEntries
  import opened LifeCycle
  import opened Probes
  import opened IpHeaders
  import opened IoModule
  import opened Filing
  import opened UdpProbes

  // ----- The headers of a call -----

  /** An IPv4 header of this call, whatever its TTL, identification and checksum. */
  ghost predicate IsIPv4Of(h: seq<byte>, c: UDPConfig) {
    && c.Valid() && c.localAddress.V4? && |h| == IPV4_HEADER_SIZE + 40
    && h[0] == 0x45 && h[1] == c.destination.trafficClass
    && h[2] == HighByte(c.PacketSize()) && h[3] == LowByte(c.PacketSize())
    && h[6] == 0 && h[7] == 0 && h[9] == IPPROTO_UDP
    && h[12..16] == c.localAddress.octets && h[16..20] == c.destination.address.octets
  }

  ghost predicate IsIPv6Of(h: seq<byte>, c: UDPConfig) {
    && c.Valid() && c.localAddress.V6? && |h| == IPV6_HEADER_SIZE
    && h[0] == 0x60 + c.destination.trafficClass / 0x10 && h[1] == c.destination.trafficClass % 0x10 * 0x10
    && h[2] == 0 && h[3] == 0
    && h[4] == HighByte(c.UDPLength()) && h[5] == LowByte(c.UDPLength()) && h[6] == IPPROTO_UDP
    && h[8..24] == c.localAddress.octets && h[24..40] == c.destination.address.octets
  }

  ghost predicate IsUDPOf(h: seq<byte>, c: UDPConfig) {
    && c.Valid() && |h| == UDP_HEADER_SIZE
    && h[0] == HighByte(c.sourcePort) && h[1] == LowByte(c.sourcePort)
    && h[2] == HighByte(c.destinationPort) && h[3] == LowByte(c.destinationPort)
    && h[4] == HighByte(c.UDPLength()) && h[5] == LowByte(c.UDPLength())
  }

  /** All bytes of the header are set, whatever the buffer contained. */
  method PrepareIPv4(c: UDPConfig) returns (header: IPv4Header)
    requires c.Valid() && c.localAddress.V4?
    ensures fresh(header.Data) && IsIPv4Of(header.Data[..], c)
  {
    header := new IPv4Header();
    header.SetVersion(4);
    header.Data[1] := c.destination.trafficClass;
    header.SetHeaderLength(20);
    header.SetFragmentOffset(0);
    assert header.Data[0] == 0x45 && header.Data[1] == c.destination.trafficClass;
    assert header.Data[6] == 0 && header.Data[7] == 0;
    ghost var start := header.Data[..];
    hide *;
    IPv4Prepared(start, c);
    Encode(header.Data, 2, c.PacketSize());
    header.Data[9] := IPPROTO_UDP;
    assert header.Data[..] == Put16(start, 2, c.PacketSize())[9 := IPPROTO_UDP];
    CopyInto(header.Data, 12, c.localAddress.octets);
    CopyInto(header.Data, 16, c.destination.address.octets);
  }

  lemma IPv4Prepared(h: seq<byte>, c: UDPConfig)
    requires c.Valid() && c.localAddress.V4? && |h| == IPV4_HEADER_SIZE + 40
    requires h[0] == 0x45 && h[1] == c.destination.trafficClass && h[6] == 0 && h[7] == 0
    ensures |h| == 60 && |c.localAddress.octets| == |c.destination.address.octets| == 4 && 0 <= c.PacketSize() <= 0xffff
    ensures IsIPv4Of(Overwritten(Overwritten(Put16(h, 2, c.PacketSize())[9 := IPPROTO_UDP], 12, c.localAddress.octets),
                                 16, c.destination.address.octets), c)
  {
    hide HighByte, LowByte, UDPConfig.PacketSize;
    var h1 := Put16(h, 2, c.PacketSize())[9 := IPPROTO_UDP];
    var h2 := Overwritten(h1, 12, c.localAddress.octets);
    var h3 := Overwritten(h2, 16, c.destination.address.octets);
    assert h2[..12] == h1[..12] && h2[12..16] == c.localAddress.octets;
    assert h3[..16] == h2[..16] && h3[16..20] == c.destination.address.octets;
    assert h3[12..16] == h2[12..16];
    assert forall i :: 0 <= i < 12 ==> h3[i] == h1[i];
  }

  lemma Nibbles(trafficClass: byte)
    ensures trafficClass % 0x10 * 0x10 / 0x10 * 0x10 == trafficClass % 0x10 * 0x10
  {
  }

  method PrepareIPv6(c: UDPConfig) returns (header: IPv6Header)
    requires c.Valid() && c.localAddress.V6?
    ensures fresh(header.Data) && IsIPv6Of(header.Data[..], c)
  {
    hide IPv6Header.Version, IPv6Header.TrafficClass, IPv6Header.FlowLabel;
    header := new IPv6Header();
    header.SetVersion(6);
    header.SetTrafficClass(c.destination.trafficClass);
    header.SetFlowLabel(0);
    Nibbles(c.destination.trafficClass);
    assert header.Data[0] == 0x60 + c.destination.trafficClass / 0x10;
    assert header.Data[1] == c.destination.trafficClass % 0x10 * 0x10 && header.Data[2] == 0 && header.Data[3] == 0;
    ghost var start := header.Data[..];
    hide *;
    IPv6Prepared(start, c);
    Encode(header.Data, 4, c.UDPLength());
    header.Data[6] := IPPROTO_UDP;
    assert header.Data[..] == Put16(start, 4, c.UDPLength())[6 := IPPROTO_UDP];
    CopyInto(header.Data, 8, c.localAddress.octets);
    CopyInto(header.Data, 24, c.destination.address.octets);
  }

  lemma IPv6Prepared(h: seq<byte>, c: UDPConfig)
    requires c.Valid() && c.localAddress.V6? && |h| == IPV6_HEADER_SIZE
    requires h[0] == 0x60 + c.destination.trafficClass / 0x10 && h[1] == c.destination.trafficClass % 0x10 * 0x10
    requires h[2] == 0 && h[3] == 0
    ensures |h| == 40 && |c.localAddress.octets| == |c.destination.address.octets| == 16 && 0 <= c.UDPLength() <= 0xffff
    ensures IsIPv6Of(Overwritten(Overwritten(Put16(h, 4, c.UDPLength())[6 := IPPROTO_UDP], 8, c.localAddress.octets),
                                 24, c.destination.address.octets), c)
  {
    hide HighByte, LowByte;
    var h1 := Put16(h, 4, c.UDPLength())[6 := IPPROTO_UDP];
    var h2 := Overwritten(h1, 8, c.localAddress.octets);
    var h3 := Overwritten(h2, 24, c.destination.address.octets);
    assert h2[..8] == h1[..8] && h2[8..24] == c.localAddress.octets;
    assert h3[..24] == h2[..24] && h3[24..40] == c.destination.address.octets;
    assert h3[8..24] == h2[8..24];
    assert forall i :: 0 <= i < 8 ==> h3[i] == h1[i];
  }

  method PrepareUDP(c: UDPConfig) returns (header: UDPHeader)
    requires c.Valid()
    ensures fresh(header.Data) && IsUDPOf(header.Data[..], c)
  {
    hide HighByte, LowByte;
    header := new UDPHeader();
    Encode(header.Data, 0, c.sourcePort);
    Encode(header.Data, 2, c.destinationPort);
    Encode(header.Data, 4, c.UDPLength());
  }

  method PseudoFromIPv4(header: IPv4Header, c: UDPConfig) returns (pseudo: seq<byte>)
    requires IsIPv4Of(header.Data[..], c)
    ensures pseudo == PseudoHeader(c)
  {
    hide HighByte, LowByte;
    pseudo := header.Data[12..20] + [0, header.Data[9]] + Bytes16(c.UDPLength());
  }

  method PseudoFromIPv6(header: IPv6Header, c: UDPConfig) returns (pseudo: seq<byte>)
    requires IsIPv6Of(header.Data[..], c)
    ensures pseudo == PseudoHeader(c)
  {
    hide Bytes32, HighByte, LowByte;
    pseudo := header.Data[8..40] + Bytes32(c.UDPLength()) + [0, 0, 0, header.Data[6]];
  }

  // ----- The headers of a probe -----

  lemma IPv4FromParts(h: seq<byte>, c: UDPConfig, t: Turning, checksum: uint16)
    requires IsIPv4Of(h, c)
    ensures var q := Put16(Put16(h[8 := t.ttl], 4, t.seqNumber), 10, checksum);
            IsIPv4Of(q, c) && q[..IPV4_HEADER_SIZE] == IPv4HeaderOf(c, t, checksum)
  {
    hide HighByte, LowByte;
    var q := Put16(Put16(h[8 := t.ttl], 4, t.seqNumber), 10, checksum);
    var r := IPv4HeaderOf(c, t, checksum);
    assert q[12..16] == h[12..16] && q[16..20] == h[16..20];
    assert r[12..16] == c.localAddress.octets && r[16..20] == c.destination.address.octets;
    assert q[..12] == r[..12];
    assert q[..IPV4_HEADER_SIZE] == q[..12] + q[12..16] + q[16..20];
  }

  lemma IPv6FromParts(h: seq<byte>, c: UDPConfig, t: Turning)
    requires IsIPv6Of(h, c)
    ensures IsIPv6Of(h[7 := t.ttl], c) && h[7 := t.ttl] == IPHeader(c, t)
  {
    hide HighByte, LowByte;
    var q := h[7 := t.ttl];
    assert q[8..24] == h[8..24] && q[24..40] == h[24..40];
    assert q == q[..8] + q[8..24] + q[24..40];
  }

  method UpdateIPv4(header: IPv4Header, t: Turning, ghost c: UDPConfig)
    requires IsIPv4Of(header.Data[..], c)
    modifies header.Data
    ensures IsIPv4Of(header.Data[..], c) && header.Data.Length >= header.HeaderLength() == IPV4_HEADER_SIZE
    ensures header.Data[..IPV4_HEADER_SIZE] == IPHeader(c, t)
  {
    ghost var h := header.Data[..];
    header.Data[8] := t.ttl;
    Encode(header.Data, 4, t.seqNumber);
    Encode(header.Data, 10, 0);
    IPv4FromParts(h, c, t, 0);
    assert header.HeaderLength() == IPV4_HEADER_SIZE;
    hide Checksum, Put16, IsIPv4Of, IPv4HeaderOf;
    var checksum := InternetChecksum(header.Data[..header.HeaderLength()]);
    Encode(header.Data, 10, checksum);
    PutTwice(Put16(h[8 := t.ttl], 4, t.seqNumber), 10, 0, checksum);
    IPv4FromParts(h, c, t, checksum);
  }

  method UpdateIPv6(header: IPv6Header, t: Turning, ghost c: UDPConfig)
    requires IsIPv6Of(header.Data[..], c)
    modifies header.Data
    ensures IsIPv6Of(header.Data[..], c) && header.Data[..] == IPHeader(c, t)
  {
    IPv6FromParts(header.Data[..], c, t);
    hide IsIPv6Of, IPHeader;
    header.Data[7] := t.ttl;
  }

  lemma SumOfThree(a: seq<byte>, b: seq<byte>, c: seq<byte>)
    requires |a| % 2 == 0 && |b| % 2 == 0 && |a + b + c| <= MAX_SUMMABLE
    ensures Wrap32(Wrap32(Wrap32(0 + NativeSum(a)) + NativeSum(b)) + NativeSum(c)) == NativeSum(a + b + c)
  {
    hide NativeSum, Wrap32;
    NativeSumAppend(a, b);
    EvenSum(|a|, |b|);
    NativeSumAppend(a + b, c);
    NoWrap(a + b + c);
    WrapSmall(NativeSum(a + b + c));
    WrapAdd(NativeSum(a), NativeSum(b));
    WrapAdd(NativeSum(a) + NativeSum(b), NativeSum(c));
  }

  lemma EvenSum(m: nat, n: nat)
    requires m % 2 == 0 && n % 2 == 0
    ensures (m + n) % 2 == 0
  {
  }

  method DatagramChecksum(udp: seq<byte>, pseudo: seq<byte>, payload: seq<byte>) returns (checksum: uint16)
    requires |udp| == UDP_HEADER_SIZE && |pseudo| % 2 == 0 && |pseudo| <= 40
      && |payload| <= MAX_TRACESERVICE_HEADER_SIZE
    ensures checksum == Checksum(pseudo + (udp + payload))
  {
    hide Checksum, NativeSum;
    var udpChecksum := 0;
    udpChecksum := ComputeInternet16(udpChecksum, udp);
    udpChecksum := ComputeInternet16(udpChecksum, pseudo);
    udpChecksum := ComputeInternet16(udpChecksum, payload);
    SumOfThree(udp, pseudo, payload);
    NoWrap(udp + pseudo + payload);
    FinishIsChecksum(udp + pseudo + payload);
    PseudoFirst(udp, pseudo, payload);
    checksum := FinishInternet16(udpChecksum);
  }

  lemma UDPFromParts(h: seq<byte>, c: UDPConfig, checksum: uint16)
    requires IsUDPOf(h, c)
    ensures IsUDPOf(Put16(h, 6, checksum), c)
    ensures Put16(h, 6, checksum) == UDPBytes(c.sourcePort, c.destinationPort, c.UDPLength(), checksum)
  {
    hide HighByte, LowByte;
  }

  lemma UDPPayloadStays(c: UDPConfig, t: Turning)
    requires c.Valid()
    ensures IsPayloadOf(UDPPayload(c, t), c.payloadSize, c.magicNumber)
  {
    hide Bytes32, Bytes64, Filler, HighByte, LowByte;
    var p := UDPPayload(c, t);
    assert p[..4] == Bytes32(c.magicNumber) && p[16..] == Filler(c.payloadSize)[16..];
  }

  /** Sequence number, TTL, round and time stamp of a probe. */
  method UpdatePayload(ts: TraceServiceHeader, t: Turning, ghost c: UDPConfig)
    requires c.Valid() && IsPayloadOf(ts.Data[..], c.payloadSize, c.magicNumber)
    modifies ts.Data
    ensures IsPayloadOf(ts.Data[..], c.payloadSize, c.magicNumber) && ts.Data[..] == UDPPayload(c, t)
  {
    ghost var p := ts.Data[..];
    PayloadOfParts(p, c.payloadSize, c.magicNumber, t.ttl, t.round, t.seqNumber, t.timeStamp);
    UDPPayloadStays(c, t);
    hide IsPayloadOf, Bytes64, HighByte, LowByte, Payload;
    ts.SetChecksumTweak(t.seqNumber);
    ts.SetSendTTL(t.ttl);
    ts.SetRound(t.round);
    assert ts.Data[..] == Put16(p[4 := t.ttl][5 := t.round], 6, t.seqNumber);
    ts.SetSendTimeStamp(t.timeStamp);
  }

  /** The datagram of a probe, with its checksum. */
  method UpdateDatagram(udp: UDPHeader, ts: TraceServiceHeader, pseudo: seq<byte>, t: Turning, ghost c: UDPConfig)
    requires c.Valid() && pseudo == PseudoHeader(c) && udp.Data != ts.Data
    requires IsUDPOf(udp.Data[..], c) && IsPayloadOf(ts.Data[..], c.payloadSize, c.magicNumber)
    modifies udp.Data, ts.Data
    ensures IsUDPOf(udp.Data[..], c) && IsPayloadOf(ts.Data[..], c.payloadSize, c.magicNumber)
    ensures udp.Data[..] + ts.Data[..] == Datagram(c, t, UDPChecksum(c, t))
  {
    hide IsPayloadOf, UDPPayload, PseudoHeader, Checksum, Put16, IsUDPOf, UDPBytes;
    ghost var h := udp.Data[..];
    UDPSize(h, c);
    UDPFromParts(h, c, 0);
    Encode(udp.Data, 6, 0);
    UpdatePayload(ts, t, c);
    var udpChecksum := DatagramChecksum(udp.Data[..], pseudo, ts.Data[..]);
    UDPFromParts(h, c, udpChecksum);
    PutTwice(h, 6, 0, udpChecksum);
    Encode(udp.Data, 6, udpChecksum);
  }

  lemma UDPSize(h: seq<byte>, c: UDPConfig)
    requires IsUDPOf(h, c)
    ensures |h| == UDP_HEADER_SIZE && c.payloadSize <= MAX_TRACESERVICE_HEADER_SIZE
  {
  }

  /** The headers that a call's loop updates; only one of the IP headers is prepared. */
  datatype Buffers = Buffers(ipv4: IPv4Header, ipv6: IPv6Header, udp: UDPHeader, ts: TraceServiceHeader,
                             pseudo: seq<byte>)

  function Arrays(b: Buffers): set<array<byte>> { {b.ipv4.Data, b.ipv6.Data, b.udp.Data, b.ts.Data} }

  /** The buffers belong to a call with configuration c, whatever its last packet was. */
  ghost predicate Ready(b: Buffers, c: UDPConfig)
    reads Arrays(b)
  {
    && c.Valid() && b.pseudo == PseudoHeader(c) && b.udp.Data != b.ts.Data
    && b.ipv4.Data != b.udp.Data && b.ipv4.Data != b.ts.Data && b.ipv6.Data != b.udp.Data && b.ipv6.Data != b.ts.Data
    && (if c.localAddress.V6? then IsIPv6Of(b.ipv6.Data[..], c) else IsIPv4Of(b.ipv4.Data[..], c))
    && IsUDPOf(b.udp.Data[..], c) && IsPayloadOf(b.ts.Data[..], c.payloadSize, c.magicNumber)
  }

  class UDPModule {
    const base: IOModuleBase
    const magicNumber: uint32
    const payloadSize: nat
    const actualPacketSize: uint32
    const sourcePort: uint16
    const destinationPort: uint16
    var timeStampSeqID: uint32

    ghost predicate Valid() {
      && payloadSize >= MIN_TRACESERVICE_HEADER_SIZE
      && actualPacketSize == (if base.sourceIsV6 then IPV6_HEADER_SIZE else IPV4_HEADER_SIZE) + UDP_HEADER_SIZE
          + payloadSize <= 0xffff
    }

    /** The packet size is what is asked for, but at least that of the headers; up to 65535, the module is valid. */
    constructor (base: IOModuleBase, sourcePort: uint16, destinationPort: uint16, magicNumber: uint32,
                 packetSize: uint32)
      ensures this.base == base && this.sourcePort == sourcePort && this.destinationPort == destinationPort
      ensures this.magicNumber == magicNumber && timeStampSeqID == 0
      ensures var smallest := if base.sourceIsV6 then 64 else 44;
        && actualPacketSize == (if packetSize < smallest then smallest else packetSize)
        && actualPacketSize - smallest == payloadSize - MIN_TRACESERVICE_HEADER_SIZE
      ensures packetSize <= 65535 ==> Valid()
    {
      var overhead := (if base.sourceIsV6 then 40 else 20) + 8;
      var size := if packetSize - overhead > MIN_TRACESERVICE_HEADER_SIZE
          then packetSize - overhead else MIN_TRACESERVICE_HEADER_SIZE;
      this.base, this.sourcePort, this.destinationPort, this.magicNumber := base, sourcePort, destinationPort,
          magicNumber;
      payloadSize := size;
      actualPacketSize := overhead + size;
      timeStampSeqID := 0;
    }

    function ConfigFor(localAddress: Address, destination: DestinationInfo): UDPConfig {
      UDPConfig(magicNumber, payloadSize, sourcePort, destinationPort, localAddress, destination)
    }

    /** Packets between the module's ports, of its size, with its magic number. */
    lemma ConfigSays(localAddress: Address, destination: DestinationInfo)
      requires Valid() && localAddress.V6? == destination.address.V6? == base.sourceIsV6
      ensures var c := ConfigFor(localAddress, destination);
        && c.Valid() && c.sourcePort == sourcePort && c.destinationPort == destinationPort
        && c.magicNumber == magicNumber && c.localAddress == localAddress && c.destination == destination
        && actualPacketSize == (if base.sourceIsV6 then 40 else 20) + 8 + c.payloadSize
    {
    }

    lemma ConfigIsValid(localAddress: Address, destination: DestinationInfo)
      requires Valid() && localAddress.V6? == destination.address.V6? == base.sourceIsV6
      ensures ConfigFor(localAddress, destination).Valid()
      ensures ConfigFor(localAddress, destination).PacketSize() == actualPacketSize
    {
    }

    method PrepareHeaders(localAddress: Address, destination: DestinationInfo) returns (b: Buffers)
      requires Valid() && localAddress.V6? == destination.address.V6? == base.sourceIsV6
      ensures Ready(b, ConfigFor(localAddress, destination)) && fresh(Arrays(b))
    {
      ConfigIsValid(localAddress, destination);
      hide IsUDPOf, IsIPv4Of, IsIPv6Of, PseudoHeader, Filler, UDPConfig.Valid, UDPConfig.PacketSize;
      var c := ConfigFor(localAddress, destination);
      var tsHeader := PreparePayload(c);
      var udpHeader := PrepareUDP(c);
      if base.sourceIsV6 {
        var ipv4Header := new IPv4Header();
        var ipv6Header := PrepareIPv6(c);
        var pseudo := PseudoFromIPv6(ipv6Header, c);
        b := Buffers(ipv4Header, ipv6Header, udpHeader, tsHeader, pseudo);
      } else {
        var ipv6Header := new IPv6Header();
        var ipv4Header := PrepareIPv4(c);
        var pseudo := PseudoFromIPv4(ipv4Header, c);
        b := Buffers(ipv4Header, ipv6Header, udpHeader, tsHeader, pseudo);
      }
    }

    lemma ReadyIsValid(b: Buffers, c: UDPConfig)
      requires Ready(b, c)
      ensures c.Valid() && c.destination.address.V6? == c.localAddress.V6?
    {
    }

    /** All buffers of one packet. */
    method UpdatePacket(b: Buffers, t: Turning, ghost c: UDPConfig) returns (packet: seq<byte>)
      requires Ready(b, c) && c.localAddress.V6? == base.sourceIsV6
      modifies Arrays(b)
      ensures Ready(b, c) && packet == Packet(c, t)
    {
      hide IsUDPOf, IsPayloadOf, IsIPv4Of, IsIPv6Of, PseudoHeader, UDPPayload, IPHeader, UDPChecksum, Datagram;
      if base.sourceIsV6 {
        UpdateIPv6(b.ipv6, t, c);
        UpdateDatagram(b.udp, b.ts, b.pseudo, t, c);
        packet := b.ipv6.Data[..] + (b.udp.Data[..] + b.ts.Data[..]);
      } else {
        UpdateIPv4(b.ipv4, t, c);
        assert b.ipv4.HeaderLength() == IPV4_HEADER_SIZE;
        UpdateDatagram(b.udp, b.ts, b.pseudo, t, c);
        packet := b.ipv4.Data[..b.ipv4.HeaderLength()] + (b.udp.Data[..] + b.ts.Data[..]);
      }
    }

    /** One turn of the sender loop: the packet, and the entry for its result. */
    method DoTurn(b: Buffers, seqNumber: uint16, round: nat, ttl: nat, sendTime: int, outcome: SendOutcome,
                  localAddress: Address, destination: DestinationInfo, ghost c: UDPConfig, ghost s: UDPSender)
      returns (packet: seq<byte>, entry: ResultEntry)
      requires Valid() && Ready(b, c) && c == ConfigFor(localAddress, destination)
        && c.localAddress.V6? == base.sourceIsV6
      requires s.timeStampSeqID == timeStampSeqID && seqNumber == Increment(s.seqNumber)
      modifies this`timeStampSeqID, Arrays(b)
      ensures fresh(entry) && Ready(b, c)
      ensures SendPacket(c, s, (round, ttl), sendTime, outcome)
           == UDPSender(seqNumber, timeStampSeqID, s.messagesSent + (if outcome.Success() then 1 else 0),
                        s.packets + [packet], s.entries + [Checked(entry.Value(), outcome)])
    {
      hide Packet, TurningOf, Ready, NewUDPEntry, Valid, Checked;
      packet := UpdatePacket(b, TurningOf(seqNumber, (round, ttl), sendTime), c);
      ReadyIsValid(b, c);
      entry := NewEntry(seqNumber, round, ttl, sendTime, localAddress, destination);
      if outcome.Success() {
        timeStampSeqID := Wrap32(timeStampSeqID + 1);
      }
    }

    method NewEntry(seqNumber: uint16, round: nat, ttl: nat, sendTime: int, localAddress: Address,
                    destination: DestinationInfo)
      returns (entry: ResultEntry)
      requires Valid() && ConfigFor(localAddress, destination).Valid() && localAddress.V6? == base.sourceIsV6
      ensures fresh(entry)
      ensures entry.Value()
          == NewUDPEntry(ConfigFor(localAddress, destination), timeStampSeqID, seqNumber, (round, ttl), sendTime)
    {
      hide Initial;
      entry := new ResultEntry();
      entry.Initialise(Request(timeStampSeqID, Wrap16(round), seqNumber, Wrap32(ttl), actualPacketSize, 0, sourcePort,
                               destinationPort, destination),
                       sendTime, localAddress, Unknown);
    }

    /** The turns done so far are stored; the rest of the plan is to be done. */
    ghost predicate Pending(s: UDPSender, entries: seq<ResultEntry>, clock: seq<int>, outcomes: seq<SendOutcome>,
                            rest: seq<Turn>)
      reads entries
    {
      && |entries| + |rest| == |clock| == |outcomes| && |s.entries| == |entries|
      && forall i :: 0 <= i < |entries| ==> s.entries[i] == Checked(entries[i].Value(), outcomes[i])
    }

    /** The loop variables and the field agree with the specification's sender state. */
    ghost predicate Mirrors(s: UDPSender, seqNumber: uint16, messagesSent: nat, packets: seq<seq<byte>>)
      reads this
    {
      && s.seqNumber == seqNumber && s.timeStampSeqID == timeStampSeqID
      && s.messagesSent == messagesSent && s.packets == packets
    }

    /** A turn, in terms of the loop's state. */
    method SendTurn(b: Buffers, entries: seq<ResultEntry>, round: nat, ttl: nat, seqNumber: uint16, messagesSent: nat,
                    packets: seq<seq<byte>>,
                    localAddress: Address, destination: DestinationInfo, clock: seq<int>, outcomes: seq<SendOutcome>,
                    ghost s: UDPSender, ghost rest: seq<Turn>)
      returns (messagesSent': nat, packets': seq<seq<byte>>, entry: ResultEntry)
      requires Valid() && localAddress.V6? == base.sourceIsV6
      requires Ready(b, ConfigFor(localAddress, destination)) && Pending(s, entries, clock, outcomes, rest)
      requires Mirrors(s, seqNumber, messagesSent, packets) && rest != [] && rest[0] == (round, ttl)
      modifies this`timeStampSeqID, Arrays(b)
      ensures fresh(entry) && Ready(b, ConfigFor(localAddress, destination))
      ensures var s' := SendPacket(ConfigFor(localAddress, destination), s, rest[0], clock[|entries|],
                                   outcomes[|entries|]);
        && Pending(s', entries + [entry], clock, outcomes, rest[1..])
        && Mirrors(s', Increment(seqNumber), messagesSent', packets')
    {
      ghost var c := ConfigFor(localAddress, destination);
      hide Ready, SendPacket, Checked;
      var n := |entries|;
      var packet;
      packet, entry := DoTurn(b, Increment(seqNumber), round, ttl, clock[n], outcomes[n], localAddress, destination, c,
                              s);
      messagesSent' := if outcomes[n].Success() then messagesSent + 1 else messagesSent;
      packets' := packets + [packet];
    }

    /** The inner loop: the hops of one round, downward. `after` are the turns of later rounds. */
    method SendRound(b: Buffers, entriesBefore: seq<ResultEntry>, round: nat, fromTTL: nat, toTTL: nat,
                     firstSeqNumber: uint16, sentBefore: nat, packetsBefore: seq<seq<byte>>,
                     localAddress: Address, destination: DestinationInfo, clock: seq<int>, outcomes: seq<SendOutcome>,
                     ghost start: UDPSender, ghost after: seq<Turn>, ghost end: UDPSender)
      returns (entries: seq<ResultEntry>, seqNumber: uint16, messagesSent: nat, packets: seq<seq<byte>>,
               ghost s: UDPSender)
      requires Valid() && localAddress.V6? == base.sourceIsV6 && toTTL <= fromTTL
        && Ready(b, ConfigFor(localAddress, destination))
      requires Pending(start, entriesBefore, clock, outcomes, RoundPlan(round, fromTTL, toTTL) + after)
      requires Mirrors(start, firstSeqNumber, sentBefore, packetsBefore)
      requires Leads(ConfigFor(localAddress, destination), start, RoundPlan(round, fromTTL, toTTL) + after, clock,
                     outcomes, |entriesBefore|, end)
      modifies this`timeStampSeqID, Arrays(b)
      ensures Ready(b, ConfigFor(localAddress, destination))
      ensures entriesBefore <= entries && fresh(entries[|entriesBefore|..])
      ensures Pending(s, entries, clock, outcomes, after)
      ensures Mirrors(s, seqNumber, messagesSent, packets)
      ensures Leads(ConfigFor(localAddress, destination), s, after, clock, outcomes, |entries|, end)
    {
      hide SendPacket, Checked, Leads, Ready, Mirrors, Pending;
      ghost var c := ConfigFor(localAddress, destination);
      s := start;
      ghost var rest := RoundPlan(round, fromTTL, toTTL) + after;
      entries, seqNumber, messagesSent, packets := entriesBefore, firstSeqNumber, sentBefore, packetsBefore;
      var ttl: int := fromTTL;
      while ttl >= toTTL
        invariant toTTL - 1 <= ttl <= fromTTL
        invariant rest == RoundPlan(round, ttl, toTTL) + after
        invariant Ready(b, c) && Pending(s, entries, clock, outcomes, rest)
        invariant entriesBefore <= entries && fresh(entries[|entriesBefore|..])
        invariant Leads(c, s, rest, clock, outcomes, |entries|, end)
        invariant Mirrors(s, seqNumber, messagesSent, packets)
      {
        LeadsStep(c, s, rest, clock, outcomes, |entries|, end);
        var entry;
        messagesSent, packets, entry := SendTurn(b, entries, round, ttl, seqNumber, messagesSent, packets,
                                                 localAddress, destination, clock, outcomes, s, rest);
        seqNumber := Increment(seqNumber);
        s, rest := SendPacket(c, s, rest[0], clock[|entries|], outcomes[|entries|]), rest[1..];
        assert (entries + [entry])[|entriesBefore|..] == entries[|entriesBefore|..] + [entry];
        entries := entries + [entry];
        ttl := ttl - 1;
      }
      assert rest == after;
    }

    /** The sender loop: all rounds upward, all hops downward. */
    method SenderLoop(localAddress: Address, destination: DestinationInfo,
                      fromTTL: nat, toTTL: nat, fromRound: nat, toRound: nat, seqNumber: uint16,
                      clock: seq<int>, outcomes: seq<SendOutcome>, ghost start: UDPSender, ghost end: UDPSender)
      returns (messagesSent: nat, lastSeqNumber: uint16, packets: seq<seq<byte>>, entries: seq<ResultEntry>)
      requires Valid() && localAddress.V6? == destination.address.V6? == base.sourceIsV6 && fromRound <= toRound
        && toTTL <= fromTTL
      requires Pending(start, [], clock, outcomes, Plan(fromRound, toRound, fromTTL, toTTL))
      requires Mirrors(start, seqNumber, 0, [])
      requires Leads(ConfigFor(localAddress, destination), start, Plan(fromRound, toRound, fromTTL, toTTL), clock,
                     outcomes, 0, end)
      modifies this`timeStampSeqID
      ensures Mirrors(end, lastSeqNumber, messagesSent, packets)
      ensures fresh(entries) && Pending(end, entries, clock, outcomes, [])
    {
      hide Pending, Leads, Ready, Mirrors, ConfigFor;
      ghost var c := ConfigFor(localAddress, destination);
      var b := PrepareHeaders(localAddress, destination);
      ghost var s := start;
      messagesSent, lastSeqNumber, packets, entries := 0, seqNumber, [], [];
      var round := fromRound;
      while round <= toRound
        invariant fromRound <= round <= toRound + 1
        invariant Ready(b, c) && fresh(entries)
        invariant Pending(s, entries, clock, outcomes, Plan(round, toRound, fromTTL, toTTL))
        invariant Leads(c, s, Plan(round, toRound, fromTTL, toTTL), clock, outcomes, |entries|, end)
        invariant Mirrors(s, lastSeqNumber, messagesSent, packets)
      {
        var before := entries;
        entries, lastSeqNumber, messagesSent, packets, s :=
          SendRound(b, before, round, fromTTL, toTTL, lastSeqNumber, messagesSent, packets, localAddress, destination,
                    clock, outcomes, s, Plan(round + 1, toRound, fromTTL, toTTL), end);
        assert entries == before + entries[|before|..];
        round := round + 1;
      }
      LeadsToEnd(c, s, clock, outcomes, |entries|, end);
    }

    /**
     Sends one request per round and hop. The environment supplies the clock readings and the results
     of send_to(); the packets handed to it are returned.
     */
    method SendRequest(localAddress: Address, destination: DestinationInfo,
                       fromTTL: nat, toTTL: nat, fromRound: nat, toRound: nat, seqNumber: uint16,
                       clock: seq<int>, outcomes: seq<SendOutcome>)
      returns (messagesSent: nat, lastSeqNumber: uint16, packets: seq<seq<byte>>)
      requires Valid() && base.results.Valid() && fromRound <= toRound && toTTL <= fromTTL
      requires localAddress.V6? == destination.address.V6? == base.sourceIsV6
      requires |clock| == |outcomes| == |Plan(fromRound, toRound, fromTTL, toTTL)|
      requires KeysFree(base.results.entries.Keys, seqNumber, |clock|)
      modifies this`timeStampSeqID, base.results
      ensures base.results.Valid() && ConfigFor(localAddress, destination).Valid()
      ensures var start := UDPSender(seqNumber, old(timeStampSeqID), 0, [], []);
              var end := SendPackets(ConfigFor(localAddress, destination), start,
                                     Plan(fromRound, toRound, fromTTL, toTTL), clock, outcomes);
              Mirrors(end, lastSeqNumber, messagesSent, packets)
              && base.results.View() == WithEntries(old(base.results.View()), end.entries, |end.entries|)
    {
      hide *;
      ConfigIsValid(localAddress, destination);
      ghost var c, plan := ConfigFor(localAddress, destination), Plan(fromRound, toRound, fromTTL, toTTL);
      ghost var start := UDPSender(seqNumber, timeStampSeqID, 0, [], []);
      StartsPending(start, clock, outcomes, plan);
      LeadsFromStart(c, start, plan, clock, outcomes);
      ghost var end := SendPackets(c, start, plan, clock, outcomes);
      PacketsNumber(c, start, plan, clock, outcomes);
      NumberedIsInsertable(base.results.entries.Keys, end.entries, seqNumber);
      var entries;
      messagesSent, lastSeqNumber, packets, entries :=
        SenderLoop(localAddress, destination, fromTTL, toTTL, fromRound, toRound, seqNumber, clock, outcomes, start,
                   end);
      EndsStored(end, entries, clock, outcomes);
      InsertEntries(base.results, entries, outcomes, end.entries);
    }

    lemma StartsPending(start: UDPSender, clock: seq<int>, outcomes: seq<SendOutcome>, plan: seq<Turn>)
      requires start.timeStampSeqID == timeStampSeqID && start.messagesSent == 0
      requires start.packets == [] && start.entries == [] && |clock| == |outcomes| == |plan|
      ensures Pending(start, [], clock, outcomes, plan) && Mirrors(start, start.seqNumber, 0, [])
    {
    }

    lemma EndsStored(end: UDPSender, entries: seq<ResultEntry>, clock: seq<int>, outcomes: seq<SendOutcome>)
      requires Pending(end, entries, clock, outcomes, [])
      ensures |entries| == |outcomes| == |end.entries| && StoredFrom(entries, outcomes, end.entries, 0)
    {
    }
  }

  /** A new payload with the magic number. */
  method PreparePayload(c: UDPConfig) returns (header: TraceServiceHeader)
    requires c.Valid()
    ensures fresh(header.Data) && IsPayloadOf(header.Data[..], c.payloadSize, c.magicNumber)
  {
    hide Bytes32, Filler;
    header := new TraceServiceHeader(c.payloadSize);
    assert header.Data[16..] == Filler(c.payloadSize)[16..];
    header.SetMagicNumber(c.magicNumber);
  }
}
