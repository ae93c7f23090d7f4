/**
 What the payload handlers make of a received message: which request it belongs to. A probe that comes
 back, as an echo or quoted in an ICMP error, resolves to its own entry.
 */
module Responses {
  import opened Wrappers
  import opened Words
  import opened Addresses
  import opened Internet16
  import opened Headers
  import opened ResultEntries
  import opened LifeCycle
  import opened EntryHistory
  import opened Probes
  import opened IpHeaders
  import opened UdpProbes
  import opened IoModule

  /** The handlers' call of recordResult. */
  datatype Response = Response(
    icmpType: byte,
    icmpCode: byte,
    seqNumber: uint16,
    source: Option<Address>,
    destination: Option<Address>,
    length: uint32)

  /** What a module compares received messages with. */
  datatype Receiver = Receiver(isV6: bool, identifier: uint16, magicNumber: uint32, sourcePort: uint16,
                               destinationPort: uint16)

  function IsError(isV6: bool, icmpType: byte): bool {
    if isV6 then icmpType == ICMP6_TIME_EXCEEDED || icmpType == ICMP6_UNREACH
    else icmpType == ICMP_TIME_EXCEEDED || icmpType == ICMP_UNREACH
  }

  // ----- ICMPModule::handlePayloadResponse -----

  function ICMPv6Response(r: Receiver, message: seq<byte>): Option<Response> {
    match ReadICMP(message)
    case None => None
    case Some((icmp, rest)) =>
      if icmp.icmpType == ICMP6_ECHO_REPLY && icmp.identifier == r.identifier then
        match ReadTraceService(rest)
        case None => None
        case Some((ts, _)) =>
          if ts.magicNumber == r.magicNumber then
            Some(Response(icmp.icmpType, icmp.code, icmp.seqNumber, None, None, Wrap32(40 + |message|)))
          else None
      else if IsError(true, icmp.icmpType) then QuotedICMPv6(r, icmp, rest, |message|)
      else None
  }

  function QuotedICMPv6(r: Receiver, icmp: ICMPFields, quoted: seq<byte>, length: nat): Option<Response> {
    match ReadIPv6(quoted)
    case None => None
    case Some((ip, afterIP)) =>
      match ReadICMP(afterIP)
      case None => None
      case Some((inner, afterICMP)) =>
        match ReadTraceService(afterICMP)
        case None => None
        case Some((ts, _)) =>
          if ip.nextHeader == IPPROTO_ICMPV6 && inner.identifier == r.identifier && ts.magicNumber == r.magicNumber then
            Some(Response(icmp.icmpType, icmp.code, inner.seqNumber, Some(ip.source), Some(ip.destination),
                          Wrap32(40 + length)))
          else None
  }

  function ICMPv4Response(r: Receiver, message: seq<byte>): Option<Response> {
    match ReadIPv4(message)
    case None => None
    case Some((outer, afterIP)) =>
      if outer.protocol != IPPROTO_ICMP then None
      else
        match ReadICMP(afterIP)
        case None => None
        case Some((icmp, rest)) =>
          if icmp.icmpType == ICMP_ECHO_REPLY && icmp.identifier == r.identifier then
            match ReadTraceService(rest)
            case None => None
            case Some((ts, _)) =>
              if ts.magicNumber == r.magicNumber then
                // This is the response: source and destination are swapped.
                Some(Response(icmp.icmpType, icmp.code, icmp.seqNumber, Some(outer.destination), Some(outer.source),
                              Wrap32(|message|)))
              else None
          else if IsError(false, icmp.icmpType) then QuotedICMPv4(r, icmp, rest, |message|)
          else None
  }

  /** ICMPv4 need not quote the payload header, so the sequence number has to do. */
  function QuotedICMPv4(r: Receiver, icmp: ICMPFields, quoted: seq<byte>, length: nat): Option<Response> {
    match ReadIPv4(quoted)
    case None => None
    case Some((ip, afterIP)) =>
      match ReadICMP(afterIP)
      case None => None
      case Some((inner, _)) =>
        if ip.protocol == IPPROTO_ICMP && inner.identifier == r.identifier then
          Some(Response(icmp.icmpType, icmp.code, inner.seqNumber, Some(ip.source), Some(ip.destination),
                        Wrap32(length)))
        else None
  }

  // ----- UDPModule::handlePayloadResponse -----

  /** A reply to the UDP socket. */
  function UDPReply(r: Receiver, message: seq<byte>): Option<Response> {
    match ReadTraceService(message)
    case None => None
    case Some((ts, _)) =>
      if ts.magicNumber == r.magicNumber then
        Some(Response(0, 0, ts.seqNumber, None, None, Wrap32((if r.isV6 then 48 else 28) + |message|)))
      else None
  }

  function UDPv6Error(r: Receiver, message: seq<byte>): Option<Response> {
    match ReadICMP(message)
    case None => None
    case Some((icmp, rest)) =>
      if !IsError(true, icmp.icmpType) then None
      else
        match ReadIPv6(rest)
        case None => None
        case Some((ip, afterIP)) =>
          if ip.nextHeader != IPPROTO_UDP then None
          else
            match ReadUDP(afterIP)
            case None => None
            case Some((udp, afterUDP)) =>
              if udp.sourcePort != r.sourcePort || udp.destinationPort != r.destinationPort then None
              else
                match ReadTraceService(afterUDP)
                case None => None
                case Some((ts, _)) =>
                  if ts.magicNumber != r.magicNumber then None
                  else Some(Response(icmp.icmpType, icmp.code, ts.seqNumber, Some(ip.source), Some(ip.destination),
                                     Wrap32(|message|)))
  }

  function UDPv4Error(r: Receiver, message: seq<byte>): Option<Response> {
    match ReadIPv4(message)
    case None => None
    case Some((outer, afterOuter)) =>
      if outer.protocol != IPPROTO_ICMP then None
      else
        match ReadICMP(afterOuter)
        case None => None
        case Some((icmp, rest)) =>
          if IsError(false, icmp.icmpType) then QuotedUDPv4(r, icmp, rest, |message|) else None
  }

  /** The IPv4 identification is the sequence number. */
  function QuotedUDPv4(r: Receiver, icmp: ICMPFields, quoted: seq<byte>, length: nat): Option<Response> {
    match ReadIPv4(quoted)
    case None => None
    case Some((ip, afterIP)) =>
      if ip.protocol != IPPROTO_UDP then None
      else
        match ReadUDP(afterIP)
        case None => None
        case Some((udp, _)) =>
          if udp.sourcePort != r.sourcePort || udp.destinationPort != r.destinationPort then None
          else Some(Response(icmp.icmpType, icmp.code, ip.identification, Some(ip.source), Some(ip.destination),
                             Wrap32(length)))
  }

  // ----- The effect -----

  /** The received data, completed by the handler. */
  function WithAddresses(data: ReceivedData, response: Response): ReceivedData {
    var known := if response.source.Some? then data.(source := response.source.value) else data;
    if response.destination.Some? then known.(destination := response.destination.value) else known
  }

  function Responded(table: Table, isV6: bool, data: ReceivedData, response: Option<Response>): Table {
    match response
    case None => table
    case Some(s) => LifeCycle.RecordResult(table, isV6, WithAddresses(data, s), s.icmpType, s.icmpCode, s.seqNumber,
                                           s.length)
  }

  /** Whether the new-result callback is called. */
  predicate Notifies(table: Table, data: ReceivedData, response: Option<Response>) {
    && response.Some? && Accepted(table, response.value.seqNumber, WithAddresses(data, response.value))
    && table[response.value.seqNumber].status == Unknown
  }

  method Record(base: IOModuleBase, data: ReceivedData, response: Option<Response>) returns (notified: bool)
    requires base.results.Valid()
    modifies base.results.entries.Values
    ensures base.results.Valid() && base.results.entries == old(base.results.entries)
    ensures base.results.View() == Responded(old(base.results.View()), base.sourceIsV6, data, response)
    ensures notified <==> Notifies(old(base.results.View()), data, response)
  {
    notified := false;
    if response.Some? {
      var s := response.value;
      notified := base.RecordResult(WithAddresses(data, s), s.icmpType, s.icmpCode, s.seqNumber, s.length);
    }
  }

  /** The sockets that a module reads. */
  datatype Socket = ICMPSocket | UDPSocket

  datatype Protocol = ICMP | UDP

  /** What the module of a protocol makes of a message; ICMP does not tell the sockets apart. */
  function ResponseOf(protocol: Protocol, r: Receiver, socket: Socket, message: seq<byte>): Option<Response> {
    if protocol.UDP? then
      if socket.UDPSocket? then UDPReply(r, message)
      else if r.isV6 then UDPv6Error(r, message)
      else UDPv4Error(r, message)
    else if r.isV6 then ICMPv6Response(r, message)
    else ICMPv4Response(r, message)
  }

  /** The handlers of both modules, on the shared map of results. */
  method HandlePayloadResponse(base: IOModuleBase, protocol: Protocol, r: Receiver, socket: Socket, message: seq<byte>,
                               data: ReceivedData)
    returns (notified: bool)
    requires base.results.Valid() && r.isV6 == base.sourceIsV6
    modifies base.results.entries.Values
    ensures base.results.Valid() && base.results.entries == old(base.results.entries)
    ensures base.results.View()
        == Responded(old(base.results.View()), r.isV6, data, ResponseOf(protocol, r, socket, message))
    ensures notified <==> Notifies(old(base.results.View()), data, ResponseOf(protocol, r, socket, message))
  {
    notified := Record(base, data, ResponseOf(protocol, r, socket, message));
  }

  // ----- Received messages in the life cycle -----

  lemma ICMPv6Handled(r: Receiver, message: seq<byte>)
    ensures ICMPv6Response(r, message).Some? ==>
      var s := ICMPv6Response(r, message).value; HandledType(true, s.icmpType, s.icmpCode)
  {
    hide ReadICMP, ReadTraceService, ReadIPv6;
  }

  lemma ICMPv4Handled(r: Receiver, message: seq<byte>)
    ensures ICMPv4Response(r, message).Some? ==>
      var s := ICMPv4Response(r, message).value; HandledType(false, s.icmpType, s.icmpCode)
  {
    hide ReadICMP, ReadTraceService, ReadIPv4;
  }

  lemma UDPv6Handled(r: Receiver, message: seq<byte>)
    ensures UDPv6Error(r, message).Some? ==>
      var s := UDPv6Error(r, message).value; HandledType(true, s.icmpType, s.icmpCode)
  {
    hide ReadICMP, ReadTraceService, ReadIPv6, ReadUDP;
  }

  lemma UDPv4Handled(r: Receiver, message: seq<byte>)
    ensures UDPv4Error(r, message).Some? ==>
      var s := UDPv4Error(r, message).value; HandledType(false, s.icmpType, s.icmpCode)
  {
    hide ReadICMP, ReadTraceService, ReadIPv4, ReadUDP;
  }

  /** Whatever is received, the handlers pass on types and codes that have a status. */
  lemma ResponsesHandled(protocol: Protocol, r: Receiver, socket: Socket, message: seq<byte>)
    ensures var response := ResponseOf(protocol, r, socket, message);
      response.Some? ==> HandledType(r.isV6, response.value.icmpType, response.value.icmpCode)
  {
    hide ICMPv4Response, ICMPv6Response, UDPv4Error, UDPv6Error, ReadTraceService;
    ICMPv6Handled(r, message);
    ICMPv4Handled(r, message);
    UDPv6Handled(r, message);
    UDPv4Handled(r, message);
  }

  /** What happens to a module: a message of any content is received, or an event that is no reply. */
  datatype Input =
    | Received(socket: Socket, bytes: seq<byte>, data: ReceivedData)
    | Other(event: Event)

  ghost predicate Possible(w: World, input: Input) {
    match input
    case Received(_, _, data) => StampedData(data)
    case Other(event) => !event.Reply? && Enabled(w, event)
  }

  /** A message has the effect of the handler; its entry's allocation is notified when the callback is called. */
  ghost function InputStep(w: World, protocol: Protocol, r: Receiver, input: Input): World
    requires w.table.Keys == w.born.Keys && Possible(w, input)
  {
    match input
    case Received(socket, bytes, data) =>
      var response := ResponseOf(protocol, r, socket, bytes);
      w.(table := Responded(w.table, r.isV6, data, response),
         notified := if Notifies(w.table, data, response)
             then w.notified + [w.born[response.value.seqNumber]] else w.notified)
    case Other(event) => Step(w, event)
  }

  ghost predicate InputRun(w: World, protocol: Protocol, r: Receiver, inputs: seq<Input>, w': World)
    decreases |inputs|
  {
    if inputs == [] then w' == w
    else
      && w.table.Keys == w.born.Keys && Possible(w, inputs[0])
      && InputRun(InputStep(w, protocol, r, inputs[0]), protocol, r, inputs[1..], w')
  }

  /** The events of an input: a message is one reply, or none. */
  function EventsOf(protocol: Protocol, r: Receiver, input: Input): seq<Event> {
    match input
    case Other(event) => [event]
    case Received(socket, bytes, data) =>
      match ResponseOf(protocol, r, socket, bytes)
      case None => []
      case Some(s) => [Reply(r.isV6, WithAddresses(data, s), s.icmpType, s.icmpCode, s.seqNumber, s.length)]
  }

  lemma InputIsRun(w: World, protocol: Protocol, r: Receiver, input: Input)
    requires w.table.Keys == w.born.Keys && Possible(w, input)
    ensures IsRun(w, EventsOf(protocol, r, input), InputStep(w, protocol, r, input))
  {
    hide ResponseOf, LifeCycle.RecordResult, HandledType, Accepted, HandleStep, UpdateSendTime, InsertStep;
    if input.Received? {
      ResponsesHandled(protocol, r, input.socket, input.bytes);
    }
    var events := EventsOf(protocol, r, input);
    assert events != [] ==> events[1..] == [];
  }

  function AllEvents(protocol: Protocol, r: Receiver, inputs: seq<Input>): seq<Event> {
    if inputs == [] then [] else EventsOf(protocol, r, inputs[0]) + AllEvents(protocol, r, inputs[1..])
  }

  /** Received messages of any content, between any other events: a run of the life cycle. */
  lemma {:induction false} InputsAreRun(w: World, protocol: Protocol, r: Receiver, inputs: seq<Input>, w': World)
    requires InputRun(w, protocol, r, inputs, w')
    ensures IsRun(w, AllEvents(protocol, r, inputs), w')
    decreases |inputs|
  {
    hide EventsOf, InputStep;
    if inputs == [] {
    } else {
      var next := InputStep(w, protocol, r, inputs[0]);
      InputIsRun(w, protocol, r, inputs[0]);
      InputsAreRun(next, protocol, r, inputs[1..], w');
      RunsJoin(w, EventsOf(protocol, r, inputs[0]), next, AllEvents(protocol, r, inputs[1..]), w');
    }
  }

  /** So whatever is received, entries stay under their keys, none is lost, and none is notified twice. */
  lemma InputsKeepInvariant(first: uint16, protocol: Protocol, r: Receiver, inputs: seq<Input>, w: World)
    requires InputRun(Start(first), protocol, r, inputs, w)
    ensures Invariant(w) && NotifiedOnce(w.table, w.born, w.allocations, w.notified)
  {
    StartIsInvariant(first);
    InputsAreRun(Start(first), protocol, r, inputs, w);
    hide Invariant, IsRun, InputRun;
    RunKeepsInvariant(Start(first), AllEvents(protocol, r, inputs), w);
    RunNotifiesOnce(Start(first), AllEvents(protocol, r, inputs), w);
  }

  // ----- A message resolves to an entry -----

  /** The handler records the message for the entry e, and the address check passes. */
  ghost predicate ResolvesTo(response: Option<Response>, isV6: bool, e: Entry, data: ReceivedData) {
    && response.Some? && response.value.seqNumber == e.request.seqNumber
    && HandledType(isV6, response.value.icmpType, response.value.icmpCode)
    && AddressesMatch(e, WithAddresses(data, response.value))
  }

  /** Then exactly that entry takes the result, and no other changes. */
  lemma ResolvedUpdates(table: Table, response: Option<Response>, isV6: bool, e: Entry, data: ReceivedData)
    requires ResolvesTo(response, isV6, e, data)
    requires e.request.seqNumber in table && table[e.request.seqNumber] == e
    ensures var table' := Responded(table, isV6, data, response);
      && table'.Keys == table.Keys
      && (forall k :: k in table && k != e.request.seqNumber ==> table'[k] == table[k])
      && var e' := table'[e.request.seqNumber];
         && e'.request == e.request && e'.sent == e.sent && e'.status != Unknown
         && e'.source == KnownSource(e, WithAddresses(data, response.value))
         && (e.status != Unknown ==> SameAnswer(e, e'))
         && (e.status == Unknown ==> HasAnswer(e', data, response.value.length))
         && (e.status == Unknown ==> e'.status == ReplyStatus(isV6, response.value.icmpType, response.value.icmpCode))
  {
    KnownStatus(isV6, response.value.icmpType, response.value.icmpCode);
    ReplyFiled(table, isV6, WithAddresses(data, response.value), response.value.icmpType, response.value.icmpCode,
               response.value.seqNumber, response.value.length);
  }

  /** The entry belongs to a request from `local` to `destination`; the local address may be unknown. */
  ghost predicate Between(e: Entry, local: Address, destination: DestinationInfo) {
    e.source == local.DropScopeID() && e.request.destination == WithoutScope(destination)
  }

  ghost predicate NoAddresses(data: ReceivedData) { data.source.IsUnspecified() && data.destination.IsUnspecified() }

  /** Octets of the sender's address in a header: those of the local address, if that is known. */
  ghost predicate SentFrom(octets: seq<byte>, local: Address) {
    |octets| == |local.octets| && (octets == local.octets || local.IsUnspecified())
  }

  /** An IPv4 header with any options; only version, protocol and addresses are given. */
  ghost predicate IsIPv4(h: seq<byte>, protocol: byte, source: seq<byte>, destination: seq<byte>) {
    && |h| >= IPV4_HEADER_SIZE && h[0] / 0x10 == 4 && |h| == h[0] % 0x10 * 4
    && h[9] == protocol && h[12..16] == source && h[16..20] == destination
  }

  ghost predicate IsIPv6(h: seq<byte>, nextHeader: byte, source: seq<byte>, destination: seq<byte>) {
    && |h| == IPV6_HEADER_SIZE && h[0] / 0x10 == 6 && h[6] == nextHeader
    && h[8..24] == source && h[24..40] == destination
  }

  lemma ReadIPv4Header(h: seq<byte>, rest: seq<byte>, protocol: byte, source: seq<byte>, destination: seq<byte>)
    requires IsIPv4(h, protocol, source, destination)
    ensures |source| == |destination| == 4
    ensures ReadIPv4(h + rest) == Some((IPv4Fields(protocol, Get16(h, 4), V4(source), V4(destination)), rest))
  {
    hide Word;
    assert (h + rest)[12..16] == h[12..16] && (h + rest)[16..20] == h[16..20] && (h + rest)[|h|..] == rest;
  }

  lemma ReadIPv6Header(h: seq<byte>, rest: seq<byte>, nextHeader: byte, source: seq<byte>, destination: seq<byte>)
    requires IsIPv6(h, nextHeader, source, destination)
    ensures |source| == |destination| == 16
    ensures ReadIPv6(h + rest) == Some((IPv6Fields(nextHeader, V6(source, 0), V6(destination, 0)), rest))
  {
    assert (h + rest)[8..24] == h[8..24] && (h + rest)[24..40] == h[24..40] && (h + rest)[40..] == rest;
  }

  lemma ReadICMPHeader(h: seq<byte>, rest: seq<byte>)
    requires |h| == 8
    ensures ReadICMP(h + rest) == Some((ICMPFields(h[0], h[1], Get16(h, 4), Get16(h, 6)), rest))
  {
    hide Word;
    assert (h + rest)[8..] == rest;
  }

  /** What any probe of an ICMP call contains, whatever its target. */
  lemma ProbeFields(c: Config, s: Sender, turn: Turn, time: int, target: uint32)
    requires c.Valid()
    ensures var probe := TweakedProbe(Untweaked(c, s, turn, time), target).0;
      && |probe| == ICMP_HEADER_SIZE + c.payloadSize
      && Get16(probe, 4) == c.identifier && Get16(probe, 6) == Increment(s.seqNumber)
      && Get32(probe, 8) == c.magicNumber
  {
    ProbeSays(c, s, turn, time, target);
    hide TweakedProbe, Untweaked, Get16, Get32, Get64, Wrap64;
  }

  /** The beginning of a probe is what ReadICMP and ReadTraceService see of it. */
  lemma ReadProbe(probe: seq<byte>, quoted: nat, tail: seq<byte>)
    requires 8 <= quoted <= |probe| && |probe| >= 24
    ensures ReadICMP(probe[..quoted] + tail)
         == Some((ICMPFields(probe[0], probe[1], Get16(probe, 4), Get16(probe, 6)), probe[8..quoted] + tail))
    ensures quoted >= 24 ==>
              ReadTraceService(probe[8..quoted] + tail)
                  == Some((TraceServiceFields(Get32(probe, 8), Get16(probe, 14)), probe[24..quoted] + tail))
  {
    hide Word;
    assert (probe[..quoted] + tail)[8..] == probe[8..quoted] + tail;
    if quoted >= 24 {
      assert (probe[8..quoted] + tail)[16..] == probe[24..quoted] + tail;
    }
  }

  lemma AddressesOfV4(e: Entry, local: Address, destination: DestinationInfo, data: ReceivedData, source: seq<byte>)
    requires local.V4? && destination.address.V4? && Between(e, local, destination)
    requires data.source == V4(source) && data.destination == V4(destination.address.octets) && SentFrom(source, local)
    ensures AddressesMatch(e, data)
  {
  }

  lemma AddressesOfV6(e: Entry, local: Address, destination: DestinationInfo, data: ReceivedData, source: seq<byte>)
    requires local.V6? && destination.address.V6? && Between(e, local, destination)
    requires data.source == V6(source, 0) && data.destination == V6(destination.address.octets, 0)
      && SentFrom(source, local)
    ensures AddressesMatch(e, data)
  {
  }

  // ----- Main results -----

  /**
   An ICMPv4 error resolves to the probe that it quotes: any options in either header, any routers'
   changes outside protocol and addresses, at least 8 bytes of the probe, and anything after them.
   */
  lemma QuotedProbeResolvesV4(c: Config, s: Sender, turn: Turn, time: int, target: uint32, e: Entry,
                              data: ReceivedData, r: Receiver,
                              outer: seq<byte>, icmp: seq<byte>, inner: seq<byte>, quoted: nat, tail: seq<byte>,
                              router: seq<byte>, local: seq<byte>, source: seq<byte>)
    requires c.Valid() && c.localAddress.V4? && c.destination.address.V4? && r.identifier == c.identifier
    requires e.request.seqNumber == Increment(s.seqNumber) && Between(e, c.localAddress, c.destination)
    requires IsIPv4(outer, IPPROTO_ICMP, router, local) && |icmp| == 8 && IsError(false, icmp[0])
    requires IsIPv4(inner, IPPROTO_ICMP, source, c.destination.address.octets) && SentFrom(source, c.localAddress)
    requires 8 <= quoted <= ICMP_HEADER_SIZE + c.payloadSize
    ensures var probe := TweakedProbe(Untweaked(c, s, turn, time), target).0;
      && |probe| == ICMP_HEADER_SIZE + c.payloadSize
      && ResolvesTo(ICMPv4Response(r, outer + (icmp + (inner + (probe[..quoted] + tail)))), false, e, data)
  {
    ProbeFields(c, s, turn, time, target);
    var probe := TweakedProbe(Untweaked(c, s, turn, time), target).0;
    hide TweakedProbe, Untweaked, Get16, Get32, IsIPv4, ReadIPv4, ReadICMP, ReadTraceService, AddressesMatch;
    ReadIPv4Header(outer, icmp + (inner + (probe[..quoted] + tail)), IPPROTO_ICMP, router, local);
    ReadICMPHeader(icmp, inner + (probe[..quoted] + tail));
    ReadIPv4Header(inner, probe[..quoted] + tail, IPPROTO_ICMP, source, c.destination.address.octets);
    ReadProbe(probe, quoted, tail);
    var response := ICMPv4Response(r, outer + (icmp + (inner + (probe[..quoted] + tail))));
    AddressesOfV4(e, c.localAddress, c.destination, WithAddresses(data, response.value), source);
  }

  /** An ICMPv6 error resolves to the probe that it quotes, if it quotes the payload's header too. */
  lemma QuotedProbeResolvesV6(c: Config, s: Sender, turn: Turn, time: int, target: uint32, e: Entry,
                              data: ReceivedData, r: Receiver,
                              icmp: seq<byte>, inner: seq<byte>, quoted: nat, tail: seq<byte>, source: seq<byte>)
    requires c.Valid() && c.localAddress.V6? && c.destination.address.V6?
    requires r.identifier == c.identifier && r.magicNumber == c.magicNumber
    requires e.request.seqNumber == Increment(s.seqNumber) && Between(e, c.localAddress, c.destination)
    requires |icmp| == 8 && IsError(true, icmp[0])
    requires IsIPv6(inner, IPPROTO_ICMPV6, source, c.destination.address.octets) && SentFrom(source, c.localAddress)
    requires 24 <= quoted <= ICMP_HEADER_SIZE + c.payloadSize
    ensures var probe := TweakedProbe(Untweaked(c, s, turn, time), target).0;
      && |probe| == ICMP_HEADER_SIZE + c.payloadSize
      && ResolvesTo(ICMPv6Response(r, icmp + (inner + (probe[..quoted] + tail))), true, e, data)
  {
    ProbeFields(c, s, turn, time, target);
    var probe := TweakedProbe(Untweaked(c, s, turn, time), target).0;
    hide TweakedProbe, Untweaked, Get16, Get32, IsIPv6, ReadIPv6, ReadICMP, ReadTraceService, AddressesMatch;
    ReadICMPHeader(icmp, inner + (probe[..quoted] + tail));
    ReadIPv6Header(inner, probe[..quoted] + tail, IPPROTO_ICMPV6, source, c.destination.address.octets);
    ReadProbe(probe, quoted, tail);
    var response := ICMPv6Response(r, icmp + (inner + (probe[..quoted] + tail)));
    AddressesOfV6(e, c.localAddress, c.destination, WithAddresses(data, response.value), source);
  }

  /** A host's echo of a probe: type and checksum differ, identifier, sequence number and data are returned. */
  function EchoOf(probe: seq<byte>, replyType: byte, checksum: uint16): seq<byte>
    requires |probe| >= 8
  {
    Put16(probe[0 := replyType], 2, checksum)
  }

  lemma EchoReturns(probe: seq<byte>, replyType: byte, checksum: uint16)
    requires |probe| >= 16
    ensures var reply := EchoOf(probe, replyType, checksum);
      && |reply| == |probe| && reply[0] == replyType
      && Get16(reply, 4) == Get16(probe, 4) && Get16(reply, 6) == Get16(probe, 6) && Get32(reply, 8) == Get32(probe, 8)
  {
    hide Word, HighByte, LowByte;
  }

  lemma EchoReplyResolves(c: Config, s: Sender, turn: Turn, time: int, target: uint32, e: Entry, data: ReceivedData,
                          r: Receiver,
                          outer: seq<byte>, checksum: uint16, source: seq<byte>)
    requires c.Valid() && c.localAddress.V6? == c.destination.address.V6?
    requires r.identifier == c.identifier && r.magicNumber == c.magicNumber && NoAddresses(data)
    requires e.request.seqNumber == Increment(s.seqNumber) && Between(e, c.localAddress, c.destination)
    requires c.localAddress.V4? ==>
        IsIPv4(outer, IPPROTO_ICMP, c.destination.address.octets, source) && SentFrom(source, c.localAddress)
    ensures var probe := TweakedProbe(Untweaked(c, s, turn, time), target).0;
      && |probe| == ICMP_HEADER_SIZE + c.payloadSize
      && ResolvesTo(if c.localAddress.V6? then ICMPv6Response(r, EchoOf(probe, ICMP6_ECHO_REPLY, checksum))
                    else ICMPv4Response(r, outer + EchoOf(probe, ICMP_ECHO_REPLY, checksum)), c.localAddress.V6?, e,
                    data)
  {
    ProbeFields(c, s, turn, time, target);
    var probe := TweakedProbe(Untweaked(c, s, turn, time), target).0;
    var reply := EchoOf(probe, if c.localAddress.V6? then ICMP6_ECHO_REPLY else ICMP_ECHO_REPLY, checksum);
    EchoReturns(probe, if c.localAddress.V6? then ICMP6_ECHO_REPLY else ICMP_ECHO_REPLY, checksum);
    hide TweakedProbe, Untweaked, EchoOf, Get16, Get32, IsIPv4, ReadIPv4, ReadICMP, ReadTraceService, AddressesMatch;
    ReadProbe(reply, |reply|, []);
    assert reply[..|reply|] + [] == reply;
    if c.localAddress.V4? {
      ReadIPv4Header(outer, reply, IPPROTO_ICMP, c.destination.address.octets, source);
      var response := ICMPv4Response(r, outer + reply);
      AddressesOfV4(e, c.localAddress, c.destination, WithAddresses(data, response.value), source);
    } else {
      var response := ICMPv6Response(r, reply);
      NothingToMatch(e, WithAddresses(data, response.value));
    }
  }

  lemma NothingToMatch(e: Entry, data: ReceivedData)
    requires NoAddresses(data)
    ensures AddressesMatch(e, data)
  {
  }

  // ----- ICMP calls and their replies -----

  lemma HandlerOf(r: Receiver, socket: Socket)
    ensures forall m :: ResponseOf(ICMP, r, socket, m) == if r.isV6 then ICMPv6Response(r, m) else ICMPv4Response(r, m)
    ensures forall m :: ResponseOf(UDP, r, ICMPSocket, m) == if r.isV6 then UDPv6Error(r, m) else UDPv4Error(r, m)
    ensures forall m :: ResponseOf(UDP, r, UDPSocket, m) == UDPReply(r, m)
  {
    hide ICMPv6Response, ICMPv4Response, UDPv6Error, UDPv4Error, UDPReply;
  }

  /** Entry k of a call has the number of probe k, and the addresses of the call. */
  lemma EntryOfProbe(c: Config, s: Sender, plan: seq<Turn>, clock: seq<int>, outcomes: seq<SendOutcome>, k: nat)
    returns (before: Sender, target: uint32)
    requires c.Valid() && Fits(plan, s.targets) && |clock| == |outcomes| == |plan| && k < |plan|
    requires s.probes == [] && s.entries == []
    ensures c.payloadSize >= MIN_TRACESERVICE_HEADER_SIZE
    ensures var r := SendAll(c, s, plan, clock, outcomes);
      && |r.probes| == |r.entries| == |plan|
      && r.probes[k] == TweakedProbe(Untweaked(c, before, plan[k], clock[k]), target).0
      && r.entries[k].request.seqNumber == Increment(before.seqNumber)
      && Between(r.entries[k], c.localAddress, c.destination)
  {
    hide SendAll, TweakedProbe, Untweaked;
    OneEntryPerTurn(c, s, plan, clock, outcomes);
    before, target := ProbeOfTurn(c, s, plan, clock, outcomes, k);
    var r := SendAll(c, s, plan, clock, outcomes);
    assert Records(r.entries[|s.entries| + k], c, plan[k], KeyOf(s.seqNumber, k + 1), clock[k], outcomes[k]);
    assert r.probes[|s.probes| + k] == r.probes[k];
  }

  /**
   In every call, for either address family: an ICMP error that quotes the beginning of probe k resolves to entry k,
   whatever routers did to the headers outside protocol and addresses. (For IPv6, outer is empty.)
   */
  lemma CallProbeResolves(c: Config, s: Sender, plan: seq<Turn>, clock: seq<int>, outcomes: seq<SendOutcome>, k: nat,
                          data: ReceivedData, r: Receiver, socket: Socket, outer: seq<byte>, icmp: seq<byte>,
                          inner: seq<byte>, quoted: nat, tail: seq<byte>, router: seq<byte>, local: seq<byte>,
                          source: seq<byte>)
    requires c.Valid() && Fits(plan, s.targets) && |clock| == |outcomes| == |plan| && k < |plan|
    requires s.probes == [] && s.entries == [] && c.localAddress.V6? == c.destination.address.V6?
    requires r.identifier == c.identifier && r.magicNumber == c.magicNumber && r.isV6 == c.localAddress.V6?
    requires |icmp| == 8 && IsError(c.localAddress.V6?, icmp[0]) && SentFrom(source, c.localAddress)
    requires c.localAddress.V6? ==> outer == [] && IsIPv6(inner, IPPROTO_ICMPV6, source, c.destination.address.octets)
    requires c.localAddress.V4? ==> IsIPv4(outer, IPPROTO_ICMP, router, local)
    requires c.localAddress.V4? ==> IsIPv4(inner, IPPROTO_ICMP, source, c.destination.address.octets)
    requires (if c.localAddress.V6? then 24 else 8) <= quoted <= ICMP_HEADER_SIZE + c.payloadSize
    ensures var end := SendAll(c, s, plan, clock, outcomes);
      && |end.probes| == |end.entries| == |plan| && |end.probes[k]| == ICMP_HEADER_SIZE + c.payloadSize
      && ResolvesTo(ResponseOf(ICMP, r, socket, outer + (icmp + (inner + (end.probes[k][..quoted] + tail)))),
                    c.localAddress.V6?, end.entries[k], data)
  {
    hide *;
    HandlerOf(r, socket);
    var before, target := EntryOfProbe(c, s, plan, clock, outcomes, k);
    var e, probe := SendAll(c, s, plan, clock, outcomes).entries[k], SendAll(c, s, plan, clock, outcomes).probes[k];
    if c.localAddress.V6? {
      QuotedProbeResolvesV6(c, before, plan[k], clock[k], target, e, data, r, icmp, inner, quoted, tail, source);
      assert [] + (icmp + (inner + (probe[..quoted] + tail))) == icmp + (inner + (probe[..quoted] + tail));
    } else {
      QuotedProbeResolvesV4(c, before, plan[k], clock[k], target, e, data, r, outer, icmp, inner, quoted, tail, router,
                            local, source);
    }
  }

  /** In every call, an echo of probe k resolves to entry k. */
  lemma CallEchoResolves(c: Config, s: Sender, plan: seq<Turn>, clock: seq<int>, outcomes: seq<SendOutcome>, k: nat,
                         data: ReceivedData, r: Receiver, socket: Socket, outer: seq<byte>, checksum: uint16,
                         source: seq<byte>)
    requires c.Valid() && Fits(plan, s.targets) && |clock| == |outcomes| == |plan| && k < |plan|
    requires s.probes == [] && s.entries == [] && c.localAddress.V6? == c.destination.address.V6?
    requires r.identifier == c.identifier && r.magicNumber == c.magicNumber && r.isV6 == c.localAddress.V6?
    requires NoAddresses(data)
    requires c.localAddress.V4? ==>
        IsIPv4(outer, IPPROTO_ICMP, c.destination.address.octets, source) && SentFrom(source, c.localAddress)
    ensures var end := SendAll(c, s, plan, clock, outcomes);
      && |end.probes| == |end.entries| == |plan| && |end.probes[k]| == ICMP_HEADER_SIZE + c.payloadSize
      && ResolvesTo(ResponseOf(ICMP, r, socket,
                               if c.localAddress.V6? then EchoOf(end.probes[k], ICMP6_ECHO_REPLY, checksum)
                               else outer + EchoOf(end.probes[k], ICMP_ECHO_REPLY, checksum)),
                    c.localAddress.V6?, end.entries[k], data)
  {
    hide *;
    HandlerOf(r, socket);
    var before, target := EntryOfProbe(c, s, plan, clock, outcomes, k);
    EchoReplyResolves(c, before, plan[k], clock[k], target, SendAll(c, s, plan, clock, outcomes).entries[k], data, r,
                      outer, checksum, source);
  }

  // ----- UDP probes -----

  /** The receiver of the module that sends with configuration c. */
  function UDPReceiver(c: UDPConfig): Receiver {
    Receiver(c.localAddress.V6?, 0, c.magicNumber, c.sourcePort, c.destinationPort)
  }

  lemma DatagramFields(c: UDPConfig, t: Turning, checksum: uint16)
    requires c.Valid()
    ensures var d := Datagram(c, t, checksum);
      && |d| >= 24 && Get16(d, 0) == c.sourcePort && Get16(d, 2) == c.destinationPort && Get16(d, 4) == c.UDPLength()
      && Get32(d, 8) == c.magicNumber && Get16(d, 14) == t.seqNumber
      && d[8..] == UDPPayload(c, t) && Get32(UDPPayload(c, t), 0) == c.magicNumber
      && Get16(UDPPayload(c, t), 6) == t.seqNumber
  {
    DatagramSays(c, t, checksum);
    PayloadFields(c.payloadSize, c.magicNumber, t.ttl, t.round, t.seqNumber, t.timeStamp);
    hide Payload, Word, HighByte, LowByte;
    var d := Datagram(c, t, checksum);
    assert forall i :: 8 <= i < |d| ==> d[i] == UDPPayload(c, t)[i - 8];
  }

  lemma ReadDatagram(d: seq<byte>, quoted: nat, tail: seq<byte>)
    requires 8 <= quoted <= |d| && |d| >= 24 && Get16(d, 4) >= 16
    ensures ReadUDP(d[..quoted] + tail)
         == Some((UDPFields(Get16(d, 0), Get16(d, 2), Get16(d, 4), Get16(d, 6)), d[8..quoted] + tail))
    ensures quoted >= 24 ==>
              ReadTraceService(d[8..quoted] + tail)
                  == Some((TraceServiceFields(Get32(d, 8), Get16(d, 14)), d[24..quoted] + tail))
  {
    hide Word;
    assert (d[..quoted] + tail)[8..] == d[8..quoted] + tail;
    if quoted >= 24 {
      assert (d[8..quoted] + tail)[16..] == d[24..quoted] + tail;
    }
  }

  lemma SentIPv4(typeOfService: byte, totalLength: uint16, identification: uint16, timeToLive: byte, protocol: byte,
                 checksum: uint16,
                 source: seq<byte>, destination: seq<byte>)
    requires |source| == |destination| == 4
    ensures var h := IPv4Bytes(typeOfService, totalLength, identification, timeToLive, protocol, checksum, source,
                               destination);
            IsIPv4(h, protocol, source, destination) && Get16(h, 4) == identification
  {
    WordOfBytes(identification);
    hide HighByte, LowByte, Word;
  }

  lemma SentIPv6(trafficClass: byte, payloadLength: uint16, nextHeader: byte, hopLimit: byte, source: seq<byte>,
                 destination: seq<byte>)
    requires |source| == |destination| == 16
    ensures IsIPv6(IPv6Bytes(trafficClass, payloadLength, nextHeader, hopLimit, source, destination), nextHeader,
                   source, destination)
  {
    hide HighByte, LowByte;
  }

  /** The IP header as sent is among those that the following lemmas speak of. */
  lemma SentIsQuotable(c: UDPConfig, t: Turning)
    requires c.Valid()
    ensures var h := IPHeader(c, t);
      if c.localAddress.V4? then
        IsIPv4(h, IPPROTO_UDP, c.localAddress.octets, c.destination.address.octets) && Get16(h, 4) == t.seqNumber
      else IsIPv6(h, IPPROTO_UDP, c.localAddress.octets, c.destination.address.octets)
    ensures SentFrom(c.localAddress.octets, c.localAddress)
  {
    hide Checksum, IPv4Bytes, IPv6Bytes;
    if c.localAddress.V4? {
      SentIPv4(c.destination.trafficClass, c.PacketSize(), t.seqNumber, t.ttl, IPPROTO_UDP,
               Checksum(IPv4HeaderOf(c, t, 0)),
               c.localAddress.octets, c.destination.address.octets);
    } else {
      SentIPv6(c.destination.trafficClass, c.UDPLength(), IPPROTO_UDP, t.ttl, c.localAddress.octets,
               c.destination.address.octets);
    }
  }

  /**
   An ICMPv4 error that quotes a UDP probe: the identification leads to the entry, whatever routers did to
   service, flags, TTL, options and checksum.
   */
  lemma QuotedUDPResolvesV4(c: UDPConfig, t: Turning, e: Entry, data: ReceivedData,
                            outer: seq<byte>, icmp: seq<byte>, router: seq<byte>, local: seq<byte>,
                            inner: seq<byte>, source: seq<byte>, quoted: nat, tail: seq<byte>)
    requires c.Valid() && c.localAddress.V4?
    requires e.request.seqNumber == t.seqNumber && Between(e, c.localAddress, c.destination)
    requires IsIPv4(outer, IPPROTO_ICMP, router, local) && |icmp| == 8 && IsError(false, icmp[0])
    requires IsIPv4(inner, IPPROTO_UDP, source, c.destination.address.octets) && Get16(inner, 4) == t.seqNumber
    requires SentFrom(source, c.localAddress) && 8 <= quoted <= c.UDPLength()
    ensures var d := Datagram(c, t, UDPChecksum(c, t));
            ResolvesTo(UDPv4Error(UDPReceiver(c), outer + (icmp + (inner + (d[..quoted] + tail)))), false, e, data)
  {
    var d := Datagram(c, t, UDPChecksum(c, t));
    var quote := inner + (d[..quoted] + tail);
    var f := ICMPFields(icmp[0], icmp[1], Get16(icmp, 4), Get16(icmp, 6));
    QuotedUDPIs(c, t, f, inner, source, quoted, tail, |outer + (icmp + quote)|);
    hide UDPChecksum, Datagram, Wrap32, Get16, IsIPv4, ReadIPv4, ReadICMP, QuotedUDPv4, AddressesMatch;
    ReadIPv4Header(outer, icmp + quote, IPPROTO_ICMP, router, local);
    ReadICMPHeader(icmp, quote);
    var response := UDPv4Error(UDPReceiver(c), outer + (icmp + quote));
    AddressesOfV4(e, c.localAddress, c.destination, WithAddresses(data, response.value), source);
  }

  lemma QuotedUDPIs(c: UDPConfig, t: Turning, icmp: ICMPFields, inner: seq<byte>, source: seq<byte>, quoted: nat,
                    tail: seq<byte>, length: nat)
    requires c.Valid() && c.localAddress.V4? && 8 <= quoted <= c.UDPLength()
    requires IsIPv4(inner, IPPROTO_UDP, source, c.destination.address.octets) && Get16(inner, 4) == t.seqNumber
    ensures |source| == 4
    ensures QuotedUDPv4(UDPReceiver(c), icmp, inner + (Datagram(c, t, UDPChecksum(c, t))[..quoted] + tail), length)
         == Some(Response(icmp.icmpType, icmp.code, t.seqNumber, Some(V4(source)),
                          Some(V4(c.destination.address.octets)), Wrap32(length)))
  {
    var d := Datagram(c, t, UDPChecksum(c, t));
    DatagramFields(c, t, UDPChecksum(c, t));
    hide UDPChecksum, Datagram, Wrap32, Get16, Get32, IsIPv4, ReadIPv4, ReadUDP, ReadTraceService;
    ReadIPv4Header(inner, d[..quoted] + tail, IPPROTO_UDP, source, c.destination.address.octets);
    ReadDatagram(d, quoted, tail);
  }

  /** An ICMPv6 error that quotes a UDP probe up to its payload header. */
  lemma QuotedUDPResolvesV6(c: UDPConfig, t: Turning, e: Entry, data: ReceivedData, icmp: seq<byte>,
                            inner: seq<byte>, source: seq<byte>, quoted: nat, tail: seq<byte>)
    requires c.Valid() && c.localAddress.V6?
    requires e.request.seqNumber == t.seqNumber && Between(e, c.localAddress, c.destination)
    requires |icmp| == 8 && IsError(true, icmp[0])
    requires IsIPv6(inner, IPPROTO_UDP, source, c.destination.address.octets) && SentFrom(source, c.localAddress)
    requires 24 <= quoted <= c.UDPLength()
    ensures var d := Datagram(c, t, UDPChecksum(c, t));
            ResolvesTo(UDPv6Error(UDPReceiver(c), icmp + (inner + (d[..quoted] + tail))), true, e, data)
  {
    var d := Datagram(c, t, UDPChecksum(c, t));
    DatagramFields(c, t, UDPChecksum(c, t));
    hide UDPChecksum, Datagram, Get16, Get32, IsIPv6, ReadIPv6, ReadICMP, ReadUDP, ReadTraceService, AddressesMatch;
    ReadICMPHeader(icmp, inner + (d[..quoted] + tail));
    ReadIPv6Header(inner, d[..quoted] + tail, IPPROTO_UDP, source, c.destination.address.octets);
    ReadDatagram(d, quoted, tail);
    var response := UDPv6Error(UDPReceiver(c), icmp + (inner + (d[..quoted] + tail)));
    AddressesOfV6(e, c.localAddress, c.destination, WithAddresses(data, response.value), source);
  }

  // ----- UDP calls and their replies -----

  function IPHeaderSize(c: UDPConfig): nat { if c.localAddress.V6? then IPV6_HEADER_SIZE else IPV4_HEADER_SIZE }

  /** The beginning of a packet, as an error quotes it. */
  lemma QuotedPacket(c: UDPConfig, t: Turning, quoted: nat, tail: seq<byte>)
    requires c.Valid() && quoted <= c.UDPLength()
    ensures |Packet(c, t)| == IPHeaderSize(c) + c.UDPLength()
    ensures Packet(c, t)[..IPHeaderSize(c) + quoted] + tail == IPHeader(c, t)
        + (Datagram(c, t, UDPChecksum(c, t))[..quoted] + tail)
  {
    HeaderSize(c, t);
    hide IPHeader, Datagram, UDPChecksum;
  }

  /** Entry k of a call has the sequence number and the addresses of packet k. */
  lemma EntryOfPacket(c: UDPConfig, s: UDPSender, plan: seq<Turn>, clock: seq<int>, outcomes: seq<SendOutcome>, k: nat)
    requires c.Valid() && |clock| == |outcomes| == |plan| && s.packets == [] && s.entries == [] && k < |plan|
    ensures var r := SendPackets(c, s, plan, clock, outcomes);
      var t := TurningOf(KeyOf(s.seqNumber, k + 1), plan[k], clock[k]);
      && |r.packets| == |r.entries| == |plan| && r.packets[k] == Packet(c, t)
      && r.entries[k].request.seqNumber == t.seqNumber && Between(r.entries[k], c.localAddress, c.destination)
  {
    hide SendPackets, Packet, KeyOf;
    OnePacketPerTurn(c, s, plan, clock, outcomes);
    var r := SendPackets(c, s, plan, clock, outcomes);
    assert Recorded(r.packets[|s.packets| + k], r.entries[|s.packets| + k], c, plan[k], KeyOf(s.seqNumber, k + 1),
                    clock[k], outcomes[k]);
  }

  /**
   In every call, for either address family: an ICMP error that quotes the beginning of packet k as it was sent
   resolves to entry k. (For IPv6, outer is empty.)
   */
  lemma CallPacketResolves(c: UDPConfig, s: UDPSender, plan: seq<Turn>, clock: seq<int>, outcomes: seq<SendOutcome>,
                           k: nat,
                           data: ReceivedData, outer: seq<byte>, icmp: seq<byte>, router: seq<byte>, local: seq<byte>,
                           quoted: nat, tail: seq<byte>)
    requires c.Valid() && |clock| == |outcomes| == |plan| && s.packets == [] && s.entries == [] && k < |plan|
    requires |icmp| == 8 && IsError(c.localAddress.V6?, icmp[0])
    requires if c.localAddress.V6? then outer == [] else IsIPv4(outer, IPPROTO_ICMP, router, local)
    requires (if c.localAddress.V6? then 24 else 8) <= quoted <= c.UDPLength()
    ensures var r := SendPackets(c, s, plan, clock, outcomes);
      && |r.packets| == |r.entries| == |plan| && |r.packets[k]| == IPHeaderSize(c) + c.UDPLength()
      && ResolvesTo(ResponseOf(UDP, UDPReceiver(c), ICMPSocket,
                               outer + (icmp + (r.packets[k][..IPHeaderSize(c) + quoted] + tail))),
                    c.localAddress.V6?, r.entries[k], data)
  {
    hide *;
    ReceiverFamily(c);
    HandlerOf(UDPReceiver(c), ICMPSocket);
    EntryOfPacket(c, s, plan, clock, outcomes, k);
    var t := TurningOf(KeyOf(s.seqNumber, k + 1), plan[k], clock[k]);
    var e := SendPackets(c, s, plan, clock, outcomes).entries[k];
    QuotedPacket(c, t, quoted, tail);
    SentIsQuotable(c, t);
    var inner := IPHeader(c, t);
    var d := Datagram(c, t, UDPChecksum(c, t));
    if c.localAddress.V6? {
      QuotedUDPResolvesV6(c, t, e, data, icmp, inner, c.localAddress.octets, quoted, tail);
      assert [] + (icmp + (inner + (d[..quoted] + tail))) == icmp + (inner + (d[..quoted] + tail));
    } else {
      QuotedUDPResolvesV4(c, t, e, data, outer, icmp, router, local, inner, c.localAddress.octets, quoted, tail);
    }
  }

  /** A host that returns the payload of a UDP probe. */
  lemma UDPReplyResolves(c: UDPConfig, t: Turning, e: Entry, data: ReceivedData)
    requires c.Valid() && NoAddresses(data) && e.request.seqNumber == t.seqNumber
    ensures ResolvesTo(UDPReply(UDPReceiver(c), UDPPayload(c, t)), c.localAddress.V6?, e, data)
  {
    DatagramFields(c, t, 0);
    hide Datagram, UDPPayload, Get16, Get32, AddressesMatch;
    var response := UDPReply(UDPReceiver(c), UDPPayload(c, t));
    NothingToMatch(e, WithAddresses(data, response.value));
  }

  lemma ReceiverFamily(c: UDPConfig)
    ensures UDPReceiver(c).isV6 == c.localAddress.V6?
  {
  }

  /** In every call, a host that returns the payload of packet k on the UDP socket answers entry k. */
  lemma CallReturnResolves(c: UDPConfig, s: UDPSender, plan: seq<Turn>, clock: seq<int>, outcomes: seq<SendOutcome>,
                           k: nat, data: ReceivedData)
    requires c.Valid() && |clock| == |outcomes| == |plan| && s.packets == [] && s.entries == [] && k < |plan|
    requires NoAddresses(data)
    ensures var r := SendPackets(c, s, plan, clock, outcomes);
      && |r.packets| == |r.entries| == |plan| && |r.packets[k]| == IPHeaderSize(c) + c.UDPLength()
      && ResolvesTo(ResponseOf(UDP, UDPReceiver(c), UDPSocket, r.packets[k][IPHeaderSize(c) + 8..]),
                    c.localAddress.V6?, r.entries[k], data)
  {
    EntryOfPacket(c, s, plan, clock, outcomes, k);
    hide *;
    var t := TurningOf(KeyOf(s.seqNumber, k + 1), plan[k], clock[k]);
    HandlerOf(UDPReceiver(c), UDPSocket);
    ReturnedPayload(c, t);
    UDPReplyResolves(c, t, SendPackets(c, s, plan, clock, outcomes).entries[k], data);
  }

  lemma ReturnedPayload(c: UDPConfig, t: Turning)
    requires c.Valid()
    ensures |Packet(c, t)| == IPHeaderSize(c) + c.UDPLength() && c.UDPLength() >= 8
    ensures Packet(c, t)[IPHeaderSize(c) + 8..] == UDPPayload(c, t)
  {
    HeaderSize(c, t);
    hide IPHeader, UDPChecksum, UDPPayload, UDPBytes;
  }
}
