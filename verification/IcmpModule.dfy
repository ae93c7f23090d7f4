/** ICMPModule: sending the probes of all rounds and hops, proved against Probes.SendAll. */
module IcmpModule {
  import opened Words
  import opened Addresses
  import opened Internet16
  import opened OnesComplement
  import opened ChecksumTweak
  import opened Headers
  import opened ResultEntries
  import opened LifeCycle
  import opened Probes
  import opened IoModule
  import opened Filing

  const ICMP_ECHO := 8
  const ICMP6_ECHO_REQUEST := 128

  /** An echo header of this call, whatever its checksum and sequence number. */
  ghost predicate IsEcho(h: seq<byte>, c: Config) {
    |h| == ICMP_HEADER_SIZE && h[0] == c.icmpType && h[1] == 0 && h[4..6] == Bytes16(c.identifier)
  }

  /** A payload of this call, whatever its TTL, round, tweak and time stamp. */
  ghost predicate IsPayload(p: seq<byte>, c: Config) {
    IsPayloadOf(p, c.payloadSize, c.magicNumber)
  }

  lemma EchoFromParts(h: seq<byte>, c: Config, seqNumber: uint16)
    requires IsEcho(h, c)
    ensures Put16(Put16(h, 6, seqNumber), 2, 0) == EchoHeader(c.icmpType, 0, c.identifier, seqNumber)
  {
    assert Bytes16(0) == [0, 0];
    hide HighByte, LowByte;
    var e := Put16(Put16(h, 6, seqNumber), 2, 0);
    assert e[4] == h[4..6][0] && e[5] == h[4..6][1];
  }

  lemma EchoStays(h: seq<byte>, c: Config, checksum: uint16)
    requires IsEcho(h, c)
    ensures IsEcho(Put16(h, 2, checksum), c)
  {
    hide HighByte, LowByte;
    assert Put16(h, 2, checksum)[4..6] == h[4..6];
  }

  lemma PayloadStays(p: seq<byte>, c: Config, tweak: uint16)
    requires IsPayload(p, c)
    ensures IsPayload(Put16(p, 6, tweak), c)
  {
    hide HighByte, LowByte, Bytes32, Filler;
    var q := Put16(p, 6, tweak);
    assert q[..4] == p[..4] && q[16..] == p[16..];
  }

  lemma NewHeaders(c: Config, seqNumber: uint16, ttl: byte, round: byte, timeStamp: uint64)
    requires c.payloadSize >= MIN_TRACESERVICE_HEADER_SIZE
    ensures IsEcho(EchoHeader(c.icmpType, 0, c.identifier, seqNumber), c)
    ensures IsPayload(Payload(c.payloadSize, c.magicNumber, ttl, round, 0, timeStamp), c)
  {
    hide HighByte, LowByte, Bytes32, Bytes64, Filler;
    var h := EchoHeader(c.icmpType, 0, c.identifier, seqNumber);
    assert h[4..6] == Bytes16(c.identifier);
    var p := Payload(c.payloadSize, c.magicNumber, ttl, round, 0, timeStamp);
    assert p[..4] == Bytes32(c.magicNumber) && p[16..] == Filler(c.payloadSize)[16..];
  }

  class ICMPModule {
    const base: IOModuleBase
    const identifier: uint16
    const magicNumber: uint32
    const payloadSize: nat
    const actualPacketSize: uint32
    var timeStampSeqID: uint32

    ghost predicate Valid() {
      && MIN_TRACESERVICE_HEADER_SIZE <= payloadSize <= MAX_TRACESERVICE_HEADER_SIZE
      && actualPacketSize == (if base.sourceIsV6 then 48 else 28) + payloadSize
    }

    /** The packet size is what is asked for, but at least that of the headers; the payload fills it. */
    constructor (base: IOModuleBase, identifier: uint16, magicNumber: uint32, packetSize: uint32)
      ensures this.base == base && this.identifier == identifier && this.magicNumber == magicNumber
      ensures var smallest := if base.sourceIsV6 then 64 else 44;
        && actualPacketSize == (if packetSize < smallest then smallest else packetSize)
        && actualPacketSize - smallest == payloadSize - MIN_TRACESERVICE_HEADER_SIZE
      ensures packetSize <= 65535 ==> Valid()
      ensures timeStampSeqID == 0
    {
      this.base := base;
      this.identifier := identifier;
      this.magicNumber := magicNumber;
      var overhead := (if base.sourceIsV6 then 40 else 20) + ICMP_HEADER_SIZE;
      var payload := if packetSize - overhead > MIN_TRACESERVICE_HEADER_SIZE then packetSize - overhead
                     else MIN_TRACESERVICE_HEADER_SIZE;
      payloadSize := payload;
      actualPacketSize := overhead + payload;
      timeStampSeqID := 0;
    }

    ghost function ConfigFor(localAddress: Address, destination: DestinationInfo): Config {
      Config(if base.sourceIsV6 then ICMP6_ECHO_REQUEST else ICMP_ECHO, identifier, magicNumber, payloadSize,
             actualPacketSize, localAddress, destination)
    }

    /** Echo requests of the module's address family and size, with the module's numbers. */
    lemma ConfigSays(localAddress: Address, destination: DestinationInfo)
      requires Valid()
      ensures var c := ConfigFor(localAddress, destination);
        && c.Valid() && c.icmpType == (if base.sourceIsV6 then 128 else 8) && c.identifier == identifier
        && c.magicNumber == magicNumber && c.localAddress == localAddress && c.destination == destination
        && c.packetSize == (if base.sourceIsV6 then 40 else 20) + 8 + c.payloadSize && c.payloadSize == payloadSize
    {
    }

    /** Sums header and payload separately, and finishes. */
    method MessageChecksum(header: seq<byte>, payload: seq<byte>) returns (checksum: uint16)
      requires |header| == ICMP_HEADER_SIZE && |payload| <= MAX_TRACESERVICE_HEADER_SIZE
      ensures checksum == Checksum(header + payload)
    {
      var icmpChecksum := 0;
      icmpChecksum := ComputeInternet16(icmpChecksum, header);
      icmpChecksum := ComputeInternet16(icmpChecksum, payload);
      SumOfTwo(header, payload);
      NoWrap(header + payload);
      FinishIsChecksum(header + payload);
      checksum := FinishInternet16(icmpChecksum);
    }

    lemma SumOfTwo(header: seq<byte>, payload: seq<byte>)
      requires |header| % 2 == 0 && |header + payload| <= MAX_SUMMABLE
      ensures Wrap32(Wrap32(0 + NativeSum(header)) + NativeSum(payload)) == NativeSum(header + payload)
    {
      NativeSumAppend(header, payload);
      NoWrap(header + payload);
      WrapSmall(NativeSum(header + payload));
      WrapAdd(NativeSum(header), NativeSum(payload));
    }

    /** Sequence number, TTL, round and time of a turn; no checksum and no tweak yet. */
    method UpdateHeaders(echo: ICMPHeader, ts: TraceServiceHeader, seqNumber: uint16, round: nat, ttl: nat,
                         sendTime: int, ghost c: Config)
      requires IsEcho(echo.Data[..], c) && IsPayload(ts.Data[..], c) && echo.Data != ts.Data
      modifies echo.Data, ts.Data
      ensures echo.Data[..] == EchoHeader(c.icmpType, 0, c.identifier, seqNumber)
      ensures ts.Data[..]
          == Payload(c.payloadSize, c.magicNumber, ttl % 0x100, round % 0x100, 0, Wrap64(sendTime - EPOCH))
    {
      hide EchoHeader, Payload, Wrap64, Bytes64, HighByte, LowByte;
      ghost var h, p := echo.Data[..], ts.Data[..];
      echo.SetSeqNumber(seqNumber);
      echo.SetChecksum(0);
      EchoFromParts(h, c, seqNumber);
      ts.SetSendTTL(ttl % 0x100);
      ts.SetRound(round % 0x100);
      ts.SetChecksumTweak(0);
      ts.SetSendTimeStamp(Wrap64(sendTime - EPOCH));
      PayloadOfParts(p, c.payloadSize, c.magicNumber, ttl % 0x100, round % 0x100, 0, Wrap64(sendTime - EPOCH));
    }

    /** Checksum and, for a given target, tweak of the prepared message. */
    method AdjustChecksum(echo: ICMPHeader, ts: TraceServiceHeader, round: nat, targets: array<uint32>)
      requires echo.Data != ts.Data && echo.Data.Length == ICMP_HEADER_SIZE
      requires MIN_TRACESERVICE_HEADER_SIZE <= ts.Data.Length <= MAX_TRACESERVICE_HEADER_SIZE
      requires echo.Data[0] != 0 && Get16(echo.Data[..], 2) == 0 && Get16(ts.Data[..], 6) == 0
      requires round < targets.Length && (targets[round] == NO_TARGET || targets[round] < 0xffff)
      modifies echo.Data, ts.Data, targets
      ensures exists checksum :: echo.Data[..] == Put16(old(echo.Data[..]), 2, checksum)
      ensures ts.Data[..] == old(ts.Data[..]) || exists tweak :: ts.Data[..] == Put16(old(ts.Data[..]), 6, tweak)
      ensures var (probe, target) := TweakedProbe(old(echo.Data[..] + ts.Data[..]), old(targets[round]));
              echo.Data[..] + ts.Data[..] == probe && targets[..] == old(targets[..])[round := target]
    {
      hide Checksum, HighByte, LowByte, Word, TweakValue, OnesSum;
      ghost var h, p := echo.Data[..], ts.Data[..];
      ghost var target := targets[round];
      assert Put16(h, 2, 0) == h by { PutBackZero(h, 2, 0); }
      NonzeroSum(h + p, 0);
      var originalChecksum := MessageChecksum(echo.Data[..], ts.Data[..]);
      echo.SetChecksum(originalChecksum);
      PutLeft(h, p, 2, originalChecksum);
      if targets[round] == NO_TARGET {
        targets[round] := originalChecksum;
      } else {
        var diff := TweakValue(targets[round], originalChecksum);
        ts.SetChecksumTweak(diff);
        PutRight(h, p, TWEAK_OFFSET, diff);
        echo.SetChecksum(0);
        PutBackZero(h, 2, originalChecksum);
        var newChecksum := MessageChecksum(echo.Data[..], ts.Data[..]);
        echo.SetChecksum(newChecksum);
        PutLeft(h, Put16(p, 6, diff), 2, newChecksum);
        // The program's assure on the new checksum:
        ZeroBytes(h + p, TWEAK_OFFSET);
        TweakHitsTarget(h + p, target);
        assert newChecksum == targets[round];
      }
    }

    /** One turn of the sender loop up to the point where the message is sent. */
    method UpdateProbe(echo: ICMPHeader, ts: TraceServiceHeader, seqNumber: uint16, round: nat, ttl: nat,
                       sendTime: int, targets: array<uint32>, ghost c: Config) returns (probe: seq<byte>)
      requires c.Valid() && IsEcho(echo.Data[..], c) && IsPayload(ts.Data[..], c) && echo.Data != ts.Data
      requires round < targets.Length && (targets[round] == NO_TARGET || targets[round] < 0xffff)
      modifies echo.Data, ts.Data, targets
      ensures IsEcho(echo.Data[..], c) && IsPayload(ts.Data[..], c)
      ensures var untweaked := Message(c, seqNumber, ttl % 0x100, round % 0x100, 0, Wrap64(sendTime - EPOCH), 0);
              (probe, targets[round]) == TweakedProbe(untweaked, old(targets[round]))
              && targets[..] == old(targets[..])[round := targets[round]]
    {
      hide EchoHeader, Payload, Wrap64, HighByte, LowByte, Word, TweakedProbe;
      UpdateHeaders(echo, ts, seqNumber, round, ttl, sendTime, c);
      EchoFields(c.icmpType, 0, c.identifier, seqNumber);
      PayloadFields(c.payloadSize, c.magicNumber, ttl % 0x100, round % 0x100, 0, Wrap64(sendTime - EPOCH));
      NewHeaders(c, seqNumber, ttl % 0x100, round % 0x100, Wrap64(sendTime - EPOCH));
      ghost var h, p := echo.Data[..], ts.Data[..];
      hide IsEcho, IsPayload;
      AdjustChecksum(echo, ts, round, targets);
      probe := echo.Data[..] + ts.Data[..];
      assert IsEcho(echo.Data[..], c) by {
        var checksum :| echo.Data[..] == Put16(h, 2, checksum);
        EchoStays(h, c, checksum);
      }
      assert IsPayload(ts.Data[..], c) by {
        if ts.Data[..] != p {
          var tweak :| ts.Data[..] == Put16(p, 6, tweak);
          PayloadStays(p, c, tweak);
        }
      }
    }

    /** One whole turn: update, send, and store. (The program allocates the entries ahead of the loop.) */
    method DoTurn(echo: ICMPHeader, ts: TraceServiceHeader, seqNumber: uint16, round: nat, ttl: nat,
                  sendTime: int, outcome: SendOutcome, localAddress: Address, destination: DestinationInfo,
                  targets: array<uint32>, ghost c: Config, ghost s: Sender)
      returns (probe: seq<byte>, entry: ResultEntry)
      requires c.Valid() && c == ConfigFor(localAddress, destination)
      requires IsEcho(echo.Data[..], c) && IsPayload(ts.Data[..], c) && echo.Data != ts.Data
      requires round < targets.Length && TargetOK(targets[round])
      requires s.targets == targets[..] && s.timeStampSeqID == timeStampSeqID && seqNumber == Increment(s.seqNumber)
      modifies this`timeStampSeqID, echo.Data, ts.Data, targets
      ensures fresh(entry) && IsEcho(echo.Data[..], c) && IsPayload(ts.Data[..], c)
      ensures SendProbe(c, s, (round, ttl), sendTime, outcome)
           == Sender(seqNumber, timeStampSeqID, targets[..], s.messagesSent + (if outcome.Success() then 1 else 0),
                     s.probes + [probe], s.entries + [Checked(entry.Value(), outcome)])
    {
      hide IsEcho, IsPayload, TweakedProbe, Message, Wrap64, Initial;
      probe := UpdateProbe(echo, ts, seqNumber, round, ttl, sendTime, targets, c);
      entry := new ResultEntry();
      entry.Initialise(Request(timeStampSeqID, Wrap16(round), seqNumber, Wrap32(ttl), actualPacketSize,
                               Wrap16(targets[round]), 0, 0, destination),
                       sendTime, localAddress, Unknown);
      if outcome.Success() {
        timeStampSeqID := Wrap32(timeStampSeqID + 1);
      }
    }

    method PrepareHeaders(localAddress: Address, destination: DestinationInfo)
      returns (echoRequest: ICMPHeader, tsHeader: TraceServiceHeader)
      requires Valid()
      ensures Ready(echoRequest, tsHeader, ConfigFor(localAddress, destination))
      ensures fresh(echoRequest.Data) && fresh(tsHeader.Data)
    {
      hide Bytes32, Bytes64, HighByte, LowByte, Filler;
      tsHeader := new TraceServiceHeader(payloadSize);
      assert tsHeader.Data[16..] == Filler(payloadSize)[16..];
      tsHeader.SetMagicNumber(magicNumber);
      tsHeader.SetChecksumTweak(0);
      echoRequest := new ICMPHeader();
      echoRequest.SetType(if base.sourceIsV6 then ICMP6_ECHO_REQUEST else ICMP_ECHO);
      echoRequest.SetCode(0);
      echoRequest.SetIdentifier(identifier);
    }

    /** A turn, in terms of the loop's state. */
    method SendTurn(echo: ICMPHeader, ts: TraceServiceHeader, entries: seq<ResultEntry>, round: nat, ttl: nat,
                    seqNumber: uint16, messagesSent: nat, probes: seq<seq<byte>>,
                    localAddress: Address, destination: DestinationInfo, targets: array<uint32>,
                    clock: seq<int>, outcomes: seq<SendOutcome>, ghost s: Sender, ghost rest: seq<Turn>)
      returns (messagesSent': nat, probes': seq<seq<byte>>, entry: ResultEntry)
      requires Ready(echo, ts, ConfigFor(localAddress, destination)) && Pending(s, entries, clock, outcomes, rest)
      requires Mirrors(s, seqNumber, messagesSent, probes, targets)
      requires rest != [] && rest[0] == (round, ttl)
      modifies this`timeStampSeqID, echo.Data, ts.Data, targets
      ensures fresh(entry) && Ready(echo, ts, ConfigFor(localAddress, destination))
      ensures var s' := SendProbe(ConfigFor(localAddress, destination), s, rest[0], clock[|entries|],
                                  outcomes[|entries|]);
        && Pending(s', entries + [entry], clock, outcomes, rest[1..])
        && Mirrors(s', Increment(seqNumber), messagesSent', probes', targets)
    {
      hide IsEcho, IsPayload, SendProbe, Checked;
      ghost var c := ConfigFor(localAddress, destination);
      var n := |entries|;
      TargetsStayOK(c, s, rest, clock[n], outcomes[n]);
      var probe;
      probe, entry := DoTurn(echo, ts, Increment(seqNumber), round, ttl, clock[n], outcomes[n],
                             localAddress, destination, targets, c, s);
      messagesSent' := if outcomes[n].Success() then messagesSent + 1 else messagesSent;
      probes' := probes + [probe];
    }

    /** The inner loop: the hops of one round, downward. `after` are the turns of later rounds. */
    method SendRound(echo: ICMPHeader, ts: TraceServiceHeader, entriesBefore: seq<ResultEntry>,
                     round: nat, fromTTL: nat, toTTL: nat, firstSeqNumber: uint16, sentBefore: nat,
                     probesBefore: seq<seq<byte>>,
                     localAddress: Address, destination: DestinationInfo, targets: array<uint32>, clock: seq<int>,
                     outcomes: seq<SendOutcome>, ghost start: Sender, ghost after: seq<Turn>, ghost end: Sender)
      returns (entries: seq<ResultEntry>, seqNumber: uint16, messagesSent: nat, probes: seq<seq<byte>>, ghost s: Sender)
      requires toTTL <= fromTTL && Ready(echo, ts, ConfigFor(localAddress, destination))
      requires Pending(start, entriesBefore, clock, outcomes, RoundPlan(round, fromTTL, toTTL) + after)
      requires Mirrors(start, firstSeqNumber, sentBefore, probesBefore, targets)
      requires Reaches(ConfigFor(localAddress, destination), start, RoundPlan(round, fromTTL, toTTL) + after, clock,
                       outcomes, |entriesBefore|, end)
      modifies this`timeStampSeqID, echo.Data, ts.Data, targets
      ensures Ready(echo, ts, ConfigFor(localAddress, destination))
      ensures entriesBefore <= entries && fresh(entries[|entriesBefore|..])
      ensures Pending(s, entries, clock, outcomes, after)
      ensures Mirrors(s, seqNumber, messagesSent, probes, targets)
      ensures Reaches(ConfigFor(localAddress, destination), s, after, clock, outcomes, |entries|, end)
    {
      hide SendProbe, TargetsOK, Fits, Stored, SendAll, IsEcho, IsPayload, Reaches, Ready, Mirrors;
      ghost var c := ConfigFor(localAddress, destination);
      s := start;
      ghost var rest := RoundPlan(round, fromTTL, toTTL) + after;
      entries, seqNumber, messagesSent, probes := entriesBefore, firstSeqNumber, sentBefore, probesBefore;
      var ttl: int := fromTTL;
      while ttl >= toTTL
        invariant toTTL - 1 <= ttl <= fromTTL
        invariant rest == RoundPlan(round, ttl, toTTL) + after
        invariant Ready(echo, ts, c) && Pending(s, entries, clock, outcomes, rest)
        invariant entriesBefore <= entries && fresh(entries[|entriesBefore|..])
        invariant Reaches(c, s, rest, clock, outcomes, |entries|, end)
        invariant Mirrors(s, seqNumber, messagesSent, probes, targets)
      {
        ReachesStep(c, s, rest, clock, outcomes, |entries|, end);
        var entry;
        messagesSent, probes, entry := SendTurn(echo, ts, entries, round, ttl, seqNumber, messagesSent, probes,
                                                localAddress, destination, targets, clock, outcomes, s, rest);
        seqNumber := Increment(seqNumber);
        s, rest := SendProbe(c, s, rest[0], clock[|entries|], outcomes[|entries|]), rest[1..];
        assert (entries + [entry])[|entriesBefore|..] == entries[|entriesBefore|..] + [entry];
        entries := entries + [entry];
        ttl := ttl - 1;
      }
      assert rest == after;
    }

    /** The sender loop: all rounds upward, all hops downward. */
    method SenderLoop(localAddress: Address, destination: DestinationInfo,
                      fromTTL: nat, toTTL: nat, fromRound: nat, toRound: nat, seqNumber: uint16,
                      targets: array<uint32>, clock: seq<int>, outcomes: seq<SendOutcome>, ghost start: Sender,
                      ghost end: Sender)
      returns (messagesSent: nat, lastSeqNumber: uint16, probes: seq<seq<byte>>, entries: seq<ResultEntry>)
      requires Valid() && fromRound <= toRound && toTTL <= fromTTL
      requires Pending(start, [], clock, outcomes, Plan(fromRound, toRound, fromTTL, toTTL))
      requires Mirrors(start, seqNumber, 0, [], targets)
      requires Reaches(ConfigFor(localAddress, destination), start, Plan(fromRound, toRound, fromTTL, toTTL), clock,
                       outcomes, 0, end)
      modifies this`timeStampSeqID, targets
      ensures Mirrors(end, lastSeqNumber, messagesSent, probes, targets)
      ensures fresh(entries) && Pending(end, entries, clock, outcomes, [])
    {
      hide TargetsOK, Fits, Stored, SendAll, IsEcho, IsPayload, Pending, Reaches, Ready, Mirrors, ConfigFor;
      ghost var c := ConfigFor(localAddress, destination);
      var echoRequest, tsHeader := PrepareHeaders(localAddress, destination);
      ghost var s := start;
      messagesSent, lastSeqNumber, probes, entries := 0, seqNumber, [], [];
      var round := fromRound;
      while round <= toRound
        invariant fromRound <= round <= toRound + 1
        invariant Ready(echoRequest, tsHeader, c) && fresh(entries)
        invariant Pending(s, entries, clock, outcomes, Plan(round, toRound, fromTTL, toTTL))
        invariant Reaches(c, s, Plan(round, toRound, fromTTL, toTTL), clock, outcomes, |entries|, end)
        invariant Mirrors(s, lastSeqNumber, messagesSent, probes, targets)
      {
        var before := entries;
        entries, lastSeqNumber, messagesSent, probes, s :=
          SendRound(echoRequest, tsHeader, before, round, fromTTL, toTTL, lastSeqNumber, messagesSent, probes,
                    localAddress, destination, targets, clock, outcomes, s, Plan(round + 1, toRound, fromTTL, toTTL),
                    end);
        assert entries == before + entries[|before|..];
        round := round + 1;
      }
      ReachesEnd(c, s, clock, outcomes, |entries|, end);
    }

    ghost predicate Ready(echo: ICMPHeader, ts: TraceServiceHeader, c: Config)
      reads echo.Data, ts.Data
    {
      c.Valid() && IsEcho(echo.Data[..], c) && IsPayload(ts.Data[..], c) && echo.Data != ts.Data
    }

    ghost predicate Stored(s: Sender, entries: seq<ResultEntry>, outcomes: seq<SendOutcome>)
      reads entries
    {
      && |s.entries| == |entries| <= |outcomes|
      && forall i :: 0 <= i < |entries| ==> s.entries[i] == Checked(entries[i].Value(), outcomes[i])
    }

    /** The turns done so far are stored; the rest of the plan is to be done. */
    ghost predicate Pending(s: Sender, entries: seq<ResultEntry>, clock: seq<int>, outcomes: seq<SendOutcome>,
                            rest: seq<Turn>)
      reads entries
    {
      && |entries| + |rest| == |clock| == |outcomes|
      && TargetsOK(s.targets, rest) && Fits(rest, s.targets) && Stored(s, entries, outcomes)
    }

    /** The loop variables and fields agree with the specification's sender state. */
    ghost predicate Mirrors(s: Sender, seqNumber: uint16, messagesSent: nat, probes: seq<seq<byte>>,
                            targets: array<uint32>)
      reads this, targets
    {
      && s.seqNumber == seqNumber && s.timeStampSeqID == timeStampSeqID && s.targets == targets[..]
      && s.messagesSent == messagesSent && s.probes == probes
    }

    /**
     Sends one request per round and hop. The environment supplies the clock readings and the results
     of send_to(); the messages handed to it are returned as `probes`.
     */
    method SendRequest(localAddress: Address, destination: DestinationInfo,
                       fromTTL: nat, toTTL: nat, fromRound: nat, toRound: nat, seqNumber: uint16,
                       targets: array<uint32>, clock: seq<int>, outcomes: seq<SendOutcome>)
      returns (messagesSent: nat, lastSeqNumber: uint16, probes: seq<seq<byte>>)
      requires Valid() && base.results.Valid() && fromRound <= toRound && toTTL <= fromTTL
      requires |clock| == |outcomes| == |Plan(fromRound, toRound, fromTTL, toTTL)|
      requires TargetsOK(targets[..], Plan(fromRound, toRound, fromTTL, toTTL))
      requires KeysFree(base.results.entries.Keys, seqNumber, |clock|)
      modifies this`timeStampSeqID, targets, base.results
      ensures base.results.Valid()
      ensures Fits(Plan(fromRound, toRound, fromTTL, toTTL), old(targets[..]))
      ensures var start := Sender(seqNumber, old(timeStampSeqID), old(targets[..]), 0, [], []);
              var end := SendAll(ConfigFor(localAddress, destination), start, Plan(fromRound, toRound, fromTTL, toTTL),
                                 clock, outcomes);
              Mirrors(end, lastSeqNumber, messagesSent, probes, targets)
              && base.results.View() == WithEntries(old(base.results.View()), end.entries, |end.entries|)
    {
      hide *;
      ghost var c, plan := ConfigFor(localAddress, destination), Plan(fromRound, toRound, fromTTL, toTTL);
      ghost var start := Sender(seqNumber, timeStampSeqID, targets[..], 0, [], []);
      ConfigHasHeader(localAddress, destination);
      StartsPending(start, targets, clock, outcomes, plan);
      ReachesStart(c, start, plan, clock, outcomes);
      ghost var end := SendAll(c, start, plan, clock, outcomes);
      CallIsInsertable(base.results.entries.Keys, c, start, plan, clock, outcomes);
      var entries;
      messagesSent, lastSeqNumber, probes, entries :=
        SenderLoop(localAddress, destination, fromTTL, toTTL, fromRound, toRound, seqNumber, targets, clock, outcomes,
                   start, end);
      EndsStored(end, entries, clock, outcomes);
      InsertEntries(base.results, entries, outcomes, end.entries);
    }

    lemma ConfigHasHeader(localAddress: Address, destination: DestinationInfo)
      requires Valid()
      ensures ConfigFor(localAddress, destination).payloadSize >= MIN_TRACESERVICE_HEADER_SIZE
    {
    }

    lemma StartsPending(start: Sender, targets: array<uint32>, clock: seq<int>, outcomes: seq<SendOutcome>,
                        plan: seq<Turn>)
      requires start.timeStampSeqID == timeStampSeqID && start.targets == targets[..] && start.messagesSent == 0
      requires start.probes == [] && start.entries == [] && |clock| == |outcomes| == |plan|
        && TargetsOK(targets[..], plan)
      ensures Fits(plan, start.targets) && Pending(start, [], clock, outcomes, plan)
        && Mirrors(start, start.seqNumber, 0, [], targets)
    {
    }

    lemma EndsStored(end: Sender, entries: seq<ResultEntry>, clock: seq<int>, outcomes: seq<SendOutcome>)
      requires Pending(end, entries, clock, outcomes, [])
      ensures |entries| == |outcomes| == |end.entries| && StoredFrom(entries, outcomes, end.entries, 0)
    {
    }
  }

  lemma CallIsInsertable(keys: set<uint16>, c: Config, s: Sender, plan: seq<Turn>, clock: seq<int>,
                         outcomes: seq<SendOutcome>)
    requires c.payloadSize >= MIN_TRACESERVICE_HEADER_SIZE && Fits(plan, s.targets) && s.entries == []
    requires |clock| == |outcomes| == |plan| && KeysFree(keys, s.seqNumber, |plan|)
    ensures FreeFrom(keys, SendAll(c, s, plan, clock, outcomes).entries, 0)
    ensures DistinctNumbers(SendAll(c, s, plan, clock, outcomes).entries)
    ensures |SendAll(c, s, plan, clock, outcomes).entries| == |plan|
  {
    hide KeyOf, SendAll, KeysFree;
    OneEntryPerTurn(c, s, plan, clock, outcomes);
    var entries := SendAll(c, s, plan, clock, outcomes).entries;
    forall k | 0 <= k < |entries| ensures entries[k].request.seqNumber == KeyOf(s.seqNumber, k + 1) {
      assert Records(entries[|s.entries| + k], c, plan[k], KeyOf(s.seqNumber, k + 1), clock[k], outcomes[k]);
    }
    NumberedIsInsertable(keys, entries, s.seqNumber);
  }
}
