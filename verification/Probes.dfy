/**
 The probes of one ICMP send call: what each message contains and how the per-round target checksum
 is met. `SendAll` is the specification of IcmpModule.ICMPModule.SendRequest.
 */
module Probes {
  import opened Wrappers
  import opened Words
  import opened Addresses
  import opened Internet16
  import opened OnesComplement
  import opened ChecksumTweak
  import opened Headers
  import opened ResultEntries
  import opened TimeStamps
  import opened LifeCycle

  /** What stays the same for all probes of a call. */
  datatype Config = Config(
    icmpType: byte,
    identifier: uint16,
    magicNumber: uint32,
    payloadSize: nat,
    packetSize: uint32,
    localAddress: Address,
    destination: DestinationInfo)
  {
    /** Echo request types are not zero, and the payload has room for its header. */
    ghost predicate Valid() {
      icmpType != 0 && MIN_TRACESERVICE_HEADER_SIZE <= payloadSize <= MAX_TRACESERVICE_HEADER_SIZE
    }
  }

  /** The result of send_to(): an error, or the number of bytes sent. */
  datatype SendOutcome = SendOutcome(error: Option<SendError>, sent: nat) {
    predicate Success() { error.None? && sent > 0 }

    function Error(): SendError { if error.Some? then error.value else OtherError }
  }

  /** Marks a round whose checksum is taken from its first probe. */
  const NO_TARGET := 0xffff_ffff

  const ECHO_CHECKSUM := 2

  // ----- The plan: rounds upward, hops downward -----

  type Turn = (nat, nat)

  function RoundPlan(round: nat, fromTTL: int, toTTL: nat): (plan: seq<Turn>)
    requires toTTL <= fromTTL + 1
    ensures |plan| == fromTTL + 1 - toTTL
    decreases fromTTL + 1 - toTTL
  {
    if fromTTL < toTTL then [] else [(round, fromTTL)] + RoundPlan(round, fromTTL - 1, toTTL)
  }

  function Plan(fromRound: nat, toRound: nat, fromTTL: nat, toTTL: nat): seq<Turn>
    requires fromRound <= toRound + 1 && toTTL <= fromTTL
    decreases toRound + 1 - fromRound
  {
    if fromRound == toRound + 1 then []
    else RoundPlan(fromRound, fromTTL, toTTL) + Plan(fromRound + 1, toRound, fromTTL, toTTL)
  }

  lemma {:induction false} RoundPlanAt(round: nat, fromTTL: int, toTTL: nat, i: nat)
    requires toTTL <= fromTTL + 1 && i < fromTTL + 1 - toTTL
    ensures RoundPlan(round, fromTTL, toTTL)[i] == (round, fromTTL - i)
    decreases i
  {
    if i == 0 {
    } else {
      RoundPlanAt(round, fromTTL - 1, toTTL, i - 1);
    }
  }

  lemma RoundPlanTurns(round: nat, fromTTL: nat, toTTL: nat)
    requires toTTL <= fromTTL
    ensures forall i :: 0 <= i < fromTTL + 1 - toTTL ==> RoundPlan(round, fromTTL, toTTL)[i] == (round, fromTTL - i)
  {
    forall i | 0 <= i < fromTTL + 1 - toTTL ensures RoundPlan(round, fromTTL, toTTL)[i] == (round, fromTTL - i) {
      RoundPlanAt(round, fromTTL, toTTL, i);
    }
  }

  lemma {:induction false} PlanSize(fromRound: nat, toRound: nat, fromTTL: nat, toTTL: nat)
    requires fromRound <= toRound + 1 && toTTL <= fromTTL
    ensures |Plan(fromRound, toRound, fromTTL, toTTL)| == (1 + toRound - fromRound) * (1 + fromTTL - toTTL)
    decreases toRound + 1 - fromRound
  {
    if fromRound > toRound {
    } else {
      PlanSize(fromRound + 1, toRound, fromTTL, toTTL);
      var t := 1 + fromTTL - toTTL;
      assert t + (toRound - fromRound) * t == (1 + toRound - fromRound) * t;
    }
  }

  ghost predicate Within(plan: seq<Turn>, fromRound: nat, toRound: nat, fromTTL: nat, toTTL: nat) {
    forall i :: 0 <= i < |plan| ==> fromRound <= plan[i].0 <= toRound && toTTL <= plan[i].1 <= fromTTL
  }

  ghost predicate NoRepeats(plan: seq<Turn>) {
    forall i, j :: 0 <= i < j < |plan| ==> plan[i] != plan[j]
  }

  lemma {:induction false} PlanDistinct(fromRound: nat, toRound: nat, fromTTL: nat, toTTL: nat)
    requires fromRound <= toRound + 1 && toTTL <= fromTTL
    ensures Within(Plan(fromRound, toRound, fromTTL, toTTL), fromRound, toRound, fromTTL, toTTL)
    ensures NoRepeats(Plan(fromRound, toRound, fromTTL, toTTL))
    decreases toRound + 1 - fromRound
  {
    if fromRound > toRound {
    } else {
      PlanDistinct(fromRound + 1, toRound, fromTTL, toTTL);
      RoundPlanTurns(fromRound, fromTTL, toTTL);
      var first, rest := RoundPlan(fromRound, fromTTL, toTTL), Plan(fromRound + 1, toRound, fromTTL, toTTL);
      AppendRound(first, rest, fromRound, toRound, fromTTL, toTTL);
    }
  }

  lemma AppendRound(first: seq<Turn>, rest: seq<Turn>, round: nat, toRound: nat, fromTTL: nat, toTTL: nat)
    requires |first| == fromTTL + 1 - toTTL && toTTL <= fromTTL && round <= toRound
    requires forall i :: 0 <= i < |first| ==> first[i] == (round, fromTTL - i)
    requires Within(rest, round + 1, toRound, fromTTL, toTTL) && NoRepeats(rest)
    ensures Within(first + rest, round, toRound, fromTTL, toTTL) && NoRepeats(first + rest)
  {
  }

  /** Turn a comes before turn b: in an earlier round, or with a higher TTL in the same. */
  predicate Earlier(a: Turn, b: Turn) { a.0 < b.0 || (a.0 == b.0 && a.1 > b.1) }

  ghost predicate TurnsInOrder(plan: seq<Turn>) { forall i, j :: 0 <= i < j < |plan| ==> Earlier(plan[i], plan[j]) }

  /** Rounds upward, and hops downward in each round. */
  lemma {:induction false} PlanInOrder(fromRound: nat, toRound: nat, fromTTL: nat, toTTL: nat)
    requires fromRound <= toRound + 1 && toTTL <= fromTTL
    ensures TurnsInOrder(Plan(fromRound, toRound, fromTTL, toTTL))
    decreases toRound + 1 - fromRound
  {
    if fromRound > toRound {
    } else {
      PlanInOrder(fromRound + 1, toRound, fromTTL, toTTL);
      PlanDistinct(fromRound + 1, toRound, fromTTL, toTTL);
      RoundPlanTurns(fromRound, fromTTL, toTTL);
      OrderedAppend(RoundPlan(fromRound, fromTTL, toTTL), Plan(fromRound + 1, toRound, fromTTL, toTTL), fromRound,
                    toRound, fromTTL, toTTL);
    }
  }

  lemma OrderedAppend(first: seq<Turn>, rest: seq<Turn>, round: nat, toRound: nat, fromTTL: nat, toTTL: nat)
    requires |first| == fromTTL + 1 - toTTL && toTTL <= fromTTL && round <= toRound
    requires forall i :: 0 <= i < |first| ==> first[i] == (round, fromTTL - i)
    requires Within(rest, round + 1, toRound, fromTTL, toTTL) && TurnsInOrder(rest)
    ensures TurnsInOrder(first + rest)
  {
  }

  lemma {:induction false} PlanHas(fromRound: nat, toRound: nat, fromTTL: nat, toTTL: nat, round: nat, ttl: nat)
    requires fromRound <= round <= toRound && toTTL <= ttl <= fromTTL
    ensures (round, ttl) in Plan(fromRound, toRound, fromTTL, toTTL)
    decreases toRound + 1 - fromRound
  {
    if round == fromRound {
      RoundPlanTurns(fromRound, fromTTL, toTTL);
      assert RoundPlan(fromRound, fromTTL, toTTL)[fromTTL - ttl] == (round, ttl);
    } else {
      PlanHas(fromRound + 1, toRound, fromTTL, toTTL, round, ttl);
    }
  }

  /** Each pair of a round and a TTL has exactly one turn, and there are rounds x TTLs turns. */
  lemma PlanIsComplete(fromRound: nat, toRound: nat, fromTTL: nat, toTTL: nat)
    requires fromRound <= toRound && toTTL <= fromTTL
    ensures var plan := Plan(fromRound, toRound, fromTTL, toTTL);
      && |plan| == (1 + toRound - fromRound) * (1 + fromTTL - toTTL)
      && (forall round: nat, ttl: nat :: (round, ttl) in plan <==>
          fromRound <= round <= toRound && toTTL <= ttl <= fromTTL)
      && NoRepeats(plan) && TurnsInOrder(plan)
  {
    PlanInOrder(fromRound, toRound, fromTTL, toTTL);
    PlanSize(fromRound, toRound, fromTTL, toTTL);
    PlanDistinct(fromRound, toRound, fromTTL, toTTL);
    forall round: nat, ttl: nat | fromRound <= round <= toRound && toTTL <= ttl <= fromTTL
      ensures (round, ttl) in Plan(fromRound, toRound, fromTTL, toTTL)
    {
      PlanHas(fromRound, toRound, fromTTL, toTTL, round, ttl);
    }
  }

  // ----- One probe -----

  function Message(c: Config, seqNumber: uint16, ttl: byte, round: byte, tweak: uint16, timeStamp: uint64,
                   checksum: uint16): (m: seq<byte>)
    requires c.payloadSize >= MIN_TRACESERVICE_HEADER_SIZE
    ensures |m| == ICMP_HEADER_SIZE + c.payloadSize
  {
    EchoHeader(c.icmpType, checksum, c.identifier, seqNumber)
    + Payload(c.payloadSize, c.magicNumber, ttl, round, tweak, timeStamp)
  }

  /** The state that one call carries from probe to probe. */
  datatype Sender = Sender(
    seqNumber: uint16,
    timeStampSeqID: uint32,
    targets: seq<uint32>,
    messagesSent: nat,
    probes: seq<seq<byte>>,
    entries: seq<Entry>)

  /** The message of the next turn without a tweak, and without a checksum. */
  function Untweaked(c: Config, s: Sender, turn: Turn, time: int): (m: seq<byte>)
    requires c.payloadSize >= MIN_TRACESERVICE_HEADER_SIZE
    ensures |m| == ICMP_HEADER_SIZE + c.payloadSize
  {
    Message(c, Increment(s.seqNumber), turn.1 % 0x100, turn.0 % 0x100, 0, Wrap64(time - EPOCH), 0)
  }

  /** The message as sent, and the round's target afterwards. */
  function TweakedProbe(untweaked: seq<byte>, target: uint32): (seq<byte>, uint32)
    requires |untweaked| > TWEAK_OFFSET + 1
  {
    if target == NO_TARGET then
      (Put16(untweaked, ECHO_CHECKSUM, Checksum(untweaked)), Checksum(untweaked))
    else
      var tweaked := Put16(untweaked, TWEAK_OFFSET, TweakValue(target, Checksum(untweaked)));
      (Put16(tweaked, ECHO_CHECKSUM, Checksum(tweaked)), target)
  }

  function NewEntry(c: Config, s: Sender, turn: Turn, time: int, target: uint32, outcome: SendOutcome): Entry {
    Checked(Initial(NewRequest(c, s, turn, target), time, c.localAddress, Unknown), outcome)
  }

  function NewRequest(c: Config, s: Sender, turn: Turn, target: uint32): Request {
    Request(s.timeStampSeqID, Wrap16(turn.0), Increment(s.seqNumber), Wrap32(turn.1), c.packetSize, Wrap16(target), 0,
            0,
            c.destination)
  }

  function Checked(e: Entry, outcome: SendOutcome): Entry {
    if outcome.Success() then e else FailedToSend(e, outcome.Error())
  }

  function SendProbe(c: Config, s: Sender, turn: Turn, time: int, outcome: SendOutcome): Sender
    requires c.payloadSize >= MIN_TRACESERVICE_HEADER_SIZE && turn.0 < |s.targets|
  {
    var (probe, target) := TweakedProbe(Untweaked(c, s, turn, time), s.targets[turn.0]);
    Sender(Increment(s.seqNumber),
           if outcome.Success() then Wrap32(s.timeStampSeqID + 1) else s.timeStampSeqID,
           s.targets[turn.0 := target],
           if outcome.Success() then s.messagesSent + 1 else s.messagesSent,
           s.probes + [probe],
           s.entries + [NewEntry(c, s, turn, time, target, outcome)])
  }

  predicate Fits(plan: seq<Turn>, targets: seq<uint32>) {
    forall i :: 0 <= i < |plan| ==> plan[i].0 < |targets|
  }

  function SendAll(c: Config, s: Sender, plan: seq<Turn>, clock: seq<int>, outcomes: seq<SendOutcome>): Sender
    requires c.payloadSize >= MIN_TRACESERVICE_HEADER_SIZE && Fits(plan, s.targets)
    requires |clock| == |outcomes| == |plan|
    decreases |plan|
  {
    if plan == [] then s
    else SendAll(c, SendProbe(c, s, plan[0], clock[0], outcomes[0]), plan[1..], clock[1..], outcomes[1..])
  }

  /** From sender state s, the rest of the call (turn number `current` and after) leads to `end`. */
  ghost predicate Reaches(c: Config, s: Sender, rest: seq<Turn>, clock: seq<int>, outcomes: seq<SendOutcome>,
                          current: nat, end: Sender) {
    && c.payloadSize >= MIN_TRACESERVICE_HEADER_SIZE && Fits(rest, s.targets)
    && |clock| == |outcomes| == current + |rest|
    && SendAll(c, s, rest, clock[current..], outcomes[current..]) == end
  }

  lemma ReachesStart(c: Config, s: Sender, plan: seq<Turn>, clock: seq<int>, outcomes: seq<SendOutcome>)
    requires c.payloadSize >= MIN_TRACESERVICE_HEADER_SIZE && Fits(plan, s.targets)
    requires |clock| == |outcomes| == |plan|
    ensures Reaches(c, s, plan, clock, outcomes, 0, SendAll(c, s, plan, clock, outcomes))
  {
    assert clock[0..] == clock && outcomes[0..] == outcomes;
  }

  lemma ReachesEnd(c: Config, s: Sender, clock: seq<int>, outcomes: seq<SendOutcome>, current: nat, end: Sender)
    requires Reaches(c, s, [], clock, outcomes, current, end)
    ensures s == end
  {
  }

  lemma ReachesStep(c: Config, s: Sender, rest: seq<Turn>, clock: seq<int>, outcomes: seq<SendOutcome>, current: nat,
                    end: Sender)
    requires rest != [] && Reaches(c, s, rest, clock, outcomes, current, end)
    ensures c.payloadSize >= MIN_TRACESERVICE_HEADER_SIZE && rest[0].0 < |s.targets|
    ensures Reaches(c, SendProbe(c, s, rest[0], clock[current], outcomes[current]), rest[1..], clock, outcomes,
                    current + 1, end)
  {
    hide TweakedProbe, Untweaked, NewEntry;
    assert clock[current..][1..] == clock[current + 1..] && outcomes[current..][1..] == outcomes[current + 1..];
  }

  // ----- What the program promises of a call -----

  ghost predicate TargetOK(target: uint32) { target == NO_TARGET || target < 0xffff }

  /** The rounds' targets as sendRequest demands them: none yet, or any checksum but 0xffff. */
  ghost predicate TargetsOK(targets: seq<uint32>, plan: seq<Turn>) {
    forall i :: 0 <= i < |plan| ==> plan[i].0 < |targets| && TargetOK(targets[plan[i].0])
  }

  /** A message that carries the checksum `target`, and whose checksum is right. */
  ghost predicate Carries(probe: seq<byte>, target: uint32) {
    && |probe| > TWEAK_OFFSET + 1
    && Get16(probe, ECHO_CHECKSUM) == target == Checksum(Put16(probe, ECHO_CHECKSUM, 0))
    && target < 0xffff
    && OnesSum(probe) == 0xffff
  }

  /** The assure on the new checksum never fires: whatever the target, the message sent carries it. */
  lemma ProbeCarriesTarget(untweaked: seq<byte>, target: uint32)
    requires |untweaked| > TWEAK_OFFSET + 1 && untweaked[0] != 0
    requires Get16(untweaked, ECHO_CHECKSUM) == 0 && Get16(untweaked, TWEAK_OFFSET) == 0
    requires TargetOK(target)
    ensures var (probe, target') := TweakedProbe(untweaked, target);
            Carries(probe, target') && (target != NO_TARGET ==> target' == target)
  {
    hide Checksum, OnesSum, NetworkSum, Carries, TweakValue, HighByte, LowByte, Word;
    NonzeroSum(untweaked, 0);
    if target == NO_TARGET {
      ChecksummedProbe(untweaked);
    } else {
      ZeroBytes(untweaked, TWEAK_OFFSET);
      TweakHitsTarget(untweaked, target);
      var tweaked := Put16(untweaked, TWEAK_OFFSET, TweakValue(target, Checksum(untweaked)));
      GetPutOther(untweaked, TWEAK_OFFSET, TweakValue(target, Checksum(untweaked)), ECHO_CHECKSUM);
      ChecksummedProbe(tweaked);
    }
  }

  lemma ChecksummedProbe(message: seq<byte>)
    requires |message| > TWEAK_OFFSET + 1 && message[0] != 0 && Get16(message, ECHO_CHECKSUM) == 0
    ensures Carries(Put16(message, ECHO_CHECKSUM, Checksum(message)), Checksum(message))
  {
    hide Checksum, OnesSum, Put16, Get16, NetworkSum;
    NonzeroSum(message, 0);
    ChecksumIs(message);
    CanonCongruent(NetworkSum(message));
    ZeroBytes(message, ECHO_CHECKSUM);
    ChecksummedVerifies(message, ECHO_CHECKSUM);
    GetPut(message, ECHO_CHECKSUM, Checksum(message));
    PutBackZero(message, ECHO_CHECKSUM, Checksum(message));
  }

  /** Everything a receiver reads from a message. */
  lemma MessageFields(c: Config, seqNumber: uint16, ttl: byte, round: byte, tweak: uint16, timeStamp: uint64,
                      checksum: uint16)
    requires c.payloadSize >= MIN_TRACESERVICE_HEADER_SIZE
    ensures var m := Message(c, seqNumber, ttl, round, tweak, timeStamp, checksum);
      && m[0] == c.icmpType && m[1] == 0
      && Get16(m, 2) == checksum && Get16(m, 4) == c.identifier && Get16(m, 6) == seqNumber
      && Get32(m, 8) == c.magicNumber && m[12] == ttl && m[13] == round && Get16(m, 14) == tweak
  {
    EchoFields(c.icmpType, checksum, c.identifier, seqNumber);
    PayloadFields(c.payloadSize, c.magicNumber, ttl, round, tweak, timeStamp);
    hide EchoHeader, Payload, Word;
    var h, p := EchoHeader(c.icmpType, checksum, c.identifier, seqNumber),
                Payload(c.payloadSize, c.magicNumber, ttl, round, tweak, timeStamp);
    assert forall i :: 0 <= i < 8 ==> (h + p)[8 + i] == p[i];
  }

  /** Neither tweak nor checksum touches any other byte. */
  lemma TweakedBytes(m: seq<byte>, target: uint32)
    requires |m| >= 24
    ensures var probe := TweakedProbe(m, target).0;
      && |probe| == |m| && (forall i :: 0 <= i < |m| && i !in {2, 3, 14, 15} ==> probe[i] == m[i])
  {
    hide HighByte, LowByte, Checksum, TweakValue;
  }

  /** What a probe says: an echo request, its numbers, TTL, round and time, and the filler of its size. */
  ghost predicate SaysProbe(probe: seq<byte>, c: Config, seqNumber: uint16, ttl: byte, round: byte, timeStamp: uint64) {
    && |probe| == 8 + c.payloadSize && probe[0] == c.icmpType && probe[1] == 0
    && Get16(probe, 4) == c.identifier && Get16(probe, 6) == seqNumber
    && HasPayload(probe, 8, c.magicNumber, ttl, round, timeStamp)
  }

  lemma ProbeSays(c: Config, s: Sender, turn: Turn, time: int, target: uint32)
    requires c.payloadSize >= MIN_TRACESERVICE_HEADER_SIZE
    ensures SaysProbe(TweakedProbe(Untweaked(c, s, turn, time), target).0, c, Increment(s.seqNumber),
                      turn.1 % 0x100, turn.0 % 0x100, Wrap64(time - 212_803_200_000_000_000))
  {
    MessageSays(c, Increment(s.seqNumber), turn.1 % 0x100, turn.0 % 0x100, Wrap64(time - EPOCH));
    UntweakedIs(c, s, turn, time);
    hide *;
    var m := Untweaked(c, s, turn, time);
    TweakedBytes(m, target);
    SaysStill(m, TweakedProbe(m, target).0, c, Increment(s.seqNumber), turn.1 % 0x100, turn.0 % 0x100,
              Wrap64(time - 212_803_200_000_000_000));
  }

  lemma UntweakedIs(c: Config, s: Sender, turn: Turn, time: int)
    requires c.payloadSize >= MIN_TRACESERVICE_HEADER_SIZE
    ensures Untweaked(c, s, turn, time)
        == Message(c, Increment(s.seqNumber), turn.1 % 0x100, turn.0 % 0x100, 0,
                   Wrap64(time - 212_803_200_000_000_000), 0)
    ensures |Untweaked(c, s, turn, time)| >= 24 && TWEAK_OFFSET == 14 && EPOCH == 212_803_200_000_000_000
  {
    hide Message, Wrap64;
  }

  lemma MessageSays(c: Config, seqNumber: uint16, ttl: byte, round: byte, timeStamp: uint64)
    requires c.payloadSize >= MIN_TRACESERVICE_HEADER_SIZE
    ensures SaysProbe(Message(c, seqNumber, ttl, round, 0, timeStamp, 0), c, seqNumber, ttl, round, timeStamp)
  {
    hide *;
    var h := EchoHeader(c.icmpType, 0, c.identifier, seqNumber);
    var p := Payload(c.payloadSize, c.magicNumber, ttl, round, 0, timeStamp);
    EchoFields(c.icmpType, 0, c.identifier, seqNumber);
    PayloadAt(h, c.payloadSize, c.magicNumber, ttl, round, 0, timeStamp);
    MessageParts(c, seqNumber, ttl, round, timeStamp);
    HeaderFirst(h, p, 4);
    HeaderFirst(h, p, 6);
    SaysParts(h + p, c, seqNumber, ttl, round, timeStamp);
  }

  lemma MessageParts(c: Config, seqNumber: uint16, ttl: byte, round: byte, timeStamp: uint64)
    requires c.payloadSize >= MIN_TRACESERVICE_HEADER_SIZE
    ensures |EchoHeader(c.icmpType, 0, c.identifier, seqNumber)| == 8
    ensures |Payload(c.payloadSize, c.magicNumber, ttl, round, 0, timeStamp)| == c.payloadSize
    ensures Message(c, seqNumber, ttl, round, 0, timeStamp, 0)
        == EchoHeader(c.icmpType, 0, c.identifier, seqNumber)
            + Payload(c.payloadSize, c.magicNumber, ttl, round, 0, timeStamp)
  {
    hide EchoHeader, Payload;
  }

  lemma HeaderFirst(h: seq<byte>, p: seq<byte>, i: nat)
    requires i + 1 < |h|
    ensures Get16(h + p, i) == Get16(h, i)
  {
  }

  lemma SaysParts(m: seq<byte>, c: Config, seqNumber: uint16, ttl: byte, round: byte, timeStamp: uint64)
    requires |m| == 8 + c.payloadSize && m[0] == c.icmpType && m[1] == 0
    requires Get16(m, 4) == c.identifier && Get16(m, 6) == seqNumber
    requires HasPayload(m, 8, c.magicNumber, ttl, round, timeStamp)
    ensures SaysProbe(m, c, seqNumber, ttl, round, timeStamp)
  {
    hide Get16, HasPayload;
  }

  lemma SaysStill(m: seq<byte>, probe: seq<byte>, c: Config, seqNumber: uint16, ttl: byte, round: byte,
                  timeStamp: uint64)
    requires SaysProbe(m, c, seqNumber, ttl, round, timeStamp) && |probe| == |m| >= 24
    requires forall i :: 0 <= i < |m| && i !in {2, 3, 14, 15} ==> probe[i] == m[i]
    ensures SaysProbe(probe, c, seqNumber, ttl, round, timeStamp)
  {
    hide Word;
  }

  // ----- Main results on a whole call -----

  lemma SendProbeCarries(c: Config, s: Sender, turn: Turn, time: int, outcome: SendOutcome)
    requires c.Valid() && turn.0 < |s.targets| && TargetOK(s.targets[turn.0])
    ensures var s' := SendProbe(c, s, turn, time, outcome);
      && |s'.targets| == |s.targets|
      && s'.targets[turn.0] < 0xffff
      && |s'.probes| == |s.probes| + 1 && s.probes <= s'.probes && Carries(s'.probes[|s.probes|], s'.targets[turn.0])
      && |s'.entries| == |s.entries| + 1 && s'.entries[|s.entries|].request.checksum == s'.targets[turn.0]
      && forall r :: 0 <= r < |s.targets| && (s.targets[r] != NO_TARGET || r != turn.0) ==>
          s'.targets[r] == s.targets[r]
  {
    TurnCarries(c, s, turn, time);
    hide Untweaked, TweakedProbe, Carries, NewEntry;
    NewEntryChecksum(c, s, turn, time, TweakedProbe(Untweaked(c, s, turn, time), s.targets[turn.0]).1, outcome);
  }

  lemma TurnCarries(c: Config, s: Sender, turn: Turn, time: int)
    requires c.Valid() && turn.0 < |s.targets| && TargetOK(s.targets[turn.0])
    ensures c.payloadSize >= MIN_TRACESERVICE_HEADER_SIZE
    ensures var (probe, target) := TweakedProbe(Untweaked(c, s, turn, time), s.targets[turn.0]);
      && Carries(probe, target) && target < 0xffff
      && (s.targets[turn.0] != NO_TARGET ==> target == s.targets[turn.0])
  {
    MessageFields(c, Increment(s.seqNumber), turn.1 % 0x100, turn.0 % 0x100, 0, Wrap64(time - EPOCH), 0);
    hide Message, TweakedProbe, Carries, Get16, Get32, Wrap64;
    ProbeCarriesTarget(Untweaked(c, s, turn, time), s.targets[turn.0]);
    CarriedIsSmall(TweakedProbe(Untweaked(c, s, turn, time), s.targets[turn.0]).0,
                   TweakedProbe(Untweaked(c, s, turn, time), s.targets[turn.0]).1);
  }

  lemma NewEntryChecksum(c: Config, s: Sender, turn: Turn, time: int, target: uint32, outcome: SendOutcome)
    requires target < 0xffff
    ensures NewEntry(c, s, turn, time, target, outcome).request.checksum == target
  {
  }

  lemma TargetsStayOK(c: Config, s: Sender, rest: seq<Turn>, time: int, outcome: SendOutcome)
    requires c.Valid() && TargetsOK(s.targets, rest) && rest != []
    ensures TargetsOK(SendProbe(c, s, rest[0], time, outcome).targets, rest[1..])
  {
    hide SendProbe, Carries;
    SendProbeCarries(c, s, rest[0], time, outcome);
  }

  lemma CarriedIsSmall(probe: seq<byte>, target: uint32)
    requires Carries(probe, target)
    ensures target < 0xffff
  {
  }

  /**
   All probes of one round carry one checksum, the round's final target: the one given, or the one
   of the round's first probe. It is what the entries record, and no target given is changed.
   */
  lemma {:induction false} RoundsShareChecksum(c: Config, s: Sender, plan: seq<Turn>, clock: seq<int>,
                                               outcomes: seq<SendOutcome>)
    requires c.Valid() && TargetsOK(s.targets, plan)
    requires |clock| == |outcomes| == |plan|
    ensures var r := SendAll(c, s, plan, clock, outcomes);
      && |r.targets| == |s.targets|
      && |r.probes| == |s.probes| + |plan| && s.probes <= r.probes
      && (forall k :: 0 <= k < |plan| ==> Carries(r.probes[|s.probes| + k], r.targets[plan[k].0]))
      && |r.entries| == |s.entries| + |plan|
      && (forall k :: 0 <= k < |plan| ==> r.entries[|s.entries| + k].request.checksum == r.targets[plan[k].0])
      && (forall i :: 0 <= i < |s.targets| && s.targets[i] != NO_TARGET ==> r.targets[i] == s.targets[i])
    decreases |plan|
  {
    hide SendProbe, Carries, Records;
    if plan == [] {
    } else {
      var s' := SendProbe(c, s, plan[0], clock[0], outcomes[0]);
      SendProbeCarries(c, s, plan[0], clock[0], outcomes[0]);
      RoundsShareChecksum(c, s', plan[1..], clock[1..], outcomes[1..]);
      OneEntryPerTurn(c, s', plan[1..], clock[1..], outcomes[1..]);
      var r := SendAll(c, s', plan[1..], clock[1..], outcomes[1..]);
      forall k | 0 <= k < |plan|
        ensures Carries(r.probes[|s.probes| + k], r.targets[plan[k].0])
        ensures r.entries[|s.entries| + k].request.checksum == r.targets[plan[k].0]
      {
        if k == 0 {
          assert r.probes[|s.probes|] == s'.probes[|s.probes|] && r.entries[|s.entries|] == s'.entries[|s.entries|];
        } else {
          assert plan[1..][k - 1] == plan[k];
          assert Carries(r.probes[|s'.probes| + (k - 1)], r.targets[plan[1..][k - 1].0]);
          assert r.entries[|s'.entries| + (k - 1)].request.checksum == r.targets[plan[1..][k - 1].0];
        }
      }
    }
  }

  /**
   ICMPv6 adds a pseudo-header of addresses, length and next header (RFC 4443, section 2.3), which is the same for
   all probes of a call. So the probes of a round share their checksum on the wire as well.
   */
  lemma RoundsShareWireChecksum(c: Config, s: Sender, plan: seq<Turn>, clock: seq<int>, outcomes: seq<SendOutcome>,
                                pseudo: seq<byte>, j: nat, k: nat)
    requires c.Valid() && TargetsOK(s.targets, plan) && s.probes == []
    requires |clock| == |outcomes| == |plan| && j < |plan| && k < |plan| && plan[j].0 == plan[k].0
    requires |pseudo| % 2 == 0
    ensures var probes := SendAll(c, s, plan, clock, outcomes).probes;
      && |probes| == |plan| && |probes[j]| > ECHO_CHECKSUM + 1 && |probes[k]| > ECHO_CHECKSUM + 1
      && Checksum(pseudo + Put16(probes[j], ECHO_CHECKSUM, 0)) == Checksum(pseudo + Put16(probes[k], ECHO_CHECKSUM, 0))
  {
    hide SendAll, Checksum, OnesSum, Put16, Get16;
    RoundsShareChecksum(c, s, plan, clock, outcomes);
    var r := SendAll(c, s, plan, clock, outcomes);
    assert Carries(r.probes[|s.probes| + j], r.targets[plan[j].0])
      && Carries(r.probes[|s.probes| + k], r.targets[plan[k].0]);
    SameWithPseudoHeader(pseudo, Put16(r.probes[j], ECHO_CHECKSUM, 0), Put16(r.probes[k], ECHO_CHECKSUM, 0));
  }

  function Successes(outcomes: seq<SendOutcome>): nat {
    if outcomes == [] then 0
    else (if outcomes[0].Success() then 1 else 0) + Successes(outcomes[1..])
  }

  lemma {:induction false} NextKey(first: uint16, n: nat)
    ensures KeyOf(Increment(first), n) == KeyOf(first, n + 1)
  {
    if n > 0 {
      NextKey(first, n - 1);
    } else {
      assert KeyOf(first, 0) == first;
    }
  }

  /** One entry per turn, in order: its round, hop and time, and the next sequence number. */
  ghost predicate Records(e: Entry, c: Config, turn: Turn, seqNumber: uint16, time: int, outcome: SendOutcome) {
    && e.request.roundNumber == Wrap16(turn.0) && e.request.hopNumber == Wrap32(turn.1)
    && e.request.seqNumber == seqNumber && e.sent.application == TimeStamp(SysClock, time)
    && e.request.destination == WithoutScope(c.destination) && e.source == c.localAddress.DropScopeID()
    && e.request.packetSize == c.packetSize && e.request.sourcePort == 0 && e.request.destinationPort == 0
    && IsNew(e, c.destination, time, outcome)
  }

  /** An entry as it is filed: nothing received, unless the request was not sent. */
  ghost predicate IsNew(e: Entry, destination: DestinationInfo, time: int, outcome: SendOutcome) {
    && e.status == (if outcome.Success() then Unknown else SendErrorStatus(outcome.Error()))
    && e.responseSize == 0 && e.hop == destination.address.DropScopeID()
    && e.sent.application == TimeStamp(SysClock, time) && e.sent.software == TimeStamp(SysClock, time)
    && e.sent.hardware == NO_STAMP && e.sent.scheduler == NO_STAMP
    && e.received.application == (if outcome.Success() then NO_STAMP else TimeStamp(SysClock, time))
    && e.received.software == NO_STAMP && e.received.hardware == NO_STAMP
  }

  lemma {:induction false} OneEntryPerTurn(c: Config, s: Sender, plan: seq<Turn>, clock: seq<int>,
                                           outcomes: seq<SendOutcome>)
    requires c.payloadSize >= MIN_TRACESERVICE_HEADER_SIZE && Fits(plan, s.targets)
    requires |clock| == |outcomes| == |plan|
    ensures var r := SendAll(c, s, plan, clock, outcomes);
      && |r.entries| == |s.entries| + |plan| && s.entries <= r.entries
      && (forall k :: 0 <= k < |plan| ==>
            Records(r.entries[|s.entries| + k], c, plan[k], KeyOf(s.seqNumber, k + 1), clock[k], outcomes[k]))
      && r.seqNumber == KeyOf(s.seqNumber, |plan|)
      && r.messagesSent == s.messagesSent + Successes(outcomes)
    decreases |plan|
  {
    hide Records, TweakedProbe, Untweaked, NewEntry;
    if plan == [] {
      assert KeyOf(s.seqNumber, 0) == s.seqNumber;
    } else {
      var s' := SendProbe(c, s, plan[0], clock[0], outcomes[0]);
      var target := TweakedProbe(Untweaked(c, s, plan[0], clock[0]), s.targets[plan[0].0]).1;
      NewEntryRecords(c, s, plan[0], clock[0], target, outcomes[0]);
      OneEntryPerTurn(c, s', plan[1..], clock[1..], outcomes[1..]);
      NextKey(s.seqNumber, |plan| - 1);
      var r := SendAll(c, s', plan[1..], clock[1..], outcomes[1..]);
      forall k | 0 <= k < |plan|
        ensures Records(r.entries[|s.entries| + k], c, plan[k], KeyOf(s.seqNumber, k + 1), clock[k], outcomes[k])
      {
        if k == 0 {
          assert KeyOf(s.seqNumber, 0) == s.seqNumber;
          assert r.entries[|s.entries|] == s'.entries[|s.entries|];
        } else {
          NextKey(s.seqNumber, k);
          assert Records(r.entries[|s'.entries| + (k - 1)], c, plan[1..][k - 1], KeyOf(s'.seqNumber, k),
                         clock[1..][k - 1], outcomes[1..][k - 1]);
        }
      }
    }
  }

  /** Probe k of a call is that of turn k, after k increments of the sequence number, for some target. */
  lemma {:induction false} ProbeOfTurn(c: Config, s: Sender, plan: seq<Turn>, clock: seq<int>,
                                       outcomes: seq<SendOutcome>, k: nat)
    returns (before: Sender, target: uint32)
    requires c.payloadSize >= MIN_TRACESERVICE_HEADER_SIZE && Fits(plan, s.targets)
    requires |clock| == |outcomes| == |plan| && k < |plan|
    ensures var r := SendAll(c, s, plan, clock, outcomes);
      && before.seqNumber == KeyOf(s.seqNumber, k) && |r.probes| == |s.probes| + |plan| && s.probes <= r.probes
      && r.probes[|s.probes| + k] == TweakedProbe(Untweaked(c, before, plan[k], clock[k]), target).0
    decreases |plan|
  {
    hide TweakedProbe, Untweaked, NewEntry;
    var s' := SendProbe(c, s, plan[0], clock[0], outcomes[0]);
    ProbesGrow(c, s', plan[1..], clock[1..], outcomes[1..]);
    if k == 0 {
      before, target := s, s.targets[plan[0].0];
      assert KeyOf(s.seqNumber, 0) == s.seqNumber;
    } else {
      before, target := ProbeOfTurn(c, s', plan[1..], clock[1..], outcomes[1..], k - 1);
      NextKey(s.seqNumber, k - 1);
    }
  }

  /** In every call: what the bytes of probe k say, in terms of its turn. */
  lemma CallProbeSays(c: Config, s: Sender, plan: seq<Turn>, clock: seq<int>, outcomes: seq<SendOutcome>, k: nat)
    requires c.payloadSize >= MIN_TRACESERVICE_HEADER_SIZE && Fits(plan, s.targets) && s.probes == []
    requires |clock| == |outcomes| == |plan| && k < |plan|
    ensures var probes := SendAll(c, s, plan, clock, outcomes).probes;
      && |probes| == |plan|
      && SaysProbe(probes[k], c, KeyOf(s.seqNumber, k + 1), plan[k].1 % 0x100, plan[k].0 % 0x100,
                   Wrap64(clock[k] - 212_803_200_000_000_000))
  {
    hide SendAll, TweakedProbe, Untweaked, SaysProbe, Wrap64;
    var before, target := ProbeOfTurn(c, s, plan, clock, outcomes, k);
    ProbeSays(c, before, plan[k], clock[k], target);
    assert SendAll(c, s, plan, clock, outcomes).probes[|s.probes| + k]
        == SendAll(c, s, plan, clock, outcomes).probes[k];
  }

  lemma {:induction false} ProbesGrow(c: Config, s: Sender, plan: seq<Turn>, clock: seq<int>,
                                      outcomes: seq<SendOutcome>)
    requires c.payloadSize >= MIN_TRACESERVICE_HEADER_SIZE && Fits(plan, s.targets)
    requires |clock| == |outcomes| == |plan|
    ensures var r := SendAll(c, s, plan, clock, outcomes); |r.probes| == |s.probes| + |plan| && s.probes <= r.probes
    decreases |plan|
  {
    hide TweakedProbe, Untweaked, NewEntry;
    if plan == [] {
    } else {
      ProbesGrow(c, SendProbe(c, s, plan[0], clock[0], outcomes[0]), plan[1..], clock[1..], outcomes[1..]);
    }
  }

  lemma NewEntryRecords(c: Config, s: Sender, turn: Turn, time: int, target: uint32, outcome: SendOutcome)
    ensures Records(NewEntry(c, s, turn, time, target, outcome), c, turn, Increment(s.seqNumber), time, outcome)
  {
  }

  ghost predicate StampedEntries(entries: seq<Entry>) {
    forall i :: 0 <= i < |entries| ==> Stamped(entries[i])
  }

  lemma {:induction false} EntriesAreStamped(c: Config, s: Sender, plan: seq<Turn>, clock: seq<int>,
                                             outcomes: seq<SendOutcome>)
    requires c.payloadSize >= MIN_TRACESERVICE_HEADER_SIZE && Fits(plan, s.targets)
    requires |clock| == |outcomes| == |plan|
    requires forall i :: 0 <= i < |clock| ==> clock[i] > 0
    requires StampedEntries(s.entries)
    ensures StampedEntries(SendAll(c, s, plan, clock, outcomes).entries)
    decreases |plan|
  {
    hide TweakedProbe, Untweaked, Stamped, NewEntry;
    if plan == [] {
    } else {
      var target := TweakedProbe(Untweaked(c, s, plan[0], clock[0]), s.targets[plan[0].0]).1;
      NewEntryIsStamped(c, s, plan[0], clock[0], target, outcomes[0]);
      EntriesAreStamped(c, SendProbe(c, s, plan[0], clock[0], outcomes[0]), plan[1..], clock[1..], outcomes[1..]);
    }
  }

  lemma NewEntryIsStamped(c: Config, s: Sender, turn: Turn, time: int, target: uint32, outcome: SendOutcome)
    requires time > 0
    ensures Stamped(NewEntry(c, s, turn, time, target, outcome))
  {
    assert SendErrorStatus(outcome.Error()) != Unknown;
  }

  /**
   In every reachable state whose live entries stem from the last 65536 - n allocations, a call of n
   turns is a run of insertions: no assure on the map fires.
   */
  lemma CallIsRun(w: World, c: Config, s: Sender, plan: seq<Turn>, clock: seq<int>, outcomes: seq<SendOutcome>)
    requires c.payloadSize >= MIN_TRACESERVICE_HEADER_SIZE && Fits(plan, s.targets) && s.entries == []
    requires |clock| == |outcomes| == |plan| <= 0x1_0000
    requires forall i :: 0 <= i < |clock| ==> clock[i] > 0
    requires Invariant(w) && s.seqNumber == KeyOf(w.first, w.allocations)
    requires forall k :: k in w.table ==> w.allocations - (0x1_0000 - |plan|) < w.born[k]
    ensures var entries := SendAll(c, s, plan, clock, outcomes).entries;
            |entries| == |plan| && IsRun(w, Inserts(entries), InsertAll(w, entries))
  {
    hide SendProbe, Stamped, IsRun, Invariant;
    var entries := SendAll(c, s, plan, clock, outcomes).entries;
    OneEntryPerTurn(c, s, plan, clock, outcomes);
    EntriesAreStamped(c, s, plan, clock, outcomes);
    FreshKeys(w, |plan|);
    forall i | 0 <= i < |entries|
      ensures entries[i].request.seqNumber == KeyOf(w.first, w.allocations + 1 + i)
        && entries[i].request.seqNumber !in w.table
    {
      assert Records(entries[|s.entries| + i], c, plan[i], KeyOf(s.seqNumber, i + 1), clock[i], outcomes[i]);
      KeysAdd(w.first, w.allocations, i + 1);
    }
    InsertsRun(w, entries);
  }

  lemma {:induction false} KeysAdd(first: uint16, a: nat, b: nat)
    ensures KeyOf(KeyOf(first, a), b) == KeyOf(first, a + b)
  {
    if b > 0 {
      KeysAdd(first, a, b - 1);
    } else {
      assert KeyOf(KeyOf(first, a), 0) == KeyOf(first, a);
    }
  }
}
