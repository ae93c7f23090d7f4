/**
 The life cycle of requests: sends, kernel time stamps, replies and time-outs in any order, on the
 map of results keyed by a wrapping 16-bit sequence number.
 */
module LifeCycle {
  import opened Wrappers
  import opened Words
  import opened Addresses
  import opened ResultEntries
  import opened TimeStamps

  type Table = map<uint16, Entry>

  // ----- Kernel time stamps of sent packets -----

  datatype Stamp = Stamp(seconds: int, nanoseconds: nat) {
    ghost predicate Valid() { nanoseconds < 1_000_000_000 }

    predicate IsSet() { seconds != 0 }

    function Time(): int { 1_000_000_000 * seconds + nanoseconds }
  }

  datatype TxInfo = Sent | Scheduled | OtherInfo

  function TxStamped(e: Entry, info: TxInfo, software: Stamp, hardware: Stamp): Entry {
    if software.IsSet() && info.Scheduled?
        then e.(sent := e.sent.With(Scheduler, TimeStamp(TimestampingSW, software.Time())))
    else if software.IsSet() && info.Sent?
        then e.(sent := e.sent.With(Software, TimeStamp(TimestampingSW, software.Time())))
    else if !software.IsSet() && hardware.IsSet() && info.Sent? then 
      e.(sent := e.sent.With(Hardware, TimeStamp(TimestampingHW, hardware.Time())))
    else e
  }

  /** The map is searched in key order; the first entry with the ID is taken. */
  function FirstWithID(table: Table, id: uint32, from: nat): (r: Option<uint16>)
    requires from <= 0x1_0000
    ensures r.Some? ==> from <= r.value && r.value in table && table[r.value].request.timeStampSeqID == id
    ensures r.Some? ==> forall k: uint16 :: k in table && from <= k < r.value ==> table[k].request.timeStampSeqID != id
    ensures r.None? ==> forall k: uint16 :: k in table && from <= k ==> table[k].request.timeStampSeqID != id
    decreases 0x1_0000 - from
  {
    if from == 0x1_0000 then None
    else if from in table && table[from].request.timeStampSeqID == id then Some(from)
    else FirstWithID(table, id, from + 1)
  }

  function UpdateSendTime(table: Table, id: uint32, info: TxInfo, software: Stamp, hardware: Stamp): Table {
    match FirstWithID(table, id, 0)
    case None => table
    case Some(key) => table[key := TxStamped(table[key], info, software, hardware)]
  }

  // ----- Replies -----

  const ICMP_ECHO_REPLY := 0
  const ICMP_UNREACH := 3
  const ICMP_TIME_EXCEEDED := 11
  const ICMP6_UNREACH := 1
  const ICMP6_TIME_EXCEEDED := 3
  const ICMP6_ECHO_REPLY := 129

  function UnreachableStatusV6(code: byte): HopStatus {
    if code == 1 then UnreachableProhibited
    else if code == 2 then UnreachableScope
    else if code == 0 then UnreachableNetwork
    else if code == 3 then UnreachableHost
    else if code == 4 then UnreachablePort
    else UnreachableUnknown
  }

  function UnreachableStatusV4(code: byte): HopStatus {
    if code == 13 then UnreachableProhibited
    else if code == 0 || code == 6 then UnreachableNetwork
    else if code == 1 || code == 7 then UnreachableHost
    else if code == 3 then UnreachablePort
    else UnreachableUnknown
  }

  function ReplyStatus(isV6: bool, icmpType: byte, icmpCode: byte): HopStatus {
    if icmpType == 0 && icmpCode == 0 then Success
    else if isV6 then
      if icmpType == ICMP6_TIME_EXCEEDED then TimeExceeded
      else if icmpType == ICMP6_UNREACH then UnreachableStatusV6(icmpCode)
      else if icmpType == ICMP6_ECHO_REPLY then Success
      else Unknown
    else
      if icmpType == ICMP_TIME_EXCEEDED then TimeExceeded
      else if icmpType == ICMP_UNREACH then UnreachableStatusV4(icmpCode)
      else if icmpType == ICMP_ECHO_REPLY then Success
      else Unknown
  }

  datatype ReceivedData = ReceivedData(
    source: Address,
    destination: Address,
    reply: Address,
    applicationReceiveTime: int,
    software: TimeStamp,
    hardware: TimeStamp)

  predicate Mismatch(received: Address, known: Address) {
    !received.IsUnspecified() && !known.IsUnspecified() && received != known
  }

  predicate AddressesMatch(e: Entry, data: ReceivedData) {
    !Mismatch(data.source, e.source) && !Mismatch(data.destination, e.request.destination.address)
  }

  function WithReply(e: Entry, isV6: bool, data: ReceivedData, icmpType: byte, icmpCode: byte, length: uint32): Entry {
    var known := if e.source.IsUnspecified() && !data.source.IsUnspecified() then e.(source := data.source) else e;
    if e.status != Unknown then known
    else
      known.(responseSize := length, hop := data.reply.DropScopeID(), status := ReplyStatus(isV6, icmpType, icmpCode),
             received := ReceiveStamps(TimeStamp(SysClock, data.applicationReceiveTime), data.software, data.hardware))
  }

  predicate Accepted(table: Table, key: uint16, data: ReceivedData) {
    key in table && AddressesMatch(table[key], data)
  }

  function RecordResult(table: Table, isV6: bool, data: ReceivedData, icmpType: byte, icmpCode: byte,
                        key: uint16, length: uint32): Table {
    if Accepted(table, key, data) then table[key := WithReply(table[key], isV6, data, icmpType, icmpCode, length)]
    else table
  }

  // ----- Time-outs and completion -----

  /** C++ division of a signed count: truncation toward zero. */
  function TruncatedMilliseconds(ns: int): int {
    if ns >= 0 then ns / NS_PER_MS else -(-ns / NS_PER_MS)
  }

  function TimedOut(e: Entry, now: int, expiration: nat): Entry {
    if e.status == Unknown && TruncatedMilliseconds(now - e.sent.application.time) >= expiration
    then Expired(e, expiration)
    else e
  }

  // ----- The state machine -----

  /**
   `first` is the sequence number before the first allocation; `born` numbers the allocations.
   `reported` are the entries written to the results, `notified` those passed to the callback.
   */
  datatype World = World(
    first: uint16,
    table: Table,
    born: map<uint16, nat>,
    allocations: nat,
    reported: seq<(nat, Entry)>,
    notified: seq<nat>)

  /** uint16_t increment. */
  function Increment(n: uint16): uint16 { if n == 0xffff then 0 else n + 1 }

  /** The sequence number after so many increments. */
  function KeyOf(first: uint16, allocation: nat): uint16 {
    if allocation == 0 then first else Increment(KeyOf(first, allocation - 1))
  }

  datatype Event =
    | Insert(entry: Entry)
    | TxStamp(id: uint32, info: TxInfo, software: Stamp, hardware: Stamp)
    | Reply(isV6: bool, data: ReceivedData, icmpType: byte, icmpCode: byte, key: uint16, length: uint32)
    | Handle(handled: uint16, now: int, expiration: nat)

  ghost predicate HandledType(isV6: bool, icmpType: byte, icmpCode: byte) {
    || (icmpType == 0 && icmpCode == 0)
    || (isV6 && icmpType in {ICMP6_UNREACH, ICMP6_TIME_EXCEEDED, ICMP6_ECHO_REPLY})
    || (!isV6 && icmpType in {ICMP_ECHO_REPLY, ICMP_UNREACH, ICMP_TIME_EXCEEDED})
  }

  ghost predicate StampedData(data: ReceivedData) {
    && data.applicationReceiveTime > 0
    && SoftwareStampSet(data.software)
    && data.hardware.source in {NoSource, TimestampingHW} && StampSet(data.hardware)
  }

  ghost predicate InsertEnabled(w: World, e: Entry) {
    Stamped(e) && e.request.seqNumber == KeyOf(w.first, w.allocations + 1) && e.request.seqNumber !in w.table
  }

  /** Inserting demands a free key, or the program's assure fails; the rest the environment grants. */
  ghost predicate Enabled(w: World, event: Event) {
    match event
    case Insert(e) => InsertEnabled(w, e)
    case TxStamp(_, _, software, hardware) => software.Valid() && hardware.Valid()
    case Reply(isV6, data, icmpType, icmpCode, _, _) => StampedData(data) && HandledType(isV6, icmpType, icmpCode)
    case Handle(key, _, _) => key in w.table
  }

  ghost function InsertStep(w: World, e: Entry): World {
    var key := e.request.seqNumber;
    w.(table := w.table[key := e], born := w.born[key := w.allocations + 1], allocations := w.allocations + 1)
  }

  ghost function ReplyStep(w: World, isV6: bool, data: ReceivedData, icmpType: byte, icmpCode: byte,
                           key: uint16, length: uint32): World
    requires w.table.Keys == w.born.Keys
  {
    w.(table := RecordResult(w.table, isV6, data, icmpType, icmpCode, key, length),
       notified := if Accepted(w.table, key, data) && w.table[key].status == Unknown
                   then w.notified + [w.born[key]] else w.notified)
  }

  ghost function HandleStep(w: World, key: uint16, now: int, expiration: nat): World
    requires key in w.table && w.table.Keys == w.born.Keys
  {
    var e := TimedOut(w.table[key], now, expiration);
    if e.status == Unknown then w
    else w.(table := w.table - {key}, born := w.born - {key}, reported := w.reported + [(w.born[key], e)])
  }

  ghost function Step(w: World, event: Event): World
    requires w.table.Keys == w.born.Keys && Enabled(w, event)
  {
    match event
    case Insert(e) => InsertStep(w, e)
    case TxStamp(id, info, software, hardware) =>
      w.(table := UpdateSendTime(w.table, id, info, software, hardware))
    case Reply(isV6, data, icmpType, icmpCode, key, length) =>
      ReplyStep(w, isV6, data, icmpType, icmpCode, key, length)
    case Handle(key, now, expiration) => HandleStep(w, key, now, expiration)
  }

  /** Live entries sit under their own sequence number, and stem from the last 65536 allocations. */
  ghost predicate KeysNumbered(first: uint16, table: Table, born: map<uint16, nat>, allocations: nat) {
    && table.Keys == born.Keys
    && forall k :: k in table ==>
         && table[k].request.seqNumber == k == KeyOf(first, born[k])
         && allocations - 0x1_0000 < born[k] <= allocations && 1 <= born[k]
  }

  /** Every report is of an allocation of its own, which is not live any more. */
  ghost predicate ReportsNumbered(born: map<uint16, nat>, allocations: nat, reported: seq<(nat, Entry)>) {
    && (forall i :: 0 <= i < |reported| ==> 1 <= reported[i].0 <= allocations && reported[i].1.status != Unknown)
    && (forall i, k :: 0 <= i < |reported| && k in born ==> born[k] != reported[i].0)
    && (forall i, j :: 0 <= i < j < |reported| ==> reported[i].0 != reported[j].0)
  }

  ghost predicate AllStamped(table: Table, reported: seq<(nat, Entry)>) {
    && (forall k :: k in table ==> Stamped(table[k]))
    && (forall i :: 0 <= i < |reported| ==> Stamped(reported[i].1))
  }

  ghost predicate Invariant(w: World) {
    && KeysNumbered(w.first, w.table, w.born, w.allocations)
    && ReportsNumbered(w.born, w.allocations, w.reported)
    && AllStamped(w.table, w.reported)
    && w.allocations == |w.reported| + |w.table|
  }

  function Start(first: uint16): World { World(first, map[], map[], 0, [], []) }

  // ----- One step -----

  lemma {:induction false} KeyWraps(first: uint16, allocation: nat)
    ensures KeyOf(first, allocation) == Wrap16(first + allocation)
  {
    if allocation == 0 {
    } else {
      KeyWraps(first, allocation - 1);
    }
  }

  /** Allocations less than 131072 apart share a key exactly if they are 0 or 65536 apart. */
  lemma SameKey(first: uint16, a: nat, b: nat)
    requires a <= b < a + 0x2_0000
    ensures KeyOf(first, a) == KeyOf(first, b) <==> b == a || b == a + 0x1_0000
  {
    hide Wrap16;
    KeyWraps(first, a);
    KeyWraps(first, b);
    SameRemainder(first + a, first + b);
  }

  lemma SameRemainder(x: nat, y: nat)
    requires x <= y < x + 0x2_0000
    ensures Wrap16(x) == Wrap16(y) <==> y == x || y == x + 0x1_0000
  {
    var q, r := x / 0x1_0000, x % 0x1_0000;
    var q', r' := y / 0x1_0000, y % 0x1_0000;
    assert x == 0x1_0000 * q + r && y == 0x1_0000 * q' + r';
    assert y - x == 0x1_0000 * (q' - q) + (r' - r);
  }

  lemma TxStampedIsStamped(e: Entry, info: TxInfo, software: Stamp, hardware: Stamp)
    requires Stamped(e) && software.Valid() && hardware.Valid()
    ensures var t := TxStamped(e, info, software, hardware);
            Stamped(t) && t.request == e.request && t.status == e.status
  {
    assert software.IsSet() ==> software.Time() != UNSET;
    assert hardware.IsSet() ==> hardware.Time() != UNSET;
  }

  lemma WithReplyIsStamped(e: Entry, isV6: bool, data: ReceivedData, icmpType: byte, icmpCode: byte, length: uint32)
    requires Stamped(e) && StampedData(data) && HandledType(isV6, icmpType, icmpCode)
    ensures var r := WithReply(e, isV6, data, icmpType, icmpCode, length);
            Stamped(r) && r.request == e.request && r.status != Unknown
              && (e.status != Unknown ==> r.status == e.status)
  {
    KnownStatus(isV6, icmpType, icmpCode);
  }

  /** Exactly the types the payload handlers pass on have a status. */
  lemma KnownStatus(isV6: bool, icmpType: byte, icmpCode: byte)
    ensures ReplyStatus(isV6, icmpType, icmpCode) != Unknown <==> HandledType(isV6, icmpType, icmpCode)
  {
  }

  lemma TimedOutIsStamped(e: Entry, now: int, expiration: nat)
    requires Stamped(e)
    ensures Stamped(TimedOut(e, now, expiration))
    ensures e.status != Unknown ==> TimedOut(e, now, expiration).status == e.status
  {
  }

  lemma AddKey<V>(m: map<uint16, V>, k: uint16, v: V)
    requires k !in m
    ensures |m[k := v]| == |m| + 1
  {
    assert m[k := v].Keys == m.Keys + {k};
  }

  lemma RemoveKey<V>(m: map<uint16, V>, k: uint16)
    requires k in m
    ensures |m - {k}| == |m| - 1
  {
    assert (m - {k}).Keys == m.Keys - {k};
  }

  lemma InsertKeeps(w: World, e: Entry)
    requires Invariant(w) && InsertEnabled(w, e)
    ensures Invariant(InsertStep(w, e))
  {
    hide Stamped, KeysNumbered, ReportsNumbered, AllStamped;
    var key := e.request.seqNumber;
    InsertNumbered(w.first, w.table, w.born, w.allocations, e);
    InsertReports(w.born, w.allocations, w.reported, key);
    InsertStamped(w.table, w.reported, key, e);
    AddKey(w.table, key, e);
  }

  lemma InsertStamped(table: Table, reported: seq<(nat, Entry)>, key: uint16, e: Entry)
    requires AllStamped(table, reported) && Stamped(e)
    ensures AllStamped(table[key := e], reported)
  {
    hide Stamped;
  }

  lemma InsertReports(born: map<uint16, nat>, allocations: nat, reported: seq<(nat, Entry)>, key: uint16)
    requires ReportsNumbered(born, allocations, reported)
    ensures ReportsNumbered(born[key := allocations + 1], allocations + 1, reported)
  {
  }

  lemma InsertNumbered(first: uint16, table: Table, born: map<uint16, nat>, allocations: nat, e: Entry)
    requires KeysNumbered(first, table, born, allocations)
    requires e.request.seqNumber == KeyOf(first, allocations + 1) && e.request.seqNumber !in table
    ensures KeysNumbered(first, table[e.request.seqNumber := e], born[e.request.seqNumber := allocations + 1],
                         allocations + 1)
  {
    forall k | k in table ensures allocations + 1 - 0x1_0000 < born[k] {
      SameKey(first, born[k], allocations + 1);
    }
  }

  lemma UpdateNumbered(first: uint16, table: Table, born: map<uint16, nat>, allocations: nat, key: uint16, e: Entry)
    requires KeysNumbered(first, table, born, allocations) && key in table && e.request == table[key].request
    ensures KeysNumbered(first, table[key := e], born, allocations) && |table[key := e]| == |table|
  {
    assert table[key := e].Keys == table.Keys;
  }

  /** A live entry changes its value, but not its request. */
  lemma UpdateKeeps(w: World, key: uint16, e: Entry, notified: seq<nat>)
    requires Invariant(w) && key in w.table && e.request == w.table[key].request && Stamped(e)
    ensures Invariant(w.(table := w.table[key := e], notified := notified))
  {
    hide Stamped, KeysNumbered, ReportsNumbered, AllStamped;
    UpdateNumbered(w.first, w.table, w.born, w.allocations, key, e);
    InsertStamped(w.table, w.reported, key, e);
  }

  lemma TxStampKeeps(w: World, id: uint32, info: TxInfo, software: Stamp, hardware: Stamp)
    requires Invariant(w) && software.Valid() && hardware.Valid()
    ensures Invariant(w.(table := UpdateSendTime(w.table, id, info, software, hardware)))
  {
    hide TxStamped, KeysNumbered, ReportsNumbered;
    var found := FirstWithID(w.table, id, 0);
    if found.Some? {
      TxStampedIsStamped(w.table[found.value], info, software, hardware);
      UpdateKeeps(w, found.value, TxStamped(w.table[found.value], info, software, hardware), w.notified);
    }
  }

  lemma ReplyKeeps(w: World, isV6: bool, data: ReceivedData, icmpType: byte, icmpCode: byte, key: uint16,
                   length: uint32)
    requires Invariant(w) && StampedData(data) && HandledType(isV6, icmpType, icmpCode)
    ensures Invariant(ReplyStep(w, isV6, data, icmpType, icmpCode, key, length))
  {
    if Accepted(w.table, key, data) {
      WithReplyIsStamped(w.table[key], isV6, data, icmpType, icmpCode, length);
      UpdateKeeps(w, key, WithReply(w.table[key], isV6, data, icmpType, icmpCode, length),
                  ReplyStep(w, isV6, data, icmpType, icmpCode, key, length).notified);
    }
  }

  lemma HandleKeeps(w: World, key: uint16, now: int, expiration: nat)
    requires Invariant(w) && key in w.table
    ensures Invariant(HandleStep(w, key, now, expiration))
  {
    assert key in w.born;
    hide Stamped, TimedOut, KeysNumbered, ReportsNumbered, AllStamped;
    var e := TimedOut(w.table[key], now, expiration);
    if e.status != Unknown {
      StampedIn(w.table, w.reported, key);
      TimedOutIsStamped(w.table[key], now, expiration);
      RemoveStamped(w.table, w.reported, key, (w.born[key], e));
      RemoveNumbered(w.first, w.table, w.born, w.allocations, w.reported, key, e);
      RemoveKey(w.table, key);
    }
  }

  lemma StampedIn(table: Table, reported: seq<(nat, Entry)>, key: uint16)
    requires AllStamped(table, reported) && key in table
    ensures Stamped(table[key])
  {
    hide Stamped;
  }

  lemma RemoveStamped(table: Table, reported: seq<(nat, Entry)>, key: uint16, report: (nat, Entry))
    requires AllStamped(table, reported) && Stamped(report.1)
    ensures AllStamped(table - {key}, reported + [report])
  {
    hide Stamped;
  }

  lemma RemoveNumbered(first: uint16, table: Table, born: map<uint16, nat>, allocations: nat,
                       reported: seq<(nat, Entry)>, key: uint16, e: Entry)
    requires KeysNumbered(first, table, born, allocations) && ReportsNumbered(born, allocations, reported)
    requires key in table && e.status != Unknown
    ensures KeysNumbered(first, table - {key}, born - {key}, allocations)
    ensures ReportsNumbered(born - {key}, allocations, reported + [(born[key], e)])
  {
  }

  lemma StepKeepsInvariant(w: World, event: Event)
    requires Invariant(w) && Enabled(w, event)
    ensures Invariant(Step(w, event))
  {
    match event
    case Insert(e) => InsertKeeps(w, e);
    case TxStamp(id, info, software, hardware) => TxStampKeeps(w, id, info, software, hardware);
    case Reply(isV6, data, icmpType, icmpCode, key, length) =>
      ReplyKeeps(w, isV6, data, icmpType, icmpCode, key, length);
    case Handle(key, now, expiration) => HandleKeeps(w, key, now, expiration);
  }

  // ----- Whole runs: any interleaving of sends, time stamps, replies and time-outs -----

  ghost predicate IsRun(w: World, events: seq<Event>, w': World)
    decreases |events|
  {
    if events == [] then w' == w
    else w.table.Keys == w.born.Keys && Enabled(w, events[0]) && IsRun(Step(w, events[0]), events[1..], w')
  }

  /** Conservation: every allocation is live or reported, and each is reported at most once. */
  lemma {:induction false} RunKeepsInvariant(w: World, events: seq<Event>, w': World)
    requires Invariant(w) && IsRun(w, events, w')
    ensures Invariant(w')
    decreases |events|
  {
    if events == [] {
    } else {
      StepKeepsInvariant(w, events[0]);
      RunKeepsInvariant(Step(w, events[0]), events[1..], w');
    }
  }

  lemma {:induction false} RunsJoin(w: World, before: seq<Event>, between: World, after: seq<Event>, w': World)
    requires IsRun(w, before, between) && IsRun(between, after, w')
    ensures IsRun(w, before + after, w')
    decreases |before|
  {
    hide Enabled, Step;
    if before == [] {
      assert before + after == after;
    } else {
      assert (before + after)[1..] == before[1..] + after;
      RunsJoin(Step(w, before[0]), before[1..], between, after, w');
    }
  }

  lemma StartIsInvariant(first: uint16)
    ensures Invariant(Start(first))
  {
  }

  /** The allocation `id` is live or reported with status s. */
  ghost predicate HasStatus(w: World, id: nat, s: HopStatus) {
    || (exists k :: k in w.born && k in w.table && w.born[k] == id && w.table[k].status == s)
    || (exists i :: 0 <= i < |w.reported| && w.reported[i].0 == id && w.reported[i].1.status == s)
  }

  lemma BornOnce(first: uint16, table: Table, born: map<uint16, nat>, allocations: nat, k: uint16, m: uint16)
    requires KeysNumbered(first, table, born, allocations) && k in table && m in table && born[k] == born[m]
    ensures k == m
  {
  }

  lemma StatusUnique(w: World, id: nat, s: HopStatus, t: HopStatus)
    requires Invariant(w) && HasStatus(w, id, s) && HasStatus(w, id, t)
    ensures s == t
  {
    hide Stamped, AllStamped, KeysNumbered;
    if k :| k in w.born && k in w.table && w.born[k] == id && w.table[k].status == s {
      if m :| m in w.born && m in w.table && w.born[m] == id && w.table[m].status == t {
        BornOnce(w.first, w.table, w.born, w.allocations, k, m);
      }
    }
  }

  lemma UpdateKeepsStatus(w: World, key: uint16, e: Entry, notified: seq<nat>, id: nat, s: HopStatus)
    requires w.table.Keys == w.born.Keys && key in w.table
    requires w.table[key].status != Unknown ==> e.status == w.table[key].status
    requires HasStatus(w, id, s) && s != Unknown
    ensures HasStatus(w.(table := w.table[key := e], notified := notified), id, s)
  {
    var w' := w.(table := w.table[key := e], notified := notified);
    if k :| k in w.born && k in w.table && w.born[k] == id && w.table[k].status == s {
      assert k in w'.born && k in w'.table && w'.born[k] == id && w'.table[k].status == s;
    }
  }

  lemma HandleKeepsStatus(w: World, key: uint16, now: int, expiration: nat, id: nat, s: HopStatus)
    requires w.table.Keys == w.born.Keys && key in w.table
    requires HasStatus(w, id, s) && s != Unknown
    ensures HasStatus(HandleStep(w, key, now, expiration), id, s)
  {
    var w' := HandleStep(w, key, now, expiration);
    if k :| k in w.born && k in w.table && w.born[k] == id && w.table[k].status == s {
      if k == key {
        assert w'.reported[|w.reported|] == (id, w.table[k]);
      } else {
        assert k in w'.born && k in w'.table && w'.born[k] == id && w'.table[k].status == s;
      }
    } else {
      var i :| 0 <= i < |w.reported| && w.reported[i].0 == id && w.reported[i].1.status == s;
      assert w'.reported[i] == w.reported[i];
    }
  }

  lemma InsertKeepsStatus(w: World, e: Entry, id: nat, s: HopStatus)
    requires w.table.Keys == w.born.Keys && e.request.seqNumber !in w.table
    requires HasStatus(w, id, s)
    ensures HasStatus(InsertStep(w, e), id, s)
  {
    var w' := InsertStep(w, e);
    if k :| k in w.born && k in w.table && w.born[k] == id && w.table[k].status == s {
      assert k in w'.born && k in w'.table && w'.born[k] == id && w'.table[k].status == s;
    }
  }

  lemma StepKeepsStatus(w: World, event: Event, id: nat, s: HopStatus)
    requires w.table.Keys == w.born.Keys && Enabled(w, event)
    requires HasStatus(w, id, s) && s != Unknown
    ensures HasStatus(Step(w, event), id, s)
  {
    hide HasStatus;
    match event
    case Insert(e) => InsertKeepsStatus(w, e, id, s);
    case TxStamp(stamp, info, software, hardware) =>
      var found := FirstWithID(w.table, stamp, 0);
      if found.Some? {
        UpdateKeepsStatus(w, found.value, TxStamped(w.table[found.value], info, software, hardware), w.notified, id, s);
      }
    case Reply(isV6, data, icmpType, icmpCode, key, length) =>
      if Accepted(w.table, key, data) {
        UpdateKeepsStatus(w, key, WithReply(w.table[key], isV6, data, icmpType, icmpCode, length),
                          Step(w, event).notified, id, s);
      }
    case Handle(key, now, expiration) => HandleKeepsStatus(w, key, now, expiration, id, s);
  }

  /** A result is final: once an entry's status is known, no later event changes it. */
  lemma {:induction false} StatusIsFinal(w: World, events: seq<Event>, w': World, id: nat, s: HopStatus)
    requires Invariant(w) && IsRun(w, events, w')
    requires HasStatus(w, id, s) && s != Unknown
    ensures HasStatus(w', id, s)
    ensures forall t :: HasStatus(w', id, t) ==> t == s
    decreases |events|
  {
    hide HasStatus, Invariant;
    if events == [] {
      forall t | HasStatus(w', id, t) ensures t == s {
        StatusUnique(w', id, s, t);
      }
    } else {
      StepKeepsInvariant(w, events[0]);
      StepKeepsStatus(w, events[0], id, s);
      StatusIsFinal(Step(w, events[0]), events[1..], w', id, s);
    }
  }

  ghost predicate Live(w: World, id: nat) { exists k :: k in w.born && w.born[k] == id }

  ghost predicate Reported(w: World, id: nat) { exists i :: 0 <= i < |w.reported| && w.reported[i].0 == id }

  lemma StepAccounts(w: World, event: Event, id: nat)
    requires w.table.Keys == w.born.Keys && Enabled(w, event)
    requires (id == w.allocations + 1 && event.Insert?) || Live(w, id) || Reported(w, id)
    ensures Live(Step(w, event), id) || Reported(Step(w, event), id)
  {
    var w' := Step(w, event);
    if Live(w, id) {
      var k :| k in w.born && w.born[k] == id;
      if event.Handle? && event.handled == k && k !in w'.born {
        assert w'.reported[|w.reported|].0 == id;
      } else {
        assert k in w'.born && w'.born[k] == id;
      }
    } else if Reported(w, id) {
      var i :| 0 <= i < |w.reported| && w.reported[i].0 == id;
      assert w'.reported[i] == w.reported[i];
    } else {
      assert w'.born[event.entry.request.seqNumber] == id;
    }
  }

  /** No request is ever lost: in every run from the start, each allocation is live or has been reported. */
  lemma {:induction false} NothingIsLost(w: World, events: seq<Event>, w': World, id: nat)
    requires IsRun(w, events, w') && forall a: nat :: 1 <= a <= w.allocations ==> Live(w, a) || Reported(w, a)
    requires 1 <= id <= w'.allocations
    ensures Live(w', id) || Reported(w', id)
    decreases |events|
  {
    if events == [] {
    } else {
      var next := Step(w, events[0]);
      forall a: nat | 1 <= a <= next.allocations ensures Live(next, a) || Reported(next, a) {
        StepAccounts(w, events[0], a);
      }
      NothingIsLost(next, events[1..], w', id);
    }
  }

  /** Reports are only ever appended, in the order of completion. */
  lemma {:induction false} ReportsOnlyGrow(w: World, events: seq<Event>, w': World)
    requires IsRun(w, events, w')
    ensures w.reported <= w'.reported
    decreases |events|
  {
    if events == [] {
    } else {
      assert w.reported <= Step(w, events[0]).reported;
      ReportsOnlyGrow(Step(w, events[0]), events[1..], w');
    }
  }

  /** The new-result callback fires at most once per entry, and only for entries with a known status. */
  ghost predicate NotifiedOnce(table: Table, born: map<uint16, nat>, allocations: nat, notified: seq<nat>) {
    && (forall i, j :: 0 <= i < j < |notified| ==> notified[i] != notified[j])
    && (forall i :: 0 <= i < |notified| ==> 1 <= notified[i] <= allocations)
    && (forall i, k :: 0 <= i < |notified| && k in born && k in table && born[k] == notified[i] ==>
        table[k].status != Unknown)
  }

  lemma UpdateNotifiesOnce(table: Table, born: map<uint16, nat>, allocations: nat, notified: seq<nat>, key: uint16,
                           e: Entry)
    requires NotifiedOnce(table, born, allocations, notified) && key in table
    requires table[key].status != Unknown ==> e.status == table[key].status
    ensures NotifiedOnce(table[key := e], born, allocations, notified)
  {
  }

  lemma ReplyNotifiesOnce(first: uint16, table: Table, born: map<uint16, nat>, allocations: nat, notified: seq<nat>,
                          key: uint16, e: Entry)
    requires KeysNumbered(first, table, born, allocations) && NotifiedOnce(table, born, allocations, notified)
    requires key in table && table[key].status == Unknown && e.status != Unknown
    ensures NotifiedOnce(table[key := e], born, allocations, notified + [born[key]])
  {
    forall k | k in table && born[k] == born[key] ensures k == key {
      BornOnce(first, table, born, allocations, k, key);
    }
  }

  lemma StepNotifiesOnce(w: World, event: Event)
    requires Invariant(w) && NotifiedOnce(w.table, w.born, w.allocations, w.notified) && Enabled(w, event)
    ensures var w' := Step(w, event); NotifiedOnce(w'.table, w'.born, w'.allocations, w'.notified)
  {
    hide Stamped, AllStamped, ReportsNumbered;
    match event
    case Insert(e) =>
    case TxStamp(id, info, software, hardware) =>
      var found := FirstWithID(w.table, id, 0);
      if found.Some? {
        UpdateNotifiesOnce(w.table, w.born, w.allocations, w.notified, found.value,
                           TxStamped(w.table[found.value], info, software, hardware));
      }
    case Reply(isV6, data, icmpType, icmpCode, key, length) =>
      ReplyStepNotifiesOnce(w, isV6, data, icmpType, icmpCode, key, length);
    case Handle(key, now, expiration) =>
  }

  lemma ReplyStepNotifiesOnce(w: World, isV6: bool, data: ReceivedData, icmpType: byte, icmpCode: byte,
                              key: uint16, length: uint32)
    requires KeysNumbered(w.first, w.table, w.born, w.allocations) && HandledType(isV6, icmpType, icmpCode)
    requires NotifiedOnce(w.table, w.born, w.allocations, w.notified)
    ensures var w' := ReplyStep(w, isV6, data, icmpType, icmpCode, key, length);
            NotifiedOnce(w'.table, w'.born, w'.allocations, w'.notified)
  {
    if Accepted(w.table, key, data) {
      KnownStatus(isV6, icmpType, icmpCode);
      var e := WithReply(w.table[key], isV6, data, icmpType, icmpCode, length);
      if w.table[key].status == Unknown {
        ReplyNotifiesOnce(w.first, w.table, w.born, w.allocations, w.notified, key, e);
      } else {
        UpdateNotifiesOnce(w.table, w.born, w.allocations, w.notified, key, e);
      }
    }
  }

  lemma {:induction false} RunNotifiesOnce(w: World, events: seq<Event>, w': World)
    requires Invariant(w) && NotifiedOnce(w.table, w.born, w.allocations, w.notified) && IsRun(w, events, w')
    ensures NotifiedOnce(w'.table, w'.born, w'.allocations, w'.notified)
    decreases |events|
  {
    hide NotifiedOnce;
    if events == [] {
    } else {
      StepKeepsInvariant(w, events[0]);
      StepNotifiesOnce(w, events[0]);
      RunNotifiesOnce(Step(w, events[0]), events[1..], w');
    }
  }

  // ----- The wrapping sequence number -----

  /**
   In every reachable state, the next n allocations find free keys exactly if all live entries
   stem from the last 65536 - n allocations.
   */
  lemma FreshKeys(w: World, n: nat)
    requires Invariant(w) && n <= 0x1_0000
    ensures (forall a: nat :: w.allocations < a <= w.allocations + n ==> KeyOf(w.first, a) !in w.table)
       <==> (forall k :: k in w.table ==> w.allocations - (0x1_0000 - n) < w.born[k])
  {
    hide Stamped, AllStamped, ReportsNumbered, KeyOf;
    if a: nat :| w.allocations < a <= w.allocations + n && KeyOf(w.first, a) in w.table {
      SameKey(w.first, w.born[KeyOf(w.first, a)], a);
    }
    if k :| k in w.table && w.born[k] <= w.allocations - (0x1_0000 - n) {
      SameKey(w.first, w.born[k], w.born[k] + 0x1_0000);
      assert KeyOf(w.first, w.born[k] + 0x1_0000) in w.table;
    }
  }

  ghost function InsertAll(w: World, entries: seq<Entry>): World
    decreases |entries|
  {
    if entries == [] then w else InsertAll(InsertStep(w, entries[0]), entries[1..])
  }

  function Inserts(entries: seq<Entry>): (events: seq<Event>)
    ensures |events| == |entries|
  {
    if entries == [] then [] else [Insert(entries[0])] + Inserts(entries[1..])
  }

  /** Entries numbered in sequence after the last allocation, under keys that are free. */
  ghost predicate Placeable(first: uint16, table: Table, allocations: nat, entries: seq<Entry>) {
    && |entries| <= 0x1_0000
    && forall i :: 0 <= i < |entries| ==>
         && Stamped(entries[i])
         && entries[i].request.seqNumber == KeyOf(first, allocations + 1 + i)
         && entries[i].request.seqNumber !in table
  }

  lemma PlaceableRest(first: uint16, table: Table, allocations: nat, entries: seq<Entry>)
    requires Placeable(first, table, allocations, entries) && entries != []
    ensures Stamped(entries[0]) && entries[0].request.seqNumber == KeyOf(first, allocations + 1)
    ensures entries[0].request.seqNumber !in table
    ensures Placeable(first, table[entries[0].request.seqNumber := entries[0]], allocations + 1, entries[1..])
  {
    hide Stamped, KeyOf;
    var e, rest := entries[0], entries[1..];
    assert e.request.seqNumber == KeyOf(first, allocations + 1 + 0);
    forall i | 0 <= i < |rest|
      ensures Stamped(rest[i]) && rest[i].request.seqNumber == KeyOf(first, allocations + 1 + 1 + i)
      ensures rest[i].request.seqNumber !in table && rest[i].request.seqNumber != e.request.seqNumber
    {
      assert rest[i] == entries[i + 1];
      SameKey(first, allocations + 1, allocations + 1 + (i + 1));
    }
  }

  lemma RunInsert(w: World, e: Entry, events: seq<Event>, w': World)
    requires w.table.Keys == w.born.Keys && InsertEnabled(w, e) && IsRun(InsertStep(w, e), events, w')
    ensures IsRun(w, [Insert(e)] + events, w')
  {
    hide Stamped, InsertStep, InsertEnabled;
    var all := [Insert(e)] + events;
    assert all[0] == Insert(e) && all[1..] == events;
  }

  lemma RunNothing(w: World)
    ensures IsRun(w, [], w)
  {
  }

  lemma SameKeys(w: World)
    requires Invariant(w)
    ensures w.table.Keys == w.born.Keys
  {
  }

  /** A call that numbers its entries in sequence, and finds their keys free, is a run of insertions. */
  lemma {:induction false} InsertsRun(w: World, entries: seq<Entry>)
    requires Invariant(w) && Placeable(w.first, w.table, w.allocations, entries)
    ensures IsRun(w, Inserts(entries), InsertAll(w, entries))
    decreases |entries|
  {
    hide Stamped, KeyOf, Placeable, Invariant, IsRun;
    if entries == [] {
      RunNothing(w);
    } else {
      var e := entries[0];
      SameKeys(w);
      PlaceableRest(w.first, w.table, w.allocations, entries);
      InsertKeeps(w, e);
      InsertsRun(InsertStep(w, e), entries[1..]);
      RunInsert(w, e, Inserts(entries[1..]), InsertAll(InsertStep(w, e), entries[1..]));
    }
  }

  // ----- Attribution of send time stamps -----

  /**
   A kernel time stamp reaches the entry under `key` exactly if no entry with the same ID has a
   smaller key.
   */
  lemma StampReaches(table: Table, key: uint16)
    requires key in table
    ensures FirstWithID(table, table[key].request.timeStampSeqID, 0) == Some(key)
       <==> forall k :: k in table && k < key ==> table[k].request.timeStampSeqID != table[key].request.timeStampSeqID
  {
  }
}
