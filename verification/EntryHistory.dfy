/**
 What events do to an entry's fields: kernel time stamps and replies in terms of what arrives, and what stays for
 good. An entry is followed by the number of its allocation, from the map of results to the reports.
 */
module EntryHistory {
  import opened Words
  import opened Addresses
  import opened ResultEntries
  import opened TimeStamps
  import opened LifeCycle

  // ----- Kernel time stamps -----

  /**
   A kernel time stamp goes to one layer of the entry that it reaches: a software time stamp to the scheduler or the
   transmission, as reported; a hardware time stamp to the transmission by hardware, if there is no software one.
   Nothing else changes.
   */
  lemma StampFiled(table: Table, id: uint32, info: TxInfo, software: Stamp, hardware: Stamp)
    ensures var found := FirstWithID(table, id, 0); var table' := UpdateSendTime(table, id, info, software, hardware);
      && (found.None? ==> table' == table)
      && (found.Some? ==> table'.Keys == table.Keys && forall k :: k in table && k != found.value ==>
          table'[k] == table[k])
    ensures var found := FirstWithID(table, id, 0); var table' := UpdateSendTime(table, id, info, software, hardware);
      found.Some? ==>
        var e, e' := table[found.value], table'[found.value];
        && e' == e.(sent := e'.sent) && e'.sent.application == e.sent.application
        && e'.sent.scheduler
           == (if software.seconds != 0 && info == Scheduled
               then TimeStamp(TimestampingSW, 1_000_000_000 * software.seconds + software.nanoseconds)
               else e.sent.scheduler)
        && e'.sent.software
           == (if software.seconds != 0 && info == Sent
               then TimeStamp(TimestampingSW, 1_000_000_000 * software.seconds + software.nanoseconds)
               else e.sent.software)
        && e'.sent.hardware
           == (if software.seconds == 0 && hardware.seconds != 0 && info == Sent
               then TimeStamp(TimestampingHW, 1_000_000_000 * hardware.seconds + hardware.nanoseconds)
               else e.sent.hardware)
  {
    hide FirstWithID;
  }

  // ----- Replies -----

  /**
   The entry has the answer: who sent it, its length, and when it was received by application, kernel and hardware.
   */
  ghost predicate HasAnswer(e: Entry, data: ReceivedData, length: uint32) {
    && e.hop == data.reply.DropScopeID() && e.responseSize == length
    && e.received.application == TimeStamp(SysClock, data.applicationReceiveTime)
    && e.received.software == data.software && e.received.hardware == data.hardware
  }

  ghost predicate SameAnswer(e: Entry, e': Entry) {
    e'.status == e.status && e'.hop == e.hop && e'.responseSize == e.responseSize && e'.received == e.received
  }

  /** The source address becomes known with the first reply that has it. */
  function KnownSource(e: Entry, data: ReceivedData): Address {
    if e.source.IsUnspecified() && !data.source.IsUnspecified() then data.source else e.source
  }

  /**
   A reply is recorded exactly if there is an entry under its number and neither address contradicts it. Then it changes
   this entry only: the first one gives it the answer, later ones at most the source address.
   */
  lemma ReplyFiled(table: Table, isV6: bool, data: ReceivedData, icmpType: byte, icmpCode: byte, key: uint16,
                   length: uint32)
    ensures var table' := RecordResult(table, isV6, data, icmpType, icmpCode, key, length);
      && table'.Keys == table.Keys && (forall k :: k in table && k != key ==> table'[k] == table[k])
      && (key in table ==>
            var e, e' := table[key], table'[key];
            var contradicts :=
              || (data.source.octets != e.source.octets && !data.source.IsUnspecified() && !e.source.IsUnspecified())
              || (data.destination.octets != e.request.destination.address.octets
                  && !data.destination.IsUnspecified() && !e.request.destination.address.IsUnspecified());
            && (contradicts ==> e' == e)
            && (Accepted(table, key, data) ==>
                e'.request == e.request && e'.sent == e.sent && e'.source == KnownSource(e, data))
            && (Accepted(table, key, data) && e.status == Unknown ==>
                  HasAnswer(e', data, length) && e'.status == ReplyStatus(isV6, icmpType, icmpCode))
            && (Accepted(table, key, data) && e.status != Unknown ==> SameAnswer(e, e'))
            && (!Accepted(table, key, data) ==> e' == e))
  {
  }

  // ----- Following an entry -----

  /** The entry of an allocation, in the map of results or as it was reported. */
  ghost predicate IsEntry(w: World, id: nat, e: Entry) {
    || (exists k :: k in w.born && k in w.table && w.born[k] == id && w.table[k] == e)
    || (exists i :: 0 <= i < |w.reported| && w.reported[i] == (id, e))
  }

  lemma OneEntry(w: World, id: nat, e: Entry, e': Entry)
    requires Invariant(w) && IsEntry(w, id, e) && IsEntry(w, id, e')
    ensures e == e'
  {
    hide Stamped, AllStamped, KeysNumbered;
    if k :| k in w.born && k in w.table && w.born[k] == id && w.table[k] == e {
      if m :| m in w.born && m in w.table && w.born[m] == id && w.table[m] == e' {
        BornOnce(w.first, w.table, w.born, w.allocations, k, m);
      }
    }
  }

  /** The request stays; the answer stays once there is a status; only time stamps with its ID change the send times. */
  ghost predicate Keeps(e: Entry, e': Entry, event: Event) {
    && e'.request == e.request && (e.status != Unknown ==> SameAnswer(e, e'))
    && (!IsStampFor(event, e.request.timeStampSeqID) ==> e'.sent == e.sent)
  }

  ghost predicate IsStampFor(event: Event, id: uint32) { event.TxStamp? && event.id == id }

  lemma StillReported(w: World, event: Event, id: nat, e: Entry, i: nat)
    requires w.table.Keys == w.born.Keys && Enabled(w, event) && i < |w.reported| && w.reported[i] == (id, e)
    ensures IsEntry(Step(w, event), id, e)
  {
    assert Step(w, event).reported[i] == w.reported[i];
  }

  lemma UpdatedEntry(w: World, key: uint16, e: Entry, notified: seq<nat>, k: uint16)
    requires w.table.Keys == w.born.Keys && key in w.table && k in w.table
    ensures IsEntry(w.(table := w.table[key := e], notified := notified), w.born[k], if k == key then e else w.table[k])
  {
    var w' := w.(table := w.table[key := e], notified := notified);
    assert k in w'.born && k in w'.table && w'.table[k] == if k == key then e else w.table[k];
  }

  lemma InsertedEntry(w: World, e: Entry, k: uint16)
    requires w.table.Keys == w.born.Keys && e.request.seqNumber !in w.table && k in w.table
    ensures IsEntry(InsertStep(w, e), w.born[k], w.table[k])
  {
    var w' := InsertStep(w, e);
    assert k in w'.born && k in w'.table && w'.table[k] == w.table[k];
  }

  lemma HandledEntry(w: World, key: uint16, now: int, expiration: nat, k: uint16) returns (e': Entry)
    requires w.table.Keys == w.born.Keys && key in w.table && k in w.table
    ensures IsEntry(HandleStep(w, key, now, expiration), w.born[k], e')
    ensures Keeps(w.table[k], e', Handle(key, now, expiration))
  {
    var w' := HandleStep(w, key, now, expiration);
    if k == key {
      e' := TimedOut(w.table[k], now, expiration);
      if e'.status != Unknown {
        assert w'.reported[|w.reported|] == (w.born[k], e');
      } else {
        assert e' == w.table[k];
        assert k in w'.born && k in w'.table && w'.table[k] == e';
      }
    } else {
      e' := w.table[k];
      assert k in w'.born && k in w'.table && w'.table[k] == e';
    }
  }

  /** One event. */
  lemma StepEntry(w: World, event: Event, id: nat, e: Entry) returns (e': Entry)
    requires w.table.Keys == w.born.Keys && Enabled(w, event) && IsEntry(w, id, e)
    ensures IsEntry(Step(w, event), id, e') && Keeps(e, e', event)
  {
    if i: int :| 0 <= i < |w.reported| && w.reported[i] == (id, e) {
      StillReported(w, event, id, e, i);
      e' := e;
    } else {
      var k :| k in w.born && k in w.table && w.born[k] == id && w.table[k] == e;
      e' := StepLiveEntry(w, event, k);
    }
  }

  lemma StepLiveEntry(w: World, event: Event, k: uint16) returns (e': Entry)
    requires w.table.Keys == w.born.Keys && Enabled(w, event) && k in w.table
    ensures IsEntry(Step(w, event), w.born[k], e') && Keeps(w.table[k], e', event)
  {
    hide IsEntry, HandleStep, InsertStep;
    match event
    case Insert(inserted) =>
      InsertedEntry(w, inserted, k);
      e' := w.table[k];
    case TxStamp(id, info, software, hardware) =>
      var found := FirstWithID(w.table, id, 0);
      e' := UpdateSendTime(w.table, id, info, software, hardware)[k];
      UpdatedEntry(w, if found.Some? then found.value else k, e', w.notified, k);
      StampKeeps(w, id, info, software, hardware, k);
    case Reply(isV6, data, icmpType, icmpCode, key, length) =>
      e' := RecordResult(w.table, isV6, data, icmpType, icmpCode, key, length)[k];
      ReplyFiled(w.table, isV6, data, icmpType, icmpCode, key, length);
      ReplyKeepsEntry(w, isV6, data, icmpType, icmpCode, key, length, k);
    case Handle(key, now, expiration) =>
      e' := HandledEntry(w, key, now, expiration, k);
  }

  lemma StampKeeps(w: World, id: uint32, info: TxInfo, software: Stamp, hardware: Stamp, k: uint16)
    requires w.table.Keys == w.born.Keys && k in w.table
    ensures var table' := UpdateSendTime(w.table, id, info, software, hardware);
      && k in table' && Keeps(w.table[k], table'[k], TxStamp(id, info, software, hardware))
      && IsEntry(w.(table := table'), w.born[k], table'[k])
  {
    StampFiled(w.table, id, info, software, hardware);
    hide UpdateSendTime;
    var w' := w.(table := UpdateSendTime(w.table, id, info, software, hardware));
    assert k in w'.born && k in w'.table && w'.table[k] == w'.table[k];
  }

  lemma ReplyKeepsEntry(w: World, isV6: bool, data: ReceivedData, icmpType: byte, icmpCode: byte, key: uint16,
                        length: uint32,
                        k: uint16)
    requires w.table.Keys == w.born.Keys && k in w.table
    ensures var w' := ReplyStep(w, isV6, data, icmpType, icmpCode, key, length);
      && k in w'.table && IsEntry(w', w.born[k], w'.table[k])
      && Keeps(w.table[k], w'.table[k], Reply(isV6, data, icmpType, icmpCode, key, length))
  {
    ReplyFiled(w.table, isV6, data, icmpType, icmpCode, key, length);
    hide RecordResult, Accepted;
    var w' := ReplyStep(w, isV6, data, icmpType, icmpCode, key, length);
    assert k in w'.born && k in w'.table && w'.table[k] == w'.table[k];
  }

  ghost predicate NoStampFor(events: seq<Event>, id: uint32)
  {
    forall i :: 0 <= i < |events| ==> !IsStampFor(events[i], id)
  }

  /**
   Over every run an entry keeps its request; its answer, once it has a status; and its send times, unless a time
   stamp with its ID arrives.
   */
  lemma {:induction false} RunEntry(w: World, events: seq<Event>, w': World, id: nat, e: Entry) returns (e': Entry)
    requires IsRun(w, events, w') && IsEntry(w, id, e)
    ensures IsEntry(w', id, e') && e'.request == e.request && (e.status != Unknown ==> SameAnswer(e, e'))
    ensures NoStampFor(events, e.request.timeStampSeqID) ==> e'.sent == e.sent
    decreases |events|
  {
    hide IsEntry, Step, Enabled;
    if events == [] {
      e' := e;
    } else {
      var next := StepEntry(w, events[0], id, e);
      e' := RunEntry(Step(w, events[0]), events[1..], w', id, next);
    }
  }

  // ----- The queuing delay -----

  /**
   A scheduler time stamp a and a later transmission time stamp b that reach an entry, and no other with its ID after
   the first: then b - a is the queuing delay, for good.
   */
  lemma QueuingDelay(w0: World, first: Event, mid: seq<Event>, w2: World, second: Event, late: seq<Event>, w4: World,
                     id: nat, e: Entry)
    requires Invariant(w0) && Enabled(w0, first) && first.TxStamp? && first.info == Scheduled
      && first.software.seconds > 0
    requires ReachesEntry(w0, first.id, id) && w0.table.Keys == w0.born.Keys
    requires IsRun(Step(w0, first), mid, w2) && NoStampFor(mid, first.id) && w2.table.Keys == w2.born.Keys
    requires Enabled(w2, second) && second.TxStamp? && second.id == first.id && second.info == Sent
    requires ReachesEntry(w2, second.id, id) && second.software.seconds > 0
    requires IsRun(Step(w2, second), late, w4) && NoStampFor(late, first.id) && IsEntry(w4, id, e)
    ensures var a := 1_000_000_000 * first.software.seconds + first.software.nanoseconds;
            var b := 1_000_000_000 * second.software.seconds + second.software.nanoseconds;
      && e.sent.scheduler == TimeStamp(TimestampingSW, a) && e.sent.software == TimeStamp(TimestampingSW, b)
      && (a <= b ==> SchedulingSendTime(e) == Available(a, b) && Duration(SchedulingSendTime(e)) == b - a)
      && (a > b ==> SchedulingSendTime(e) == Unavailable)
  {
    hide *;
    StepKeepsInvariant(w0, first);
    RunKeepsInvariant(Step(w0, first), mid, w2);
    StepKeepsInvariant(w2, second);
    RunKeepsInvariant(Step(w2, second), late, w4);
    var e1 := StampedEntry(w0, first, id);
    var e2 := RunEntry(Step(w0, first), mid, w2, id, e1);
    var e2', e3 := StampedAgain(w2, second, id);
    OneEntry(w2, id, e2, e2');
    var e4 := RunEntry(Step(w2, second), late, w4, id, e3);
    OneEntry(w4, id, e4, e);
    DelayOfStamps(e, 1_000_000_000 * first.software.seconds + first.software.nanoseconds,
                  1_000_000_000 * second.software.seconds + second.software.nanoseconds);
  }

  lemma DelayOfStamps(e: Entry, a: nat, b: nat)
    requires e.sent.scheduler == TimeStamp(TimestampingSW, a) && e.sent.software == TimeStamp(TimestampingSW, b)
    requires a > 0 && b > 0
    ensures a <= b ==> SchedulingSendTime(e) == Available(a, b) && Duration(SchedulingSendTime(e)) == b - a
    ensures a > b ==> SchedulingSendTime(e) == Unavailable
  {
  }

  /** Time stamps with this ID reach the entry of the allocation. */
  ghost predicate ReachesEntry(w: World, stampID: uint32, id: nat) {
    var found := FirstWithID(w.table, stampID, 0);
    found.Some? && found.value in w.born && w.born[found.value] == id
  }

  lemma StampedEntry(w: World, event: Event, id: nat) returns (e': Entry)
    requires w.table.Keys == w.born.Keys && Enabled(w, event) && event.TxStamp? && ReachesEntry(w, event.id, id)
    requires event.info == Scheduled && event.software.seconds > 0
    ensures IsEntry(Step(w, event), id, e') && e'.request.timeStampSeqID == event.id
    ensures e'.sent.scheduler
        == TimeStamp(TimestampingSW, 1_000_000_000 * event.software.seconds + event.software.nanoseconds)
  {
    var key := FirstWithID(w.table, event.id, 0).value;
    StampFiled(w.table, event.id, event.info, event.software, event.hardware);
    StampKeeps(w, event.id, event.info, event.software, event.hardware, key);
    hide IsEntry, UpdateSendTime, Keeps;
    e' := UpdateSendTime(w.table, event.id, event.info, event.software, event.hardware)[key];
  }

  lemma StampedAgain(w: World, event: Event, id: nat) returns (e: Entry, e': Entry)
    requires w.table.Keys == w.born.Keys && Enabled(w, event) && event.TxStamp? && ReachesEntry(w, event.id, id)
    requires event.info == Sent && event.software.seconds > 0
    ensures IsEntry(w, id, e) && IsEntry(Step(w, event), id, e')
    ensures e'.request.timeStampSeqID == event.id && e'.sent.scheduler == e.sent.scheduler
    ensures e'.sent.software
        == TimeStamp(TimestampingSW, 1_000_000_000 * event.software.seconds + event.software.nanoseconds)
  {
    var key := FirstWithID(w.table, event.id, 0).value;
    e := w.table[key];
    assert key in w.born && key in w.table && w.born[key] == id && w.table[key] == e;
    StampFiled(w.table, event.id, event.info, event.software, event.hardware);
    StampKeeps(w, event.id, event.info, event.software, event.hardware, key);
    hide UpdateSendTime, Keeps;
    e' := UpdateSendTime(w.table, event.id, event.info, event.software, event.hardware)[key];
  }
}
