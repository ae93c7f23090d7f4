/**
 Processing the results of Ping: their order, what times out, what is reported and erased, and where the
 checks on a result stop the program.
 */
module PingProcessing {
  import opened Words
  import opened Addresses
  import opened Lexicographic
  import opened ResultEntries
  import opened TimeStamps
  import opened LifeCycle

  // ----- The order of results -----

  predicate DestinationLess(a: DestinationInfo, b: DestinationInfo) {
    || Less(SortKey(a.address), SortKey(b.address))
    || (a.address == b.address && a.trafficClass < b.trafficClass)
  }

  predicate DestinationEqual(a: DestinationInfo, b: DestinationInfo) {
    a.address == b.address && a.trafficClass == b.trafficClass
  }

  predicate ComparePingResults(a: Entry, b: Entry) {
    if DestinationLess(a.request.destination, b.request.destination) then true
    else if DestinationEqual(a.request.destination, b.request.destination) then
      a.request.roundNumber < b.request.roundNumber
    else false
  }

  function PingKey(e: Entry): seq<int> {
    SortKey(e.request.destination.address) + [e.request.destination.trafficClass, e.request.roundNumber]
  }

  /** The comparison is the lexicographic order of the keys. */
  lemma ComparisonIsKeyOrder(a: Entry, b: Entry)
    ensures ComparePingResults(a, b) <==> Less(PingKey(a), PingKey(b))
  {
    var d, d' := a.request.destination, b.request.destination;
    KeyIsAddress(d.address, d'.address);
    if d.address.V4? == d'.address.V4? {
      Levels(SortKey(d.address), [d.trafficClass, a.request.roundNumber], SortKey(d'.address),
             [d'.trafficClass, b.request.roundNumber]);
      assert [d.trafficClass, a.request.roundNumber] == [d.trafficClass] + [a.request.roundNumber];
      assert [d'.trafficClass, b.request.roundNumber] == [d'.trafficClass] + [b.request.roundNumber];
      Levels([d.trafficClass], [a.request.roundNumber], [d'.trafficClass], [b.request.roundNumber]);
      OneLevel(d.trafficClass, d'.trafficClass);
      OneLevel(a.request.roundNumber, b.request.roundNumber);
      Irreflexive(SortKey(d.address));
    } else {
      FirstDiffers(PingKey(a), PingKey(b));
      FirstDiffers(SortKey(d.address), SortKey(d'.address));
    }
  }

  /** What std::sort demands of a comparison: a strict order, whose ties are transitive. */
  lemma ComparisonIsStrictWeakOrder(a: Entry, b: Entry, c: Entry)
    ensures !ComparePingResults(a, a)
    ensures ComparePingResults(a, b) && ComparePingResults(b, c) ==> ComparePingResults(a, c)
    ensures ComparePingResults(a, b) ==> ComparePingResults(a, c) || ComparePingResults(c, b)
  {
    ComparisonIsKeyOrder(a, a);
    ComparisonIsKeyOrder(a, b);
    ComparisonIsKeyOrder(b, c);
    ComparisonIsKeyOrder(a, c);
    ComparisonIsKeyOrder(c, b);
    hide ComparePingResults, PingKey, Less;
    Irreflexive(PingKey(a));
    if Less(PingKey(a), PingKey(b)) {
      Total(PingKey(a), PingKey(c));
      if Less(PingKey(b), PingKey(c)) {
        Transitive(PingKey(a), PingKey(b), PingKey(c));
      }
      if Less(PingKey(c), PingKey(a)) {
        Transitive(PingKey(c), PingKey(a), PingKey(b));
      }
    }
  }

  // ----- Processing results -----

  /** A sorted vector of all results: each key of the map once, in any order. */
  ghost predicate IsOrder(order: seq<uint16>, keys: set<uint16>) {
    && (forall k :: k in order <==> k in keys)
    && (forall i, j :: 0 <= i < j < |order| ==> order[i] != order[j])
  }

  /** What processing leaves in the map: the entries that still wait for a reply. */
  function Remaining(table: Table, now: int, expiration: nat): Table {
    map k | k in table && Completion(table[k], now, expiration) == [] :: table[k]
  }

  /** The entry as it is reported, if it is complete or its time is up. */
  function Completion(e: Entry, now: int, expiration: nat): (r: seq<Entry>)
    ensures |r| <= 1
  {
    var t := TimedOut(e, now, expiration);
    if t.status == Unknown then [] else [t]
  }

  function Handled(table: Table, key: uint16, now: int, expiration: nat): Table
    requires key in table
  {
    if Completion(table[key], now, expiration) == [] then table else table - {key}
  }

  function Written(table: Table, order: seq<uint16>, now: int, expiration: nat): seq<Entry>
    requires forall k :: k in order ==> k in table
  {
    if order == [] then []
    else
      Written(table, order[..|order| - 1], now, expiration) + Completion(table[order[|order| - 1]], now, expiration)
  }

  /** An entry waits exactly if it has no status and its time is not up: the milliseconds are truncated. */
  lemma WaitsExactly(e: Entry, now: int, expiration: nat)
    ensures TimedOut(e, now, expiration).status == Unknown
       <==> && e.status == Unknown
            && if expiration > 0 then now - e.sent.application.time < NS_PER_MS * expiration
               else now - e.sent.application.time <= -NS_PER_MS
  {
    Truncation(now - e.sent.application.time, expiration);
  }

  /** When the time is up, the entry has the time-out as its result: received when it expired, and else unchanged. */
  lemma TimedOutAs(e: Entry, now: int, expiration: nat)
    ensures var t := TimedOut(e, now, expiration);
      if e.status == Unknown && t.status != Unknown then
        && t.status == Timeout && t == e.(status := t.status, received := t.received)
        && t.received.application == TimeStamp(SysClock, e.sent.application.time + 1_000_000 * expiration)
        && t.received.software == e.received.software && t.received.hardware == e.received.hardware
      else t == e
  {
    hide TruncatedMilliseconds;
  }

  lemma Truncation(ns: int, ms: nat)
    ensures TruncatedMilliseconds(ns) >= ms <==> if ms > 0 then ns >= NS_PER_MS * ms else ns > -NS_PER_MS
  {
  }

  // ----- The checks on a result -----

  /** Where a result goes: lines of either version in a results file, or the terminal. */
  datatype OutputFormat = CurrentFormat | OldFormat | Terminal

  /** All but lines of version 1 are made of values that the program checks, and aborts if a check fails. */
  predicate Writable(output: OutputFormat, e: Entry) { output.OldFormat? || ResultsValues(e).Values? }

  /** Processing the entry aborts the program: it is complete, and writing it fails. */
  predicate Fails(output: OutputFormat, e: Entry, now: int, expiration: nat) {
    var t := TimedOut(e, now, expiration);
    t.status != Unknown && !Writable(output, t)
  }

  /** The reply did not come before the request was sent, except for one nanosecond. */
  predicate OnTime(e: Entry) { e.status == Unknown || e.received.application.time >= e.sent.application.time - 1 }

  /**
   Processing an entry aborts exactly if it has a reply from before the request, whatever the time and the
   expiration.
   */
  lemma FailsExactly(output: OutputFormat, e: Entry, now: int, expiration: nat)
    requires Stamped(e)
    ensures Fails(output, e, now, expiration) <==> !output.OldFormat? && !OnTime(e)
  {
    hide Stamped, ResultsValues, TruncatedMilliseconds, Expired;
    if e.status == Unknown {
      LocalCompletionsPass(e, expiration, OtherError);
    } else {
      ChecksPass(e);
    }
  }

  /** How many entries of the order are processed: all, or those before the first that fails. */
  function Reached(output: OutputFormat, table: Table, order: seq<uint16>, now: int, expiration: nat): (n: nat)
    requires forall k :: k in order ==> k in table
    ensures n <= |order|
    ensures NoneFails(output, table, order, n, now, expiration)
    ensures n < |order| ==> Fails(output, table[order[n]], now, expiration)
  {
    if order == [] || Fails(output, table[order[0]], now, expiration) then 0
    else 1 + Reached(output, table, order[1..], now, expiration)
  }

  predicate NoneFails(output: OutputFormat, table: Table, order: seq<uint16>, n: nat, now: int, expiration: nat)
    requires forall k :: k in order ==> k in table
  {
    n <= |order| && forall i :: 0 <= i < n ==> !Fails(output, table[order[i]], now, expiration)
  }

  lemma ReachedIs(output: OutputFormat, table: Table, order: seq<uint16>, n: nat, now: int, expiration: nat)
    requires forall k :: k in order ==> k in table
    requires NoneFails(output, table, order, n, now, expiration)
    requires n == |order| || Fails(output, table[order[n]], now, expiration)
    ensures Reached(output, table, order, now, expiration) == n
  {
    hide Fails;
  }

  ghost predicate AllOnTime(table: Table) { forall k :: k in table ==> OnTime(table[k]) }

  /**
   Processing completes, in any order and whatever the time, exactly if lines of version 1 are written or no
   reply came before its request; otherwise it aborts at the first such entry of the order.
   */
  lemma ProcessingCompletes(output: OutputFormat, table: Table, order: seq<uint16>, now: int, expiration: nat)
    requires IsOrder(order, table.Keys) && forall k :: k in table ==> Stamped(table[k])
    ensures var n := Reached(output, table, order, now, expiration);
      && (n == |order| <==> output.OldFormat? || AllOnTime(table))
      && (n < |order| ==> !OnTime(table[order[n]]) && forall i :: 0 <= i < n ==> OnTime(table[order[i]]))
  {
    hide Fails, OnTime, Stamped;
    forall k | k in table
        ensures Fails(output, table[k], now, expiration) <==> !output.OldFormat? && !OnTime(table[k]) {
      FailsExactly(output, table[k], now, expiration);
    }
    var n := Reached(output, table, order, now, expiration);
    if n == |order| && !output.OldFormat? {
      forall k | k in table ensures OnTime(table[k]) {
        assert k in order;
        var i :| 0 <= i < |order| && order[i] == k;
      }
    }
  }

  /** The map when the entries of `done` have been processed. */
  function After(table: Table, done: seq<uint16>, now: int, expiration: nat): Table {
    map k | k in table && (k in done ==> Completion(table[k], now, expiration) == []) :: table[k]
  }

  lemma AfterNothing(table: Table, now: int, expiration: nat)
    ensures After(table, [], now, expiration) == table
  {
  }

  lemma AfterAll(table: Table, order: seq<uint16>, now: int, expiration: nat)
    requires IsOrder(order, table.Keys)
    ensures After(table, order, now, expiration) == Remaining(table, now, expiration)
  {
    hide Completion;
  }

  lemma AfterStep(table: Table, order: seq<uint16>, i: nat, now: int, expiration: nat)
    requires IsOrder(order, table.Keys) && i < |order|
    ensures order[i] in After(table, order[..i], now, expiration) && order[i] in table
    ensures After(table, order[..i], now, expiration)[order[i]] == table[order[i]]
    ensures After(table, order[..i + 1], now, expiration)
         == Handled(After(table, order[..i], now, expiration), order[i], now, expiration)
  {
    hide Completion;
    assert order[..i + 1] == order[..i] + [order[i]];
  }

  lemma WrittenNext(table: Table, order: seq<uint16>, i: nat, now: int, expiration: nat)
    requires i < |order| && forall k :: k in order ==> k in table
    ensures Written(table, order[..i + 1], now, expiration)
         == Written(table, order[..i], now, expiration) + Completion(table[order[i]], now, expiration)
  {
    hide Completion;
    assert order[..i + 1][..i] == order[..i];
  }

  /**
   The map when the program stops after n entries: the next one, if there is one, has been timed out, but not
   erased.
   */
  function Stopped(table: Table, order: seq<uint16>, n: nat, now: int, expiration: nat): Table
    requires n <= |order| && forall k :: k in order ==> k in table
  {
    var done := After(table, order[..n], now, expiration);
    if n == |order| then done else done[order[n] := TimedOut(table[order[n]], now, expiration)]
  }

  /** The entries for the result callback: those that are written, and the one whose writing fails. */
  function Notified(table: Table, order: seq<uint16>, n: nat, now: int, expiration: nat): seq<Entry>
    requires n <= |order| && forall k :: k in order ==> k in table
  {
    Written(table, order[..n], now, expiration) + if n == |order|
        then [] else [TimedOut(table[order[n]], now, expiration)]
  }

  /** The first i entries of the order have been processed. */
  ghost predicate Progress(output: OutputFormat, table: Table, order: seq<uint16>, i: nat, now: int, expiration: nat,
                           view: Table,
                           written: seq<Entry>)
  {
    && IsOrder(order, table.Keys) && i <= |order| && NoneFails(output, table, order, i, now, expiration)
    && view == After(table, order[..i], now, expiration) && written == Written(table, order[..i], now, expiration)
  }

  lemma ProgressStart(output: OutputFormat, table: Table, order: seq<uint16>, now: int, expiration: nat)
    requires IsOrder(order, table.Keys)
    ensures Progress(output, table, order, 0, now, expiration, table, [])
  {
    AfterNothing(table, now, expiration);
  }

  lemma ProgressStep(output: OutputFormat, table: Table, order: seq<uint16>, i: nat, now: int, expiration: nat,
                     view: Table, written: seq<Entry>)
    requires Progress(output, table, order, i, now, expiration, view, written) && i < |order|
    ensures order[i] in view
    ensures !Fails(output, view[order[i]], now, expiration) ==>
              Progress(output, table, order, i + 1, now, expiration, Handled(view, order[i], now, expiration),
                       written + Completion(view[order[i]], now, expiration))
  {
    AfterStep(table, order, i, now, expiration);
    WrittenNext(table, order, i, now, expiration);
    hide Completion, After, Written, IsOrder, Fails;
  }

  /** The loop's end, and the program's end in the loop. */
  lemma ProgressEnd(output: OutputFormat, table: Table, order: seq<uint16>, i: nat, now: int, expiration: nat,
                    view: Table, written: seq<Entry>)
    requires Progress(output, table, order, i, now, expiration, view, written)
    requires i == |order| || (order[i] in view && Fails(output, view[order[i]], now, expiration))
    ensures forall k :: k in order ==> k in table
    ensures Reached(output, table, order, now, expiration) == i
      && written == Written(table, order[..i], now, expiration)
    ensures if i < |order| then
              && order[i] in view
              && view[order[i] := TimedOut(view[order[i]], now, expiration)]
                  == Stopped(table, order, i, now, expiration)
              && written + [TimedOut(view[order[i]], now, expiration)] == Notified(table, order, i, now, expiration)
            else
              && view == Stopped(table, order, i, now, expiration) == Remaining(table, now, expiration)
              && written == Notified(table, order, i, now, expiration)
  {
    if i < |order| {
      AfterStep(table, order, i, now, expiration);
    } else {
      assert order[..i] == order;
      AfterAll(table, order, now, expiration);
    }
    hide After, Written, Fails, TimedOut, Remaining;
    ReachedIs(output, table, order, i, now, expiration);
  }

  // ----- Processing as a run of the state machine -----

  function Handles(order: seq<uint16>, now: int, expiration: nat): (events: seq<Event>)
    ensures |events| == |order|
  {
    if order == [] then [] else [Handle(order[0], now, expiration)] + Handles(order[1..], now, expiration)
  }

  ghost function HandleAll(w: World, order: seq<uint16>, now: int, expiration: nat): World
    requires Invariant(w) && IsLive(order, w.table)
    decreases |order|
  {
    if order == [] then w
    else
      HandleFirst(w, order, now, expiration);
      HandleAll(HandleStep(w, order[0], now, expiration), order[1..], now, expiration)
  }

  lemma HandleFirst(w: World, order: seq<uint16>, now: int, expiration: nat)
    requires Invariant(w) && IsLive(order, w.table) && order != []
    ensures order[0] in w.table && w.table.Keys == w.born.Keys && order[0] !in order[1..]
    ensures var next := HandleStep(w, order[0], now, expiration);
      && Invariant(next) && IsLive(order[1..], next.table)
      && next.table == Handled(w.table, order[0], now, expiration)
      && EntriesOf(next.reported) == EntriesOf(w.reported) + Completion(w.table[order[0]], now, expiration)
  {
    SameKeys(w);
    assert order[0] in order;
    hide Completion, Invariant, EntriesOf, TimedOut;
    HandleKeeps(w, order[0], now, expiration);
    HandleTable(w, order[0], now, expiration);
    hide HandleStep;
    LiveRest(order, w.table, now, expiration);
  }

  lemma LiveRest(order: seq<uint16>, table: Table, now: int, expiration: nat)
    requires IsLive(order, table) && order != []
    ensures order[0] in table && order[0] !in order[1..]
      && IsLive(order[1..], Handled(table, order[0], now, expiration))
  {
    hide Completion;
    assert order[0] in order;
  }

  lemma HandleTable(w: World, key: uint16, now: int, expiration: nat)
    requires key in w.table && w.table.Keys == w.born.Keys
    ensures var next := HandleStep(w, key, now, expiration);
      && next.table == Handled(w.table, key, now, expiration)
      && EntriesOf(next.reported) == EntriesOf(w.reported) + Completion(w.table[key], now, expiration)
  {
    hide TimedOut;
  }

  ghost predicate IsLive(order: seq<uint16>, table: Table) {
    && (forall k :: k in order ==> k in table)
    && (forall i, j :: 0 <= i < j < |order| ==> order[i] != order[j])
  }

  function EntriesOf(reports: seq<(nat, Entry)>): seq<Entry> {
    seq(|reports|, i requires 0 <= i < |reports| => reports[i].1)
  }

  lemma {:induction false} WrittenFirst(table: Table, order: seq<uint16>, now: int, expiration: nat)
    requires order != [] && forall k :: k in order ==> k in table
    ensures Written(table, order, now, expiration)
         == Completion(table[order[0]], now, expiration) + Written(table, order[1..], now, expiration)
  {
    hide Completion;
    if |order| == 1 {
      assert order[..0] == [];
    } else {
      var last := |order| - 1;
      WrittenFirst(table, order[..last], now, expiration);
      assert order[..last][0] == order[0] && order[1..][last - 1] == order[last];
      assert order[..last][1..] == order[1..][..last - 1];
      var a, b, c := Completion(table[order[0]], now, expiration),
          Written(table, order[1..][..last - 1], now, expiration),
                     Completion(table[order[last]], now, expiration);
      assert (a + b) + c == a + (b + c);
    }
  }

  lemma {:induction false} WrittenSame(table: Table, table': Table, order: seq<uint16>, now: int, expiration: nat)
    requires forall k :: k in order ==> k in table && k in table' && table[k] == table'[k]
    ensures Written(table, order, now, expiration) == Written(table', order, now, expiration)
  {
    hide Completion;
    if order == [] {
    } else {
      WrittenSame(table, table', order[..|order| - 1], now, expiration);
    }
  }

  lemma {:induction false} HandlesRun(w: World, order: seq<uint16>, now: int, expiration: nat)
    requires Invariant(w) && IsLive(order, w.table)
    ensures var w' := HandleAll(w, order, now, expiration);
      && IsRun(w, Handles(order, now, expiration), w')
      && w'.table == After(w.table, order, now, expiration)
      && EntriesOf(w'.reported) == EntriesOf(w.reported) + Written(w.table, order, now, expiration)
    decreases |order|
  {
    hide Completion, Invariant, HandleStep, EntriesOf, After, Written, IsLive, IsRun;
    if order == [] {
      RunNothing(w);
      AfterNothing(w.table, now, expiration);
      WrittenNothing(w.table, now, expiration);
    } else {
      var rest := order[1..];
      HandleFirst(w, order, now, expiration);
      var next := HandleStep(w, order[0], now, expiration);
      HandlesRun(next, rest, now, expiration);
      LiveMembers(order, w.table);
      LiveMembers(rest, next.table);
      WrittenFirst(w.table, order, now, expiration);
      WrittenSame(w.table, next.table, rest, now, expiration);
      AfterFirst(w.table, next.table, order, now, expiration);
      RunHandle(w, order[0], now, expiration, Handles(rest, now, expiration), HandleAll(next, rest, now, expiration));
    }
  }

  lemma WrittenNothing(table: Table, now: int, expiration: nat)
    ensures Written(table, [], now, expiration) == []
  {
  }

  lemma LiveMembers(order: seq<uint16>, table: Table)
    requires IsLive(order, table)
    ensures forall k :: k in order ==> k in table
  {
  }

  lemma RunHandle(w: World, key: uint16, now: int, expiration: nat, events: seq<Event>, w': World)
    requires w.table.Keys == w.born.Keys && key in w.table && IsRun(HandleStep(w, key, now, expiration), events, w')
    ensures IsRun(w, [Handle(key, now, expiration)] + events, w')
  {
    hide HandleStep;
    var all := [Handle(key, now, expiration)] + events;
    assert all[0] == Handle(key, now, expiration) && all[1..] == events;
  }

  lemma AfterFirst(table: Table, next: Table, order: seq<uint16>, now: int, expiration: nat)
    requires order != [] && order[0] in table && order[0] !in order[1..]
    requires next == Handled(table, order[0], now, expiration)
    ensures After(next, order[1..], now, expiration) == After(table, order, now, expiration)
  {
    hide Completion;
    assert order == [order[0]] + order[1..];
  }

  /**
   Processing the results in any order is a run of the state machine, up to the entry where the program stops.
   If no reply came before its request, it does not stop, and what it leaves does not depend on the order. The entries
   reported are those written.
   */
  lemma ProcessingIsRun(w: World, output: OutputFormat, order: seq<uint16>, now: int, expiration: nat)
    requires Invariant(w) && IsOrder(order, w.table.Keys)
    ensures var n := Reached(output, w.table, order, now, expiration); IsLive(order[..n], w.table)
    ensures var n := Reached(output, w.table, order, now, expiration);
            var w' := HandleAll(w, order[..n], now, expiration);
      && IsRun(w, Handles(order[..n], now, expiration), w')
      && w'.table == After(w.table, order[..n], now, expiration)
      && EntriesOf(w'.reported) == EntriesOf(w.reported) + Written(w.table, order[..n], now, expiration)
      && (n == |order| <==> output.OldFormat? || AllOnTime(w.table))
      && (n == |order| ==> w'.table == Remaining(w.table, now, expiration))
  {
    hide *;
    TableStamped(w);
    OrderMembers(w.table, order);
    ProcessingCompletes(output, w.table, order, now, expiration);
    var n := Reached(output, w.table, order, now, expiration);
    FirstLive(w.table, order, n);
    HandlesRun(w, order[..n], now, expiration);
    AfterWhole(w.table, order, now, expiration);
  }

  lemma OrderMembers(table: Table, order: seq<uint16>)
    requires IsOrder(order, table.Keys)
    ensures forall k :: k in order ==> k in table
  {
  }

  lemma AfterWhole(table: Table, order: seq<uint16>, now: int, expiration: nat)
    requires IsOrder(order, table.Keys)
    ensures After(table, order[..|order|], now, expiration) == Remaining(table, now, expiration)
  {
    assert order[..|order|] == order;
    AfterAll(table, order, now, expiration);
  }

  lemma FirstLive(table: Table, order: seq<uint16>, n: nat)
    requires IsOrder(order, table.Keys) && n <= |order|
    ensures IsLive(order[..n], table)
  {
  }

  lemma TableStamped(w: World)
    requires Invariant(w)
    ensures forall k :: k in w.table ==> Stamped(w.table[k])
  {
  }

  /** A probe sent at 1000 ns, and a reply received at 900 ns. */
  function SentLater(destination: DestinationInfo, local: Address): Entry {
    Initial(Request(0, 0, 1, 64, 64, 0, 0, 0, destination), 1000, local, Unknown)
  }

  function ReceivedEarlier(destination: Address, local: Address): ReceivedData {
    ReceivedData(local, destination, destination, 900, NO_STAMP, NO_STAMP)
  }

  /** A reachable state in which processing stops: the clock is set back between the request and its reply. */
  lemma ClockStepStops(destination: DestinationInfo, local: Address, output: OutputFormat, now: int, expiration: nat)
    requires !output.OldFormat?
    ensures var e := SentLater(destination, local);
            var reply := Reply(false, ReceivedEarlier(e.request.destination.address, e.source), ICMP_ECHO_REPLY, 0, 1,
                               64);
      && InsertEnabled(Start(0), e) && Enabled(InsertStep(Start(0), e), reply)
      && var w := Step(InsertStep(Start(0), e), reply);
         && IsRun(Start(0), [Insert(e), reply], w) && w.table.Keys == {1}
         && Reached(output, w.table, [1], now, expiration) == 0
  {
    var e := SentLater(destination, local);
    var data := ReceivedEarlier(e.request.destination.address, e.source);
    var reply := Reply(false, data, ICMP_ECHO_REPLY, 0, 1, 64);
    assert KeyOf(0, 1) == 1 by { assert KeyOf(0, 0) == 0; }
    var w1 := InsertStep(Start(0), e);
    assert w1.table == map[1 := e];
    var w2 := Step(w1, reply);
    assert w2.table[1].status == Success && w2.table[1].received.application.time == 900;
    TwoEvents(Start(0), Insert(e), w1, reply, w2);
    FailsExactly(output, w2.table[1], now, expiration);
  }

  lemma TwoEvents(w: World, first: Event, between: World, second: Event, w': World)
    requires w.table.Keys == w.born.Keys && Enabled(w, first) && between == Step(w, first)
    requires between.table.Keys == between.born.Keys && Enabled(between, second) && w' == Step(between, second)
    ensures IsRun(w, [first, second], w')
  {
    hide Step, Enabled;
    assert [first, second][1..] == [second] && [second][1..] == [];
    assert IsRun(w', [], w');
    assert [second][0] == second && IsRun(between, [second], w');
    assert [first, second][0] == first;
  }
}
