/**
 Ping: one call sends the probes of all rounds to all destinations; processing the results reports and
 erases what is complete or timed out, in the order of destination and round.
 */
module Ping {
  import opened Words
  import opened Addresses
  import opened ResultEntries
  import opened LifeCycle
  import opened Headers
  import opened Probes
  import opened IoModule
  import opened Filing
  import opened IcmpModule
  import opened PingCalls
  import opened PingProcessing

  function CountedDown(outstanding: nat, completed: nat): nat {
    if outstanding > completed then outstanding - completed else 0
  }

  /** The counter after these entries have been completed. */
  ghost predicate Counted(outstanding: nat, completed: seq<Entry>, left: nat)
  {
    left == CountedDown(outstanding, |completed|)
  }

  lemma CountedNothing(outstanding: nat)
    ensures Counted(outstanding, [], outstanding)
  {
  }

  lemma CountedMore(outstanding: nat, completed: seq<Entry>, between: nat, more: seq<Entry>, left: nat)
    requires Counted(outstanding, completed, between) && left == CountedDown(between, |more|)
    ensures Counted(outstanding, completed + more, left)
  {
  }

  /** One less for each entry, but never less than none. */
  lemma CountedAll(outstanding: nat, completed: seq<Entry>, left: nat)
    requires Counted(outstanding, completed, left)
    ensures left + |completed| == outstanding || (left == 0 && |completed| >= outstanding)
  {
  }

  class Ping {
    const ioModule: ICMPModule
    const rounds: nat
    const expiration: nat
    const finalMaxTTL: nat
    const output: OutputFormat
    const targetChecksums: array<uint32>
    var seqNumber: uint16
    var outstandingRequests: nat

    constructor (ioModule: ICMPModule, rounds: nat, expiration: nat, finalMaxTTL: nat, output: OutputFormat,
                 seqNumber: uint16)
      ensures this.ioModule == ioModule && this.rounds == rounds && this.expiration == expiration
        && this.output == output
      ensures this.finalMaxTTL == finalMaxTTL && this.seqNumber == seqNumber && outstandingRequests == 0
      ensures fresh(targetChecksums) && targetChecksums.Length == rounds
    {
      this.ioModule, this.rounds, this.expiration, this.output := ioModule, rounds, expiration, output;
      this.finalMaxTTL, this.seqNumber, outstandingRequests := finalMaxTTL, seqNumber, 0;
      targetChecksums := new uint32[rounds](_ => 0);
    }

    /** The turns of one destination: all rounds, with the final TTL. */
    ghost function Turns(): seq<Turn>
      requires rounds > 0
    {
      Plan(0, rounds - 1, finalMaxTTL, finalMaxTTL)
    }

    lemma TurnsFit(targets: seq<uint32>, target: uint32)
      requires rounds > 0 && |targets| == rounds && AllTargets(targets, target) && target < 0xffff
      ensures |Turns()| == rounds && Fits(Turns(), targets) && TargetsOK(targets, Turns())
    {
      PlanSize(0, rounds - 1, finalMaxTTL, finalMaxTTL);
      PlanDistinct(0, rounds - 1, finalMaxTTL, finalMaxTTL);
    }

    method ChooseTargets()
      requires rounds > 0 && targetChecksums.Length == rounds
      modifies targetChecksums
      ensures AllTargets(targetChecksums[..], PingTarget(ioModule.identifier, seqNumber))
    {
      targetChecksums[0] := Xor(ioModule.identifier, seqNumber);
      if targetChecksums[0] == 0xffff {
        targetChecksums[0] := 0;
      }
      for i := 1 to rounds
        invariant AllTargets(targetChecksums[..i], PingTarget(ioModule.identifier, seqNumber))
      {
        targetChecksums[i] := targetChecksums[0];
      }
    }

    /** The fields, the map and the messages agree with the specification's sender state. */
    ghost predicate InStep(s: Sender, probes: seq<seq<byte>>, table: Table, outstandingBefore: nat)
      reads this, targetChecksums, ioModule, ioModule.base.results, ioModule.base.results.entries.Values
    {
      && s.seqNumber == seqNumber && s.timeStampSeqID == ioModule.timeStampSeqID && s.targets == targetChecksums[..]
      && s.probes == probes && outstandingBefore + s.messagesSent == outstandingRequests
      && ioModule.base.results.View() == WithEntries(table, s.entries, |s.entries|)
    }

    lemma CallReady(s: Sender, probes: seq<seq<byte>>, table: Table, outstandingBefore: nat, target: uint32,
                    localAddress: Address, destination: DestinationInfo)
      requires ioModule.Valid() && rounds > 0 && InStep(s, probes, table, outstandingBefore)
      requires |s.targets| == rounds && AllTargets(s.targets, target) && target < 0xffff
      requires KeysFree(WithEntries(table, s.entries, |s.entries|).Keys, s.seqNumber, rounds)
      ensures s.seqNumber == seqNumber && s.timeStampSeqID == ioModule.timeStampSeqID
        && s.targets == targetChecksums[..]
      ensures s.probes == probes && outstandingBefore + s.messagesSent == outstandingRequests
      ensures ioModule.base.results.View() == WithEntries(table, s.entries, |s.entries|)
      ensures KeysFree(ioModule.base.results.entries.Keys, seqNumber, rounds)
      ensures Turns() == Plan(0, rounds - 1, finalMaxTTL, finalMaxTTL) && |Turns()| == rounds
      ensures Fits(Turns(), s.targets) && TargetsOK(s.targets, Turns())
      ensures ioModule.ConfigFor(localAddress, destination).payloadSize >= MIN_TRACESERVICE_HEADER_SIZE
    {
      hide KeysFree, WithEntries, AllTargets, TargetsOK, Fits, Plan;
      ioModule.base.results.ViewKeys();
      TurnsFit(s.targets, target);
    }

    /** The call for one destination, after others that led to s. */
    method SendTo(localAddress: Address, destination: DestinationInfo, clock: seq<int>, outcomes: seq<SendOutcome>,
                  probesBefore: seq<seq<byte>>, ghost s: Sender, ghost table: Table, ghost outstandingBefore: nat,
                  ghost target: uint32)
      returns (probes: seq<seq<byte>>)
      requires ioModule.Valid() && ioModule.base.results.Valid() && rounds > 0 && |clock| == |outcomes| == rounds
      requires InStep(s, probesBefore, table, outstandingBefore)
      requires |s.targets| == rounds && AllTargets(s.targets, target) && target < 0xffff
      requires KeysFree(WithEntries(table, s.entries, |s.entries|).Keys, s.seqNumber, rounds)
      modifies this`seqNumber, this`outstandingRequests, targetChecksums, ioModule`timeStampSeqID, ioModule.base.results
      ensures ioModule.base.results.Valid() && |Turns()| == rounds && Fits(Turns(), s.targets)
      ensures InStep(SendAll(ioModule.ConfigFor(localAddress, destination), s, Turns(), clock, outcomes), probes,
                     table, outstandingBefore)
    {
      hide *;
      ghost var c := ioModule.ConfigFor(localAddress, destination);
      CallReady(s, probesBefore, table, outstandingBefore, target, localAddress, destination);
      var messagesSent, lastSeqNumber, sent :=
        ioModule.SendRequest(localAddress, destination, finalMaxTTL, finalMaxTTL, 0, rounds - 1, seqNumber,
                             targetChecksums, clock, outcomes);
      seqNumber := lastSeqNumber;
      outstandingRequests := outstandingRequests + messagesSent;
      probes := probesBefore + sent;
      SendAllAfter(c, s, Turns(), clock, outcomes);
      ghost var r := SendAll(c, Sender(s.seqNumber, s.timeStampSeqID, s.targets, 0, [], []), Turns(), clock, outcomes);
      WithEntriesTwice(table, s.entries, r.entries, |r.entries|);
      CallDone(SendAll(c, s, Turns(), clock, outcomes), r, s, messagesSent, sent, probes, table, outstandingBefore);
    }

    lemma CallDone(end: Sender, r: Sender, s: Sender, messagesSent: nat, sent: seq<seq<byte>>, probes: seq<seq<byte>>,
                   table: Table, outstandingBefore: nat)
      requires ioModule.Mirrors(r, seqNumber, messagesSent, sent, targetChecksums)
      requires end == Sender(r.seqNumber, r.timeStampSeqID, r.targets, s.messagesSent + r.messagesSent,
                             s.probes + r.probes, s.entries + r.entries)
      requires probes == s.probes + sent && outstandingRequests == outstandingBefore + s.messagesSent + messagesSent
      requires ioModule.base.results.View() == WithEntries(table, s.entries + r.entries, |s.entries| + |r.entries|)
      ensures InStep(end, probes, table, outstandingBefore)
    {
    }

    ghost function Configs(localAddresses: seq<Address>, destinations: seq<DestinationInfo>): (configs: seq<Config>)
      requires |localAddresses| == |destinations|
      ensures |configs| == |destinations|
    {
      seq(|destinations|, i requires 0 <= i < |destinations| => ioModule.ConfigFor(localAddresses[i], destinations[i]))
    }

    /** The environment's part of a call: for each destination a local address, and per round a time and a result. */
    ghost predicate Environment(localAddresses: seq<Address>, destinations: seq<DestinationInfo>, clocks: seq<seq<int>>,
                                outcomes: seq<seq<SendOutcome>>)
    {
      && |localAddresses| == |destinations| == |clocks| == |outcomes|
      && forall i :: 0 <= i < |clocks| ==> |clocks[i]| == |outcomes[i]| == rounds
    }

    lemma CallsReady(localAddresses: seq<Address>, destinations: seq<DestinationInfo>, clocks: seq<seq<int>>,
                     outcomes: seq<seq<SendOutcome>>, targets: seq<uint32>, target: uint32)
      requires ioModule.Valid() && rounds > 0 && Environment(localAddresses, destinations, clocks, outcomes)
      requires |targets| == rounds && AllTargets(targets, target) && target < 0xffff
      ensures |Turns()| == rounds && |localAddresses| == |destinations| == |clocks| == |outcomes|
      ensures CallsFit(Configs(localAddresses, destinations), targets, Turns(), clocks, outcomes)
    {
      TurnsFit(targets, target);
    }

    lemma StartInStep(start: Sender, configs: seq<Config>, clocks: seq<seq<int>>, outcomes: seq<seq<SendOutcome>>,
                      table: Table, outstandingBefore: nat)
      requires start == Sender(seqNumber, ioModule.timeStampSeqID, targetChecksums[..], 0, [], [])
      requires outstandingBefore == outstandingRequests && table == ioModule.base.results.View() && rounds > 0
      requires CallsFit(configs, start.targets, Turns(), clocks, outcomes)
      ensures InStep(start, [], table, outstandingBefore)
      ensures SendToFirst(configs, start, Turns(), clocks, outcomes, 0) == start
    {
    }

    lemma TargetsInStep(s: Sender, probes: seq<seq<byte>>, table: Table, outstandingBefore: nat)
      requires InStep(s, probes, table, outstandingBefore)
      ensures s.targets == targetChecksums[..]
    {
    }

    lemma ConfigAt(localAddresses: seq<Address>, destinations: seq<DestinationInfo>, i: nat)
      requires |localAddresses| == |destinations| && i < |destinations|
      ensures Configs(localAddresses, destinations)[i] == ioModule.ConfigFor(localAddresses[i], destinations[i])
    {
    }

    /** Sends the probes of all rounds to all destinations, with one checksum for the whole call. */
    method SendRequests(localAddresses: seq<Address>, destinations: seq<DestinationInfo>, clocks: seq<seq<int>>,
                        outcomes: seq<seq<SendOutcome>>) returns (probes: seq<seq<byte>>)
      requires ioModule.Valid() && ioModule.base.results.Valid() && rounds > 0 && targetChecksums.Length == rounds
      requires Environment(localAddresses, destinations, clocks, outcomes)
      requires KeysFree(ioModule.base.results.entries.Keys, seqNumber, |destinations| * rounds)
      modifies this`seqNumber, this`outstandingRequests, targetChecksums, ioModule`timeStampSeqID, ioModule.base.results
      ensures ioModule.base.results.Valid()
      ensures AllTargets(targetChecksums[..], PingTarget(ioModule.identifier, old(seqNumber)))
      ensures CallsFit(Configs(localAddresses, destinations), targetChecksums[..], Turns(), clocks, outcomes)
      ensures var start := Sender(old(seqNumber), old(ioModule.timeStampSeqID), targetChecksums[..], 0, [], []);
              InStep(SendToFirst(Configs(localAddresses, destinations), start, Turns(), clocks, outcomes,
                                 |destinations|), probes,
                     old(ioModule.base.results.View()), old(outstandingRequests))
    {
      hide *;
      ghost var target := PingTarget(ioModule.identifier, seqNumber);
      ghost var table, outstandingBefore := ioModule.base.results.View(), outstandingRequests;
      ChooseTargets();
      ghost var start := Sender(seqNumber, ioModule.timeStampSeqID, targetChecksums[..], 0, [], []);
      CallsReady(localAddresses, destinations, clocks, outcomes, targetChecksums[..], target);
      ghost var configs := Configs(localAddresses, destinations);
      ioModule.base.results.ViewKeys();
      StartInStep(start, configs, clocks, outcomes, table, outstandingBefore);
      probes := [];
      ghost var s := start;
      for i := 0 to |destinations|
        invariant ioModule.base.results.Valid() && targetChecksums[..] == start.targets
        invariant CallsFit(configs, start.targets, Turns(), clocks, outcomes)
        invariant s == SendToFirst(configs, start, Turns(), clocks, outcomes, i)
        invariant InStep(s, probes, table, outstandingBefore)
      {
        NextCall(configs, start, Turns(), clocks, outcomes, i, target, table);
        OneChecksumForAll(configs, start, Turns(), clocks, outcomes, i + 1, target);
        ConfigAt(localAddresses, destinations, i);
        probes := SendTo(localAddresses[i], destinations[i], clocks[i], outcomes[i], probes, s, table,
                         outstandingBefore, target);
        s := SendAll(configs[i], s, Turns(), clocks[i], outcomes[i]);
        TargetsInStep(s, probes, table, outstandingBefore);
      }
    }

    /**
     Times out, writes and erases, entry by entry. `notified` are the entries that the result callback gets.
     `aborted`: a check on a result has failed, and the program has stopped at this entry.
     */
    method ProcessResults(order: seq<uint16>, now: int)
        returns (written: seq<Entry>, notified: seq<Entry>, aborted: bool)
      requires ioModule.base.results.Valid() && IsOrder(order, ioModule.base.results.entries.Keys)
      modifies this`outstandingRequests, ioModule.base.results, ioModule.base.results.entries.Values
      ensures ioModule.base.results.Valid()
      ensures var table := old(ioModule.base.results.View()); var n := Reached(output, table, order, now, expiration);
        && (aborted <==> n < |order|)
        && ioModule.base.results.View() == Stopped(table, order, n, now, expiration)
        && (!aborted ==> ioModule.base.results.View() == Remaining(table, now, expiration))
        && written == Written(table, order[..n], now, expiration)
        && notified == Notified(table, order, n, now, expiration)
      ensures outstandingRequests + |written| == old(outstandingRequests)
           || (outstandingRequests == 0 && |written| >= old(outstandingRequests))
    {
      hide *;
      var results := ioModule.base.results;
      ghost var table, before, outstanding := results.View(), results.entries.Values, outstandingRequests;
      results.ViewKeys();
      ProgressStart(output, table, order, now, expiration);
      CountedNothing(outstanding);
      written, notified := [], [];
      for i := 0 to |order|
        invariant results.Valid() && results.entries.Values <= before
        invariant Progress(output, table, order, i, now, expiration, results.View(), written) && notified == written
        invariant Counted(outstanding, written, outstandingRequests)
      {
        ghost var between, view := outstandingRequests, results.View();
        results.ViewKeys();
        ProgressStep(output, table, order, i, now, expiration, view, written);
        var done, failed := ProcessEntry(order[i], now);
        notified := notified + done;
        if failed {
          ProgressEnd(output, table, order, i, now, expiration, view, written);
          CountedAll(outstanding, written, outstandingRequests);
          return written, notified, true;
        }
        CountedMore(outstanding, written, between, done, outstandingRequests);
        written := written + done;
      }
      ProgressEnd(output, table, order, |order|, now, expiration, results.View(), written);
      CountedAll(outstanding, written, outstandingRequests);
      aborted := false;
    }

    /** One entry: its final value, if it is complete. */
    method ProcessEntry(key: uint16, now: int) returns (done: seq<Entry>, failed: bool)
      requires ioModule.base.results.Valid() && key in ioModule.base.results.View()
      modifies this`outstandingRequests, ioModule.base.results, ioModule.base.results.entries.Values
      ensures ioModule.base.results.Valid()
      ensures var e := old(ioModule.base.results.View())[key];
        && (failed <==> Fails(output, e, now, expiration))
        && done == (if failed then [TimedOut(e, now, expiration)] else Completion(e, now, expiration))
        && outstandingRequests
            == (if failed then old(outstandingRequests) else CountedDown(old(outstandingRequests), |done|))
        && ioModule.base.results.View()
        == (if failed then old(ioModule.base.results.View())[key := TimedOut(e, now, expiration)]
            else Handled(old(ioModule.base.results.View()), key, now, expiration))
      ensures ioModule.base.results.entries.Values <= old(ioModule.base.results.entries.Values)
    {
      hide Completion, Fails, TimedOut, ResultsMap.View, ResultsMap.Valid;
      done, failed := RemoveCompleted(ioModule.base.results, key, output, now, expiration);
      if !failed && done != [] && outstandingRequests > 0 {
        outstandingRequests := outstandingRequests - 1;
      }
    }
  }

  /** The entry for the result callback, if it is complete, and whether writing it stops the program. */
  method RemoveCompleted(results: ResultsMap, key: uint16, output: OutputFormat, now: int, expiration: nat)
    returns (done: seq<Entry>, failed: bool)
    requires results.Valid() && key in results.View()
    modifies results, results.entries.Values
    ensures results.Valid() && results.entries.Values <= old(results.entries.Values)
    ensures var e := old(results.View())[key];
      && (failed <==> Fails(output, e, now, expiration))
      && done == (if failed then [TimedOut(e, now, expiration)] else Completion(e, now, expiration))
      && results.View() == (if failed then old(results.View())[key := TimedOut(e, now, expiration)]
                            else Handled(old(results.View()), key, now, expiration))
  {
    hide Writable, TimedOut, ResultsMap.View, ResultsMap.Valid;
    ghost var view := results.View();
    results.ViewKeys();
    var resultEntry := results.entries[key];
    TimeOut(results, resultEntry, key, now, expiration);
    TimedOutOrSame(view[key], now, expiration);
    EntryAt(results, key);
    done, failed := [], false;
    if resultEntry.Status != Unknown {
      done := [resultEntry.Value()];
      if !Writable(output, resultEntry.Value()) {
        return done, true;
      }
      var elementsErased := results.Erase(resultEntry.Info.seqNumber);
      // The program's assure:
      assert elementsErased == 1;
      assert view[key := resultEntry.Value()] - {key} == view - {key};
    } else {
      assert view[key := view[key]] == view;
    }
  }

  method TimeOut(results: ResultsMap, resultEntry: ResultEntry, key: uint16, now: int, expiration: nat)
    requires results.Valid() && key in results.entries && results.entries[key] == resultEntry
    modifies resultEntry
    ensures results.Valid() && key in old(results.View())
    ensures results.View() == old(results.View())[key := TimedOut(old(results.View())[key], now, expiration)]
  {
    hide TruncatedMilliseconds;
    if resultEntry.Status == Unknown
      && TruncatedMilliseconds(now - resultEntry.SendTime.application.time) >= expiration {
      resultEntry.Expire(expiration);
    }
  }

  lemma TimedOutOrSame(e: Entry, now: int, expiration: nat)
    ensures TimedOut(e, now, expiration).status == Unknown ==> TimedOut(e, now, expiration) == e
  {
  }

  lemma EntryAt(results: ResultsMap, key: uint16)
    requires results.Valid() && key in results.entries
    ensures key in results.View() && results.View()[key] == results.entries[key].Value()
    ensures results.entries[key].Info.seqNumber == key
  {
  }
}
