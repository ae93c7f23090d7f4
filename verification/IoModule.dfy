/**
 The map of results and the methods that change it: recording replies, kernel time stamps, and
 completing entries. Each method is proved against its step in LifeCycle.
 */
module IoModule {
  import opened Wrappers
  import opened Words
  import opened ResultEntries
  import opened LifeCycle

  /** The map that the service and its I/O module share. */
  class ResultsMap {
    var entries: map<uint16, ResultEntry>

    constructor ()
      ensures entries == map[] && Valid()
    {
      entries := map[];
    }

    /** Every entry is filed under its own sequence number, so no two keys share an entry. */
    ghost predicate Valid()
      reads this, entries.Values
    {
      forall k :: k in entries ==> entries[k].Info.seqNumber == k
    }

    ghost function View(): Table
      reads this, entries.Values
    {
      map k | k in entries :: entries[k].Value()
    }

    lemma ViewKeys()
      ensures View().Keys == entries.Keys
    {
    }

    /** The program's assure: the key must be free. */
    method Insert(entry: ResultEntry)
      requires Valid() && entry.Info.seqNumber !in entries
      modifies this
      ensures Valid() && entries == old(entries)[entry.Info.seqNumber := entry]
      ensures View() == old(View())[entry.Info.seqNumber := entry.Value()]
    {
      entries := entries[entry.Info.seqNumber := entry];
    }

    method MarkFailed(entry: ResultEntry, error: SendError)
      requires Valid() && entry.Info.seqNumber in entries && entries[entry.Info.seqNumber] == entry
      modifies entry
      ensures Valid() && entry.Value() == FailedToSend(old(entry.Value()), error)
      ensures View() == old(View())[entry.Info.seqNumber := entry.Value()]
    {
      entry.SendingFailed(error);
    }

    method Erase(key: uint16) returns (elementsErased: nat)
      requires Valid()
      modifies this
      ensures Valid() && entries == old(entries) - {key} && View() == old(View()) - {key}
      ensures elementsErased == if key in old(entries) then 1 else 0
    {
      elementsErased := if key in entries then 1 else 0;
      entries := entries - {key};
    }
  }

  class IOModuleBase {
    const results: ResultsMap
    const sourceIsV6: bool

    constructor (results: ResultsMap, sourceIsV6: bool)
      ensures this.results == results && this.sourceIsV6 == sourceIsV6
    {
      this.results := results;
      this.sourceIsV6 := sourceIsV6;
    }

    method ObtainStatus(icmpType: byte, icmpCode: byte) returns (status: HopStatus)
      ensures status == ReplyStatus(sourceIsV6, icmpType, icmpCode)
    {
      status := Unknown;
      if icmpType == 0 && icmpCode == 0 {
        status := Success;
      } else if sourceIsV6 {
        if icmpType == ICMP6_TIME_EXCEEDED {
          status := TimeExceeded;
        } else if icmpType == ICMP6_UNREACH {
          status := UnreachableStatusV6(icmpCode);
        } else if icmpType == ICMP6_ECHO_REPLY {
          status := Success;
        }
      } else {
        if icmpType == ICMP_TIME_EXCEEDED {
          status := TimeExceeded;
        } else if icmpType == ICMP_UNREACH {
          status := UnreachableStatusV4(icmpCode);
        } else if icmpType == ICMP_ECHO_REPLY {
          status := Success;
        }
      }
    }

    method ApplyReply(resultEntry: ResultEntry, data: ReceivedData, icmpType: byte, icmpCode: byte,
                      responseLength: uint32)
      returns (notified: bool)
      modifies resultEntry
      ensures resultEntry.Value()
          == WithReply(old(resultEntry.Value()), sourceIsV6, data, icmpType, icmpCode, responseLength)
      ensures notified <==> old(resultEntry.Status) == Unknown
    {
      notified := false;
      if resultEntry.Source.IsUnspecified() && !data.source.IsUnspecified() {
        resultEntry.UpdateSourceAddress(data.source);
      }
      if resultEntry.Status == Unknown {
        resultEntry.ResponseSize := responseLength;
        // Just the address: traffic class and identifier stay.
        resultEntry.Hop := data.reply.DropScopeID();
        resultEntry.SetReceiveTime(Application, SysClock, data.applicationReceiveTime);
        resultEntry.SetReceiveTime(Software, data.software.source, data.software.time);
        resultEntry.SetReceiveTime(Hardware, data.hardware.source, data.hardware.time);
        var status := ObtainStatus(icmpType, icmpCode);
        resultEntry.Status := status;
        notified := true;
      }
    }

    /** `notified` says whether the new-result callback is called. */
    method RecordResult(data: ReceivedData, icmpType: byte, icmpCode: byte, seqNumber: uint16, responseLength: uint32)
      returns (notified: bool)
      requires results.Valid()
      modifies results.entries.Values
      ensures results.Valid() && results.entries == old(results.entries)
      ensures results.View()
           == LifeCycle.RecordResult(old(results.View()), sourceIsV6, data, icmpType, icmpCode, seqNumber,
                                     responseLength)
      ensures notified <==>
          Accepted(old(results.View()), seqNumber, data) && old(results.View()[seqNumber].status) == Unknown
    {
      hide WithReply;
      notified := false;
      if seqNumber !in results.entries {
        return;
      }
      var resultEntry := results.entries[seqNumber];
      if Mismatch(data.source, resultEntry.Source) || Mismatch(data.destination, resultEntry.Info.destination.address) {
        return;
      }
      notified := ApplyReply(resultEntry, data, icmpType, icmpCode, responseLength);
      WithReplySameRequest(old(resultEntry.Value()), sourceIsV6, data, icmpType, icmpCode, responseLength);
    }

    lemma WithReplySameRequest(e: Entry, isV6: bool, data: ReceivedData, icmpType: byte, icmpCode: byte, length: uint32)
      ensures WithReply(e, isV6, data, icmpType, icmpCode, length).request == e.request
    {
    }

    method ApplySendTime(resultEntry: ResultEntry, info: TxInfo, software: Stamp, hardware: Stamp)
      modifies resultEntry
      ensures resultEntry.Value() == TxStamped(old(resultEntry.Value()), info, software, hardware)
    {
      var layer: Option<Layer>, source, time := None, NoSource, UNSET;
      if hardware.IsSet() {
        source, time := TimestampingHW, hardware.Time();
        if info.Sent? {
          layer := Some(Hardware);
        }
      }
      if software.IsSet() {
        source, time := TimestampingSW, software.Time();
        if info.Scheduled? {
          layer := Some(Scheduler);
        } else if info.Sent? {
          layer := Some(Software);
        }
      }
      if layer.Some? && source != NoSource {
        resultEntry.SetSendTime(layer.value, source, time);
      }
    }

    method UpdateSendTimeInResultEntry(id: uint32, info: TxInfo, software: Stamp, hardware: Stamp)
      requires results.Valid()
      modifies results.entries.Values
      ensures results.Valid() && results.entries == old(results.entries)
      ensures results.View() == UpdateSendTime(old(results.View()), id, info, software, hardware)
    {
      hide TxStamped;
      ghost var view := results.View();
      var position: int := 0;
      while position < 0x1_0000
        invariant 0 <= position <= 0x1_0000
        invariant FirstWithID(view, id, 0) == FirstWithID(view, id, position)
      {
        if position in results.entries && results.entries[position].Info.timeStampSeqID == id {
          assert view[position].request.timeStampSeqID == id;
          ApplySendTime(results.entries[position], info, software, hardware);
          TxStampedSameRequest(view[position], info, software, hardware);
          return;
        }
        position := position + 1;
      }
    }

    lemma TxStampedSameRequest(e: Entry, info: TxInfo, software: Stamp, hardware: Stamp)
      ensures TxStamped(e, info, software, hardware).request == e.request
    {
    }
  }
}
