/**
 Kernel time stamps after a call: which entry the stamp of a probe reaches. A failed send does not advance
 the time stamp ID, so that the next probe shares its ID.
 */
module StampAttribution {
  import opened Wrappers
  import opened Words
  import opened Headers
  import opened ResultEntries
  import opened LifeCycle
  import opened Probes
  import opened Filing
  import opened PingCalls
  import opened UdpProbes

  /** The ID of turn k: the number of sends before it that succeeded, on top of the first ID. */
  function TurnID(firstID: uint32, outcomes: seq<SendOutcome>, k: nat): uint32
    requires k <= |outcomes|
  {
    Wrap32(firstID + Successes(outcomes[..k]))
  }

  lemma {:induction false} SuccessesAppend(a: seq<SendOutcome>, b: seq<SendOutcome>)
    ensures Successes(a + b) == Successes(a) + Successes(b)
  {
    if a == [] {
      assert a + b == b;
    } else {
      assert (a + b)[1..] == a[1..] + b;
      SuccessesAppend(a[1..], b);
    }
  }

  lemma {:induction false} SuccessesAtMost(outcomes: seq<SendOutcome>)
    ensures Successes(outcomes) <= |outcomes|
  {
    if outcomes == [] {
    } else {
      SuccessesAtMost(outcomes[1..]);
    }
  }

  /** Between two turns of a call, the IDs advance by the successes from the one to the other. */
  lemma SuccessesBetween(outcomes: seq<SendOutcome>, j: nat, k: nat)
    requires j <= k <= |outcomes|
    ensures Successes(outcomes[..j]) <= Successes(outcomes[..k]) <= Successes(outcomes[..j]) + (k - j)
    ensures j < k && outcomes[j].Success() ==> Successes(outcomes[..j]) < Successes(outcomes[..k])
    ensures j < k && outcomes[k - 1].Success() ==> Successes(outcomes[..j]) < Successes(outcomes[..k])
    ensures k == j + 1 && !outcomes[j].Success() ==> Successes(outcomes[..k]) == Successes(outcomes[..j])
  {
    var between := outcomes[j..k];
    assert outcomes[..k] == outcomes[..j] + between;
    SuccessesAppend(outcomes[..j], between);
    SuccessesAtMost(between);
    if j < k {
      SuccessesEnds(between);
      assert between[0] == outcomes[j] && between[|between| - 1] == outcomes[k - 1];
    }
  }

  lemma SuccessesEnds(outcomes: seq<SendOutcome>)
    requires outcomes != []
    ensures outcomes[0].Success() || outcomes[|outcomes| - 1].Success() ==> Successes(outcomes) > 0
    ensures |outcomes| == 1 && !outcomes[0].Success() ==> Successes(outcomes) == 0
  {
    var last := |outcomes| - 1;
    assert outcomes == outcomes[..last] + [outcomes[last]];
    SuccessesAppend(outcomes[..last], [outcomes[last]]);
    assert [outcomes[last]][1..] == [] && Successes([]) == 0;
    assert |outcomes| == 1 ==> outcomes[1..] == [];
  }

  lemma WrapStep(first: uint32, n: nat)
    ensures Wrap32(Wrap32(first + 1) + n) == Wrap32(first + 1 + n)
  {
  }

  /** In every call, entry k has the ID that the successes before turn k determine. */
  lemma {:induction false} IDsOfCall(c: Config, s: Sender, plan: seq<Turn>, clock: seq<int>, outcomes: seq<SendOutcome>)
    requires c.payloadSize >= MIN_TRACESERVICE_HEADER_SIZE && Fits(plan, s.targets)
    requires |clock| == |outcomes| == |plan|
    ensures var r := SendAll(c, s, plan, clock, outcomes);
      && |r.entries| == |s.entries| + |plan|
      && (forall k :: 0 <= k < |plan| ==>
          r.entries[|s.entries| + k].request.timeStampSeqID == TurnID(s.timeStampSeqID, outcomes, k))
      && r.timeStampSeqID == TurnID(s.timeStampSeqID, outcomes, |plan|)
    decreases |plan|
  {
    hide Records, TweakedProbe, Untweaked, Wrap32, NewEntry;
    OneEntryPerTurn(c, s, plan, clock, outcomes);
    WrapSame(s.timeStampSeqID);
    assert outcomes[..0] == [];
    if plan == [] {
    } else {
      var s' := SendProbe(c, s, plan[0], clock[0], outcomes[0]);
      var target := TweakedProbe(Untweaked(c, s, plan[0], clock[0]), s.targets[plan[0].0]).1;
      NewEntryID(c, s, plan[0], clock[0], target, outcomes[0]);
      OneEntryPerTurn(c, s', plan[1..], clock[1..], outcomes[1..]);
      IDsOfCall(c, s', plan[1..], clock[1..], outcomes[1..]);
      var r := SendAll(c, s', plan[1..], clock[1..], outcomes[1..]);
      forall k | 0 <= k < |plan|
          ensures TurnID(s'.timeStampSeqID, outcomes[1..], k) == TurnID(s.timeStampSeqID, outcomes, k + 1) {
        LaterID(s.timeStampSeqID, s'.timeStampSeqID, outcomes, k);
      }
      forall k | 0 <= k < |plan|
          ensures r.entries[|s.entries| + k].request.timeStampSeqID == TurnID(s.timeStampSeqID, outcomes, k) {
        if k > 0 {
          assert r.entries[|s'.entries| + (k - 1)].request.timeStampSeqID
              == TurnID(s'.timeStampSeqID, outcomes[1..], k - 1);
        } else {
          assert r.entries[|s.entries|] == s'.entries[|s.entries|];
        }
      }
    }
  }

  lemma WrapSame(n: uint32)
    ensures Wrap32(n) == n
  {
  }

  lemma NewEntryID(c: Config, s: Sender, turn: Turn, time: int, target: uint32, outcome: SendOutcome)
    ensures NewEntry(c, s, turn, time, target, outcome).request.timeStampSeqID == s.timeStampSeqID
  {
  }

  lemma LaterID(firstID: uint32, nextID: uint32, outcomes: seq<SendOutcome>, k: nat)
    requires k < |outcomes| && nextID == if outcomes[0].Success() then Wrap32(firstID + 1) else firstID
    ensures TurnID(nextID, outcomes[1..], k) == TurnID(firstID, outcomes, k + 1)
  {
    hide Wrap32;
    assert outcomes[..k + 1][1..] == outcomes[1..][..k];
    WrapStep(firstID, Successes(outcomes[1..][..k]));
  }

  // ----- The table after a call -----

  lemma DifferentIDs(first: uint32, a: nat, b: nat)
    requires a < b <= a + 0x1_0000
    ensures Wrap32(first + a) != Wrap32(first + b)
  {
  }

  /** The key of turn k's entry. */
  function TurnKey(first: uint16, k: nat): uint16 { KeyOf(first, k + 1) }

  /** The first n entries of a call are in the table under their keys, and the older ones as before. */
  ghost predicate FiledTo(filed: Table, table: Table, entries: seq<Entry>, first: uint16, n: nat) {
    && n <= |entries|
    && (forall k :: 0 <= k < n ==> TurnKey(first, k) in filed && filed[TurnKey(first, k)] == entries[k])
    && (forall m :: m in table ==> m in filed && filed[m] == table[m])
    && (forall m :: m in filed ==> m in table || exists k :: 0 <= k < n && m == TurnKey(first, k))
  }

  lemma FileOne(filed: Table, table: Table, entries: seq<Entry>, first: uint16, n: nat)
    requires n < |entries| <= 0x1_0000 && FiledTo(filed, table, entries, first, n) && TurnKey(first, n) !in table
    ensures FiledTo(filed[TurnKey(first, n) := entries[n]], table, entries, first, n + 1)
  {
    TurnKeysDiffer(first, n);
    hide TurnKey;
    var next := filed[TurnKey(first, n) := entries[n]];
    forall m | m in next && m !in table ensures exists k :: 0 <= k < n + 1 && m == TurnKey(first, k) {
      if m in filed {
        var k :| 0 <= k < n && m == TurnKey(first, k);
      } else {
        assert m == TurnKey(first, n);
      }
    }
  }

  lemma TurnKeysDiffer(first: uint16, n: nat)
    requires n < 0x1_0000
    ensures forall k :: 0 <= k < n ==> TurnKey(first, k) != TurnKey(first, n)
  {
    hide KeyOf;
    forall k | 0 <= k < n ensures TurnKey(first, k) != TurnKey(first, n) {
      SameKey(first, k + 1, n + 1);
    }
  }

  lemma {:induction false} FiledEntries(table: Table, entries: seq<Entry>, first: uint16, n: nat)
    requires n <= |entries| <= 0x1_0000 && Numbered(entries, first) && KeysFree(table.Keys, first, |entries|)
    ensures FiledTo(WithEntries(table, entries, n), table, entries, first, n)
  {
    hide *;
    if n == 0 {
      NothingFiled(table, entries, first);
    } else {
      var before := n - 1;
      FiledEntries(table, entries, first, before);
      NextTurnKey(table, entries, first, before);
      FileOne(WithEntries(table, entries, before), table, entries, first, before);
    }
  }

  lemma NothingFiled(table: Table, entries: seq<Entry>, first: uint16)
    ensures FiledTo(WithEntries(table, entries, 0), table, entries, first, 0)
  {
    hide TurnKey;
  }

  lemma NextTurnKey(table: Table, entries: seq<Entry>, first: uint16, n: nat)
    requires n < |entries| && Numbered(entries, first) && KeysFree(table.Keys, first, |entries|)
    ensures TurnKey(first, n) !in table
    ensures WithEntries(table, entries, n + 1) == WithEntries(table, entries, n)[TurnKey(first, n) := entries[n]]
  {
    hide KeyOf;
    assert KeyOf(first, n + 1) !in table.Keys;
  }

  /** The previous turn failed, and its key is the smaller one. */
  predicate SharesWithPrevious(first: uint16, outcomes: seq<SendOutcome>, k: nat)
    requires k < |outcomes|
  {
    k > 0 && !outcomes[k - 1].Success() && TurnKey(first, k) != 0
  }

  ghost predicate NoOlder(table: Table, key: uint16, id: uint32) {
    forall m :: m in table && m < key ==> table[m].request.timeStampSeqID != id
  }

  /** Of the entries of a call, only those before a series of failures share the ID of turn k. */
  lemma OthersInCall(first: uint16, firstID: uint32, outcomes: seq<SendOutcome>, j: nat, k: nat)
    requires j < |outcomes| <= 0x1_0000 && k < |outcomes| && j != k && outcomes[k].Success()
    requires TurnKey(first, j) < TurnKey(first, k) && !SharesWithPrevious(first, outcomes, k)
    ensures TurnID(firstID, outcomes, j) != TurnID(firstID, outcomes, k)
  {
    hide KeyOf, Wrap32;
    if j < k {
      SuccessesBetween(outcomes, j, k);
      DifferentIDs(firstID, Successes(outcomes[..j]), Successes(outcomes[..k]));
    } else {
      SuccessesBetween(outcomes, k, j);
      DifferentIDs(firstID, Successes(outcomes[..k]), Successes(outcomes[..j]));
    }
  }

  lemma PreviousKey(first: uint16, k: nat)
    requires k > 0 && TurnKey(first, k) != 0
    ensures TurnKey(first, k - 1) < TurnKey(first, k)
  {
  }

  /**
   After any call that finds its keys free, the kernel's time stamp of a probe that was sent reaches the
   probe's own entry exactly if no older entry with that ID has a smaller key, and the previous probe of the
   call was sent too, or the entry has the smallest key of all.
   */
  lemma StampReachesOwnEntry(table: Table, c: Config, s: Sender, plan: seq<Turn>, clock: seq<int>,
                             outcomes: seq<SendOutcome>, k: nat)
    requires c.payloadSize >= MIN_TRACESERVICE_HEADER_SIZE && Fits(plan, s.targets) && s.entries == []
    requires |clock| == |outcomes| == |plan| && k < |plan| && outcomes[k].Success()
    requires KeysFree(table.Keys, s.seqNumber, |plan|)
    ensures var entries := SendAll(c, s, plan, clock, outcomes).entries;
            var key := TurnKey(s.seqNumber, k);
      && |entries| == |plan| && entries[k].request.seqNumber == key
      && (FirstWithID(WithEntries(table, entries, |entries|), TurnID(s.timeStampSeqID, outcomes, k), 0) == Some(key)
          <==> && NoOlder(table, key, TurnID(s.timeStampSeqID, outcomes, k))
               && !SharesWithPrevious(s.seqNumber, outcomes, k))
  {
    hide *;
    CallSize(table.Keys, s.seqNumber, |plan|);
    CallFiled(table, c, s, plan, clock, outcomes);
    EntryReached(table, s.seqNumber, s.timeStampSeqID, outcomes, SendAll(c, s, plan, clock, outcomes).entries, k);
    NumberedAt(SendAll(c, s, plan, clock, outcomes).entries, s.seqNumber, k);
  }

  lemma NumberedAt(entries: seq<Entry>, first: uint16, k: nat)
    requires Numbered(entries, first) && k < |entries|
    ensures entries[k].request.seqNumber == TurnKey(first, k)
  {
    hide KeyOf;
  }

  /** What is known of the table after a call. */
  lemma CallFiled(table: Table, c: Config, s: Sender, plan: seq<Turn>, clock: seq<int>, outcomes: seq<SendOutcome>)
    requires c.payloadSize >= MIN_TRACESERVICE_HEADER_SIZE && Fits(plan, s.targets) && s.entries == []
    requires |clock| == |outcomes| == |plan| && KeysFree(table.Keys, s.seqNumber, |plan|)
    ensures var entries := SendAll(c, s, plan, clock, outcomes).entries;
      && |entries| == |plan| && Numbered(entries, s.seqNumber)
      && FiledTo(WithEntries(table, entries, |entries|), table, entries, s.seqNumber, |entries|)
      && forall j :: 0 <= j < |entries| ==> entries[j].request.timeStampSeqID == TurnID(s.timeStampSeqID, outcomes, j)
  {
    CallSize(table.Keys, s.seqNumber, |plan|);
    NothingNumbered(s.seqNumber);
    hide SendAll, KeyOf, WithEntries, TurnID, KeysFree, Numbered, FiledTo;
    IDsOfCall(c, s, plan, clock, outcomes);
    CallNumbers(c, s, plan, clock, outcomes, s.seqNumber);
    var entries := SendAll(c, s, plan, clock, outcomes).entries;
    assert forall j :: 0 <= j < |plan| ==> entries[|s.entries| + j] == entries[j];
    FiledEntries(table, entries, s.seqNumber, |entries|);
  }

  lemma CallSize(keys: set<uint16>, first: uint16, n: nat)
    requires KeysFree(keys, first, n)
    ensures n <= 0x1_0000
  {
  }

  /** Smaller keys that are in the table belong to older entries or to turns with another ID. */
  lemma SmallerKeys(table: Table, filed: Table, first: uint16, firstID: uint32, outcomes: seq<SendOutcome>,
                    entries: seq<Entry>, k: nat, m: uint16)
    requires k < |outcomes| == |entries| <= 0x1_0000 && outcomes[k].Success() && !SharesWithPrevious(first, outcomes, k)
    requires forall j :: 0 <= j < |entries| ==> entries[j].request.timeStampSeqID == TurnID(firstID, outcomes, j)
    requires FiledTo(filed, table, entries, first, |entries|)
    requires m in filed && m !in table && m < TurnKey(first, k)
    ensures filed[m].request.timeStampSeqID != TurnID(firstID, outcomes, k)
  {
    hide TurnKey, TurnID, SharesWithPrevious;
    var j :| 0 <= j < |entries| && m == TurnKey(first, j);
    OthersInCall(first, firstID, outcomes, j, k);
  }

  lemma EntryReached(table: Table, first: uint16, firstID: uint32, outcomes: seq<SendOutcome>, entries: seq<Entry>,
                     k: nat)
    requires k < |outcomes| == |entries| <= 0x1_0000 && outcomes[k].Success()
    requires forall j :: 0 <= j < |entries| ==> entries[j].request.timeStampSeqID == TurnID(firstID, outcomes, j)
    requires FiledTo(WithEntries(table, entries, |entries|), table, entries, first, |entries|)
    ensures var key := TurnKey(first, k);
      FirstWithID(WithEntries(table, entries, |entries|), TurnID(firstID, outcomes, k), 0) == Some(key)
      <==> NoOlder(table, key, TurnID(firstID, outcomes, k)) && !SharesWithPrevious(first, outcomes, k)
  {
    hide TurnKey, WithEntries, FirstWithID, TurnID, SharesWithPrevious;
    var filed, key, id := WithEntries(table, entries, |entries|), TurnKey(first, k), TurnID(firstID, outcomes, k);
    StampReaches(filed, key);
    if NoOlder(table, key, id) && !SharesWithPrevious(first, outcomes, k) {
      forall m | m in filed && m < key ensures filed[m].request.timeStampSeqID != id {
        if m !in table {
          SmallerKeys(table, filed, first, firstID, outcomes, entries, k, m);
        }
      }
    } else if SharesWithPrevious(first, outcomes, k) {
      PreviousTakesStamp(first, firstID, outcomes, k);
      assert TurnKey(first, k - 1) in filed;
    }
  }

  lemma PreviousTakesStamp(first: uint16, firstID: uint32, outcomes: seq<SendOutcome>, k: nat)
    requires k < |outcomes| && SharesWithPrevious(first, outcomes, k)
    ensures k > 0 && TurnID(firstID, outcomes, k - 1) == TurnID(firstID, outcomes, k)
    ensures TurnKey(first, k - 1) < TurnKey(first, k)
  {
    SuccessesBetween(outcomes, k - 1, k);
    PreviousKey(first, k);
  }

  /** So after a failed send the next probe's time stamp is lost to the failed entry: its own does not change. */
  lemma FailedSendTakesStamp(table: Table, c: Config, s: Sender, plan: seq<Turn>, clock: seq<int>,
                             outcomes: seq<SendOutcome>, k: nat,
                             info: TxInfo, software: Stamp, hardware: Stamp)
    requires c.payloadSize >= MIN_TRACESERVICE_HEADER_SIZE && Fits(plan, s.targets) && s.entries == []
    requires |clock| == |outcomes| == |plan| && k < |plan| && outcomes[k].Success()
      && SharesWithPrevious(s.seqNumber, outcomes, k)
    requires KeysFree(table.Keys, s.seqNumber, |plan|)
    ensures var entries := SendAll(c, s, plan, clock, outcomes).entries;
            var filed := WithEntries(table, entries, |entries|);
            var key := TurnKey(s.seqNumber, k);
      && key in filed && UpdateSendTime(filed, TurnID(s.timeStampSeqID, outcomes, k), info, software, hardware)[key]
          == filed[key]
  {
    StampReachesOwnEntry(table, c, s, plan, clock, outcomes, k);
    CallFiled(table, c, s, plan, clock, outcomes);
    hide SendAll, TurnKey, WithEntries, FirstWithID, TurnID, SharesWithPrevious, TxStamped, NoOlder, KeysFree;
  }

  // ----- UDP calls -----

  /** In every UDP call, entry k has the ID that the successes before turn k determine. */
  lemma {:induction false} IDsOfUDPCall(c: UDPConfig, s: UDPSender, plan: seq<Turn>, clock: seq<int>,
                                        outcomes: seq<SendOutcome>)
    requires c.Valid() && |clock| == |outcomes| == |plan|
    ensures var r := SendPackets(c, s, plan, clock, outcomes);
      && |r.entries| == |s.entries| + |plan| && s.entries <= r.entries
      && (forall k :: 0 <= k < |plan| ==>
            r.entries[|s.entries| + k].request.timeStampSeqID == TurnID(s.timeStampSeqID, outcomes, k))
      && r.timeStampSeqID == TurnID(s.timeStampSeqID, outcomes, |plan|)
    decreases |plan|
  {
    hide Packet, TurningOf, Wrap32, NewUDPEntry, Checked;
    WrapSame(s.timeStampSeqID);
    assert outcomes[..0] == [];
    if plan == [] {
    } else {
      var s' := SendPacket(c, s, plan[0], clock[0], outcomes[0]);
      NewUDPEntryID(c, s.timeStampSeqID, Increment(s.seqNumber), plan[0], clock[0], outcomes[0]);
      IDsOfUDPCall(c, s', plan[1..], clock[1..], outcomes[1..]);
      var r := SendPackets(c, s', plan[1..], clock[1..], outcomes[1..]);
      forall k | 0 <= k < |plan|
        ensures TurnID(s'.timeStampSeqID, outcomes[1..], k) == TurnID(s.timeStampSeqID, outcomes, k + 1)
      {
        LaterID(s.timeStampSeqID, s'.timeStampSeqID, outcomes, k);
      }
      forall k | 0 <= k < |plan|
        ensures r.entries[|s.entries| + k].request.timeStampSeqID == TurnID(s.timeStampSeqID, outcomes, k)
      {
        if k > 0 {
          assert r.entries[|s'.entries| + (k - 1)].request.timeStampSeqID
              == TurnID(s'.timeStampSeqID, outcomes[1..], k - 1);
        } else {
          assert r.entries[|s.entries|] == s'.entries[|s.entries|];
        }
      }
    }
  }

  lemma NewUDPEntryID(c: UDPConfig, id: uint32, seqNumber: uint16, turn: Turn, time: int, outcome: SendOutcome)
    requires c.Valid()
    ensures Checked(NewUDPEntry(c, id, seqNumber, turn, time), outcome).request.timeStampSeqID == id
  {
  }

  lemma UDPCallFiled(table: Table, c: UDPConfig, s: UDPSender, plan: seq<Turn>, clock: seq<int>,
                     outcomes: seq<SendOutcome>)
    requires c.Valid() && |clock| == |outcomes| == |plan| && s.packets == [] && s.entries == []
    requires KeysFree(table.Keys, s.seqNumber, |plan|)
    ensures var entries := SendPackets(c, s, plan, clock, outcomes).entries;
      && |entries| == |plan| && Numbered(entries, s.seqNumber)
      && FiledTo(WithEntries(table, entries, |entries|), table, entries, s.seqNumber, |entries|)
      && forall j :: 0 <= j < |entries| ==> entries[j].request.timeStampSeqID == TurnID(s.timeStampSeqID, outcomes, j)
  {
    CallSize(table.Keys, s.seqNumber, |plan|);
    hide SendPackets, KeyOf, WithEntries, TurnID, KeysFree, Numbered, FiledTo;
    IDsOfUDPCall(c, s, plan, clock, outcomes);
    PacketsNumber(c, s, plan, clock, outcomes);
    var entries := SendPackets(c, s, plan, clock, outcomes).entries;
    assert forall j :: 0 <= j < |plan| ==> entries[|s.entries| + j] == entries[j];
    FiledEntries(table, entries, s.seqNumber, |entries|);
  }

  /** For UDP the time stamp of a packet that was sent reaches its own entry under the same condition as for ICMP. */
  lemma UDPStampReachesOwnEntry(table: Table, c: UDPConfig, s: UDPSender, plan: seq<Turn>, clock: seq<int>,
                                outcomes: seq<SendOutcome>, k: nat)
    requires c.Valid() && |clock| == |outcomes| == |plan| && s.packets == [] && s.entries == []
    requires k < |plan| && outcomes[k].Success() && KeysFree(table.Keys, s.seqNumber, |plan|)
    ensures var entries := SendPackets(c, s, plan, clock, outcomes).entries;
            var key := TurnKey(s.seqNumber, k);
      && |entries| == |plan| && entries[k].request.seqNumber == key
      && (FirstWithID(WithEntries(table, entries, |entries|), TurnID(s.timeStampSeqID, outcomes, k), 0) == Some(key)
          <==> && NoOlder(table, key, TurnID(s.timeStampSeqID, outcomes, k))
               && !SharesWithPrevious(s.seqNumber, outcomes, k))
  {
    hide *;
    CallSize(table.Keys, s.seqNumber, |plan|);
    UDPCallFiled(table, c, s, plan, clock, outcomes);
    EntryReached(table, s.seqNumber, s.timeStampSeqID, outcomes, SendPackets(c, s, plan, clock, outcomes).entries, k);
    NumberedAt(SendPackets(c, s, plan, clock, outcomes).entries, s.seqNumber, k);
  }
}
