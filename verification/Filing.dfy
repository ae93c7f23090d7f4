/**
 Filing the entries of a call: each goes into the map of results under its number, and is marked if it was not sent.
 */
module Filing {
  import opened Words
  import opened ResultEntries
  import opened TimeStamps
  import opened LifeCycle
  import opened Probes
  import opened IoModule

  // ----- Keys -----

  ghost predicate FreeFrom(keys: set<uint16>, entries: seq<Entry>, i: nat) {
    forall j :: i <= j < |entries| ==> entries[j].request.seqNumber !in keys
  }

  ghost predicate DistinctNumbers(entries: seq<Entry>) {
    forall i, j :: 0 <= i < j < |entries| ==> entries[i].request.seqNumber != entries[j].request.seqNumber
  }

  lemma FreeNext(keys: set<uint16>, entries: seq<Entry>, i: nat)
    requires i < |entries| && FreeFrom(keys, entries, i) && DistinctNumbers(entries)
    ensures entries[i].request.seqNumber !in keys
    ensures FreeFrom(keys + {entries[i].request.seqNumber}, entries, i + 1)
  {
  }

  /** The next n sequence numbers are free keys, and different. */
  ghost predicate KeysFree(keys: set<uint16>, seqNumber: uint16, n: nat) {
    n <= 0x1_0000 && forall a: nat :: 1 <= a <= n ==> KeyOf(seqNumber, a) !in keys
  }

  /** The entries have the numbers that follow `first`. */
  ghost predicate Numbered(entries: seq<Entry>, first: uint16) {
    forall k :: 0 <= k < |entries| ==> entries[k].request.seqNumber == KeyOf(first, k + 1)
  }

  lemma NumberedIsInsertable(keys: set<uint16>, entries: seq<Entry>, first: uint16)
    requires Numbered(entries, first) && KeysFree(keys, first, |entries|)
    ensures FreeFrom(keys, entries, 0) && DistinctNumbers(entries)
  {
    hide KeyOf;
    forall i, j | 0 <= i < j < |entries| ensures entries[i].request.seqNumber != entries[j].request.seqNumber {
      SameKey(first, i + 1, j + 1);
    }
  }

  /** The table with the first n entries filed. */
  function WithEntries(table: Table, entries: seq<Entry>, n: nat): Table
    requires n <= |entries|
  {
    if n == 0 then table else WithEntries(table, entries, n - 1)[entries[n - 1].request.seqNumber := entries[n - 1]]
  }

  lemma {:induction false} WithEntriesKeys(table: Table, entries: seq<Entry>, n: nat, key: uint16)
    requires n <= |entries|
    ensures key in WithEntries(table, entries, n)
        <==> key in table || exists k :: 0 <= k < n && entries[k].request.seqNumber == key
  {
    if n == 0 {
    } else {
      WithEntriesKeys(table, entries, n - 1, key);
    }
  }

  lemma {:induction false} WithEntriesTwice(table: Table, a: seq<Entry>, b: seq<Entry>, n: nat)
    requires n <= |b|
    ensures WithEntries(WithEntries(table, a, |a|), b, n) == WithEntries(table, a + b, |a| + n)
  {
    if n > 0 {
      WithEntriesTwice(table, a, b, n - 1);
    } else {
      WithEntriesPrefix(table, a, b, |a|);
    }
  }

  lemma {:induction false} WithEntriesPrefix(table: Table, a: seq<Entry>, b: seq<Entry>, n: nat)
    requires n <= |a|
    ensures WithEntries(table, a, n) == WithEntries(table, a + b, n)
  {
    if n == 0 {
    } else {
      WithEntriesPrefix(table, a, b, n - 1);
    }
  }

  // ----- A call as a run of the life cycle -----

  lemma {:induction false} InsertAllTable(w: World, entries: seq<Entry>)
    ensures InsertAll(w, entries).table == WithEntries(w.table, entries, |entries|)
    decreases |entries|
  {
    if entries == [] {
    } else {
      var e, rest := entries[0], entries[1..];
      InsertAllTable(InsertStep(w, e), rest);
      WithEntriesTwice(w.table, [e], rest, |rest|);
      assert [e] + rest == entries;
      assert WithEntries(w.table, [e], 1) == InsertStep(w, e).table;
    }
  }

  /** What a reachable state must meet so that the next n allocations find free keys. */
  ghost predicate Recent(w: World, n: nat) {
    n <= 0x1_0000 && forall k :: k in w.table && k in w.born ==> w.allocations - (0x1_0000 - n) < w.born[k]
  }

  lemma RecentIsFree(w: World, n: nat)
    requires Invariant(w) && Recent(w, n)
    ensures KeysFree(w.table.Keys, KeyOf(w.first, w.allocations), n)
  {
    hide KeyOf, Stamped, AllStamped, ReportsNumbered;
    FreshKeys(w, n);
    forall a: nat | 1 <= a <= n ensures KeyOf(KeyOf(w.first, w.allocations), a) !in w.table.Keys {
      KeysAdd(w.first, w.allocations, a);
    }
  }

  lemma NumberedIsPlaceable(w: World, entries: seq<Entry>)
    requires Numbered(entries, KeyOf(w.first, w.allocations)) && StampedEntries(entries)
    requires KeysFree(w.table.Keys, KeyOf(w.first, w.allocations), |entries|)
    ensures Placeable(w.first, w.table, w.allocations, entries)
  {
    hide KeyOf, Stamped;
    forall i | 0 <= i < |entries|
      ensures entries[i].request.seqNumber == KeyOf(w.first, w.allocations + 1 + i)
        && entries[i].request.seqNumber !in w.table
    {
      KeysAdd(w.first, w.allocations, i + 1);
    }
  }

  /** Entries numbered after the last allocation, in a reachable state with recent entries only: a run of insertions. */
  lemma NumberedRun(w: World, entries: seq<Entry>)
    requires Invariant(w) && Recent(w, |entries|)
    requires Numbered(entries, KeyOf(w.first, w.allocations)) && StampedEntries(entries)
    ensures KeysFree(w.table.Keys, KeyOf(w.first, w.allocations), |entries|)
    ensures IsRun(w, Inserts(entries), InsertAll(w, entries))
    ensures InsertAll(w, entries).table == WithEntries(w.table, entries, |entries|)
  {
    hide *;
    RecentIsFree(w, |entries|);
    NumberedIsPlaceable(w, entries);
    InsertsRun(w, entries);
    InsertAllTable(w, entries);
  }

  // ----- The result check at the end of a call -----

  /** File every entry, and mark those that were not sent. */
  method InsertEntries(results: ResultsMap, entries: seq<ResultEntry>, outcomes: seq<SendOutcome>,
                       ghost stored: seq<Entry>)
    requires results.Valid() && |entries| == |outcomes| == |stored|
    requires StoredFrom(entries, outcomes, stored, 0)
    requires FreeFrom(results.entries.Keys, stored, 0) && DistinctNumbers(stored)
    modifies results, entries
    ensures results.Valid() && results.View() == WithEntries(old(results.View()), stored, |stored|)
  {
    hide Checked, FreeFrom, DistinctNumbers, StoredFrom;
    ghost var view := results.View();
    for i := 0 to |entries|
      invariant results.Valid()
      invariant FreeFrom(results.entries.Keys, stored, i)
      invariant StoredFrom(entries, outcomes, stored, i)
      invariant results.View() == WithEntries(view, stored, i)
    {
      StoredNext(entries, outcomes, stored, i);
      FreeNext(results.entries.Keys, stored, i);
      InsertChecked(results, entries, outcomes, i, stored);
    }
  }

  /** The entries from number i on still hold what is to be filed, but for the failed ones' status. */
  ghost predicate StoredFrom(entries: seq<ResultEntry>, outcomes: seq<SendOutcome>, stored: seq<Entry>, i: nat)
    reads entries
  {
    |entries| == |outcomes| == |stored|
      && forall j :: i <= j < |entries| ==> stored[j] == Checked(entries[j].Value(), outcomes[j])
  }

  lemma StoredNext(entries: seq<ResultEntry>, outcomes: seq<SendOutcome>, stored: seq<Entry>, i: nat)
    requires i < |entries| && StoredFrom(entries, outcomes, stored, i)
    ensures stored[i] == Checked(entries[i].Value(), outcomes[i]) && StoredFrom(entries, outcomes, stored, i + 1)
  {
  }

  lemma OthersDiffer(entries: seq<ResultEntry>, outcomes: seq<SendOutcome>, stored: seq<Entry>, i: nat)
    requires i < |entries| && DistinctNumbers(stored) && StoredFrom(entries, outcomes, stored, i)
    ensures forall j :: i < j < |entries| ==> entries[j] != entries[i]
  {
    hide Checked;
    forall j | i < j < |entries| ensures entries[j] != entries[i] {
      CheckedSameRequest(entries[i].Value(), outcomes[i]);
      CheckedSameRequest(entries[j].Value(), outcomes[j]);
    }
  }

  lemma CheckedSameRequest(e: Entry, outcome: SendOutcome)
    ensures Checked(e, outcome).request == e.request
  {
  }

  /** The program's assure: the key is free. */
  method InsertChecked(results: ResultsMap, entries: seq<ResultEntry>, outcomes: seq<SendOutcome>, i: nat,
                       ghost stored: seq<Entry>)
    requires results.Valid() && i < |entries| && DistinctNumbers(stored) && StoredFrom(entries, outcomes, stored, i)
    requires stored[i].request.seqNumber !in results.entries
    modifies results, entries[i]
    ensures results.Valid() && StoredFrom(entries, outcomes, stored, i + 1)
    ensures results.entries.Keys == old(results.entries.Keys) + {stored[i].request.seqNumber}
    ensures results.View() == old(results.View())[stored[i].request.seqNumber := stored[i]]
  {
    hide DistinctNumbers;
    OthersDiffer(entries, outcomes, stored, i);
    CheckedSameRequest(entries[i].Value(), outcomes[i]);
    results.Insert(entries[i]);
    if !outcomes[i].Success() {
      results.MarkFailed(entries[i], outcomes[i].Error());
    }
  }
}
