/** One Ping call over all destinations: the specification of Ping.Ping.SendRequests. */
module PingCalls {
  import opened Words
  import opened Headers
  import opened ResultEntries
  import opened LifeCycle
  import opened Probes
  import opened Filing

  /** Exclusive or of the n lowest bits. */
  function XorBits(n: nat, a: nat, b: nat): (r: nat)
    ensures r < Pow2(n)
  {
    if n == 0 then 0 else (a + b) % 2 + 2 * XorBits(n - 1, a / 2, b / 2)
  }

  function Pow2(n: nat): nat { if n == 0 then 1 else 2 * Pow2(n - 1) }

  function Xor(a: uint16, b: uint16): uint16 {
    assert Pow2(16) == 0x1_0000 by { assert Pow2(8) == 0x100; }
    XorBits(16, a, b)
  }

  /** The checksum of all messages of a call: never 0xffff, so sendRequest's demand always holds. */
  function PingTarget(identifier: uint16, seqNumber: uint16): (target: uint32)
    ensures target < 0xffff
  {
    var mixed := Xor(identifier, seqNumber);
    if mixed == 0xffff then 0 else mixed
  }

  /** Applied twice, it gives the number back. */
  lemma {:induction false} XorBack(n: nat, a: nat, b: nat)
    requires b < Pow2(n)
    ensures XorBits(n, a, XorBits(n, a, b)) == b
  {
    if n == 0 {
    } else {
      HalfFits(b, Pow2(n - 1));
      XorBack(n - 1, a / 2, b / 2);
      LastBit(a, b, XorBits(n - 1, a / 2, b / 2));
    }
  }

  lemma HalfFits(b: nat, p: nat)
    requires b < 2 * p
    ensures b / 2 < p
  {
  }

  lemma LastBit(a: nat, b: nat, rest: nat)
    ensures var x := (a + b) % 2 + 2 * rest; x / 2 == rest && (a + x) % 2 + 2 * (b / 2) == b
  {
    var x := (a + b) % 2 + 2 * rest;
    assert x / 2 == rest;
    assert (a + x) % 2 == (a + (a + b) % 2) % 2 == b % 2;
  }

  /** Unless it is zero, identifier and checksum of a message give the sequence number that its call started with. */
  lemma TargetTellsNumber(identifier: uint16, seqNumber: uint16)
    ensures PingTarget(identifier, seqNumber) != 0 ==> Xor(identifier, PingTarget(identifier, seqNumber)) == seqNumber
    ensures PingTarget(identifier, seqNumber) == 0 <==> seqNumber == identifier || Xor(identifier, seqNumber) == 0xffff
  {
    assert Pow2(16) == 0x1_0000 by { assert Pow2(8) == 0x100; }
    XorBack(16, identifier, seqNumber);
    hide XorBits;
    if Xor(identifier, seqNumber) == 0 {
      XorZero(16, identifier, seqNumber);
    }
    XorSame(16, identifier);
  }

  lemma {:induction false} XorSame(n: nat, a: nat)
    ensures XorBits(n, a, a) == 0
  {
    if n == 0 {
    } else {
      XorSame(n - 1, a / 2);
    }
  }

  lemma {:induction false} XorZero(n: nat, a: nat, b: nat)
    requires XorBits(n, a, b) == 0 && a < Pow2(n) && b < Pow2(n)
    ensures a == b
  {
    if n == 0 {
    } else {
      XorZero(n - 1, a / 2, b / 2);
    }
  }

  lemma {:induction false} SendAllKeepsSize(c: Config, s: Sender, plan: seq<Turn>, clock: seq<int>,
                                            outcomes: seq<SendOutcome>)
    requires c.payloadSize >= MIN_TRACESERVICE_HEADER_SIZE && Fits(plan, s.targets)
    requires |clock| == |outcomes| == |plan|
    ensures |SendAll(c, s, plan, clock, outcomes).targets| == |s.targets|
    decreases |plan|
  {
    hide TweakedProbe, Untweaked, NewEntry;
    if plan == [] {
    } else {
      SendAllKeepsSize(c, SendProbe(c, s, plan[0], clock[0], outcomes[0]), plan[1..], clock[1..], outcomes[1..]);
    }
  }

  ghost predicate CallsFit(configs: seq<Config>, targets: seq<uint32>, plan: seq<Turn>, clocks: seq<seq<int>>,
                           outcomes: seq<seq<SendOutcome>>) {
    && |configs| == |clocks| == |outcomes| && Fits(plan, targets)
    && (forall i :: 0 <= i < |configs| ==> configs[i].Valid() && |clocks[i]| == |outcomes[i]| == |plan|)
  }

  /** The sender's state after the calls for the first n destinations. */
  ghost function SendToFirst(configs: seq<Config>, s: Sender, plan: seq<Turn>, clocks: seq<seq<int>>,
                             outcomes: seq<seq<SendOutcome>>, n: nat): (r: Sender)
    requires CallsFit(configs, s.targets, plan, clocks, outcomes) && n <= |configs|
    ensures |r.targets| == |s.targets|
  {
    if n == 0 then s
    else
      var before := SendToFirst(configs, s, plan, clocks, outcomes, n - 1);
      SendAllKeepsSize(configs[n - 1], before, plan, clocks[n - 1], outcomes[n - 1]);
      SendAll(configs[n - 1], before, plan, clocks[n - 1], outcomes[n - 1])
  }

  /** A call that starts with nothing sent, in front of which other calls have been made. */
  lemma {:induction false} SendAllAfter(c: Config, s: Sender, plan: seq<Turn>, clock: seq<int>,
                                        outcomes: seq<SendOutcome>)
    requires c.payloadSize >= MIN_TRACESERVICE_HEADER_SIZE && Fits(plan, s.targets)
    requires |clock| == |outcomes| == |plan|
    ensures var r := SendAll(c, Sender(s.seqNumber, s.timeStampSeqID, s.targets, 0, [], []), plan, clock, outcomes);
      SendAll(c, s, plan, clock, outcomes)
      == Sender(r.seqNumber, r.timeStampSeqID, r.targets, s.messagesSent + r.messagesSent, s.probes + r.probes,
                s.entries + r.entries)
    decreases |plan|
  {
    hide TweakedProbe, Untweaked, NewEntry;
    if plan == [] {
      assert s.probes + [] == s.probes && s.entries + [] == s.entries;
    } else {
      var alone := Sender(s.seqNumber, s.timeStampSeqID, s.targets, 0, [], []);
      var s1, f1 := SendProbe(c, s, plan[0], clock[0], outcomes[0]),
          SendProbe(c, alone, plan[0], clock[0], outcomes[0]);
      ProbeAfter(c, s, plan[0], clock[0], outcomes[0]);
      hide SendProbe;
      SendAllAfter(c, s1, plan[1..], clock[1..], outcomes[1..]);
      SendAllAfter(c, f1, plan[1..], clock[1..], outcomes[1..]);
      var r := SendAll(c, Sender(s1.seqNumber, s1.timeStampSeqID, s1.targets, 0, [], []), plan[1..], clock[1..],
                       outcomes[1..]);
      assert (s.probes + f1.probes) + r.probes == s.probes + (f1.probes + r.probes);
      assert (s.entries + f1.entries) + r.entries == s.entries + (f1.entries + r.entries);
    }
  }

  lemma ProbeAfter(c: Config, s: Sender, turn: Turn, time: int, outcome: SendOutcome)
    requires c.payloadSize >= MIN_TRACESERVICE_HEADER_SIZE && turn.0 < |s.targets|
    ensures var r := SendProbe(c, Sender(s.seqNumber, s.timeStampSeqID, s.targets, 0, [], []), turn, time, outcome);
      SendProbe(c, s, turn, time, outcome)
      == Sender(r.seqNumber, r.timeStampSeqID, r.targets, s.messagesSent + r.messagesSent, s.probes + r.probes,
                s.entries + r.entries)
  {
    hide TweakedProbe, Message, Initial;
  }

  ghost predicate AllCarry(probes: seq<seq<byte>>, target: uint32) {
    forall k :: 0 <= k < |probes| ==> Carries(probes[k], target)
  }

  ghost predicate AllTargets(targets: seq<uint32>, target: uint32) {
    forall i :: 0 <= i < |targets| ==> targets[i] == target
  }

  /** All messages of a call, to all destinations and in all rounds, carry one checksum. */
  lemma {:induction false} OneChecksumForAll(configs: seq<Config>, s: Sender, plan: seq<Turn>, clocks: seq<seq<int>>,
                                             outcomes: seq<seq<SendOutcome>>, n: nat, target: uint32)
    requires CallsFit(configs, s.targets, plan, clocks, outcomes) && n <= |configs|
    requires AllTargets(s.targets, target) && target < 0xffff && s.probes == []
    ensures var r := SendToFirst(configs, s, plan, clocks, outcomes, n);
      r.targets == s.targets && |r.probes| == n * |plan| && AllCarry(r.probes, target)
  {
    hide Carries, SendAll, Fits;
    if n > 0 {
      assert (n - 1) * |plan| + |plan| == n * |plan|;
      hide AllCarry, AllTargets;
      OneChecksumForAll(configs, s, plan, clocks, outcomes, n - 1, target);
      var before := SendToFirst(configs, s, plan, clocks, outcomes, n - 1);
      CallCarries(configs[n - 1], before, plan, clocks[n - 1], outcomes[n - 1], target);
    }
    NothingCarries(target);
  }

  lemma NothingCarries(target: uint32)
    ensures AllCarry([], target)
  {
  }

  lemma CallCarries(c: Config, s: Sender, plan: seq<Turn>, clock: seq<int>, outcomes: seq<SendOutcome>, target: uint32)
    requires c.Valid() && Fits(plan, s.targets) && |clock| == |outcomes| == |plan|
    requires AllTargets(s.targets, target) && target < 0xffff && AllCarry(s.probes, target)
    ensures var r := SendAll(c, s, plan, clock, outcomes);
      r.targets == s.targets && |r.probes| == |s.probes| + |plan| && AllCarry(r.probes, target)
  {
    hide Carries, SendAll;
    RoundsShareChecksum(c, s, plan, clock, outcomes);
    var r := SendAll(c, s, plan, clock, outcomes);
    forall k | 0 <= k < |r.probes| ensures Carries(r.probes[k], target) {
      if k >= |s.probes| {
        assert Carries(r.probes[|s.probes| + (k - |s.probes|)], r.targets[plan[k - |s.probes|].0]);
      } else {
        assert r.probes[k] == s.probes[k];
      }
    }
  }

  // ----- Sequence numbers over several calls -----

  lemma CallNumbers(c: Config, s: Sender, plan: seq<Turn>, clock: seq<int>, outcomes: seq<SendOutcome>, first: uint16)
    requires c.payloadSize >= MIN_TRACESERVICE_HEADER_SIZE && Fits(plan, s.targets) && |clock| == |outcomes| == |plan|
    requires Numbered(s.entries, first) && s.seqNumber == KeyOf(first, |s.entries|)
    ensures var r := SendAll(c, s, plan, clock, outcomes);
      Numbered(r.entries, first) && r.seqNumber == KeyOf(first, |r.entries|) && |r.entries| == |s.entries| + |plan|
  {
    hide SendAll, KeyOf;
    OneEntryPerTurn(c, s, plan, clock, outcomes);
    var r := SendAll(c, s, plan, clock, outcomes);
    KeysAdd(first, |s.entries|, |plan|);
    forall k | 0 <= k < |r.entries| ensures r.entries[k].request.seqNumber == KeyOf(first, k + 1) {
      if k >= |s.entries| {
        var j := k - |s.entries|;
        assert Records(r.entries[|s.entries| + j], c, plan[j], KeyOf(s.seqNumber, j + 1), clock[j], outcomes[j]);
        KeysAdd(first, |s.entries|, j + 1);
      } else {
        assert r.entries[k] == s.entries[k];
      }
    }
  }

  /** The keys that the entries filed so far have left free. */
  lemma KeysStayFree(table: Table, first: uint16, entries: seq<Entry>, more: nat)
    requires KeysFree(table.Keys, first, |entries| + more) && Numbered(entries, first)
    ensures KeysFree(WithEntries(table, entries, |entries|).Keys, KeyOf(first, |entries|), more)
  {
    hide KeyOf, WithEntries;
    forall a: nat | 1 <= a <= more
        ensures KeyOf(KeyOf(first, |entries|), a) !in WithEntries(table, entries, |entries|) {
      KeysAdd(first, |entries|, a);
      WithEntriesKeys(table, entries, |entries|, KeyOf(first, |entries| + a));
      forall k | 0 <= k < |entries| ensures entries[k].request.seqNumber != KeyOf(first, |entries| + a) {
        SameKey(first, k + 1, |entries| + a);
      }
    }
  }

  lemma FewerKeysFree(keys: set<uint16>, first: uint16, n: nat, fewer: nat)
    requires KeysFree(keys, first, n) && fewer <= n
    ensures KeysFree(keys, first, fewer)
  {
  }

  /** All calls together number their entries in sequence. */
  lemma {:induction false} CallsNumber(configs: seq<Config>, s: Sender, plan: seq<Turn>, clocks: seq<seq<int>>,
                                       outcomes: seq<seq<SendOutcome>>, n: nat)
    requires CallsFit(configs, s.targets, plan, clocks, outcomes) && n <= |configs| && s.entries == []
    ensures var r := SendToFirst(configs, s, plan, clocks, outcomes, n);
      && Numbered(r.entries, s.seqNumber) && |r.entries| == n * |plan|
      && r.seqNumber == KeyOf(s.seqNumber, n * |plan|)
  {
    hide SendAll, Numbered, KeyOf;
    if n == 0 {
      NothingNumbered(s.seqNumber);
    } else {
      assert (n - 1) * |plan| + |plan| == n * |plan|;
      CallsNumber(configs, s, plan, clocks, outcomes, n - 1);
      CallNumbers(configs[n - 1], SendToFirst(configs, s, plan, clocks, outcomes, n - 1), plan, clocks[n - 1],
                  outcomes[n - 1], s.seqNumber);
    }
  }

  lemma NothingNumbered(first: uint16)
    ensures Numbered([], first) && KeyOf(first, 0) == first
  {
  }

  lemma CallAt(configs: seq<Config>, s: Sender, plan: seq<Turn>, clocks: seq<seq<int>>,
               outcomes: seq<seq<SendOutcome>>, n: nat)
    requires CallsFit(configs, s.targets, plan, clocks, outcomes) && n < |configs|
    ensures configs[n].payloadSize >= MIN_TRACESERVICE_HEADER_SIZE && |clocks[n]| == |outcomes[n]| == |plan|
    ensures var r := SendToFirst(configs, s, plan, clocks, outcomes, n);
      && Fits(plan, r.targets)
      && SendToFirst(configs, s, plan, clocks, outcomes, n + 1) == SendAll(configs[n], r, plan, clocks[n], outcomes[n])
  {
    hide SendAll;
  }

  lemma RoomForOneMore(n: nat, m: nat, p: nat)
    requires n < m
    ensures n * p + p <= m * p
  {
    assert m * p == n * p + (m - n) * p;
    assert (m - n) * p == p + (m - n - 1) * p;
  }

  /** Each call of a sequence finds its keys free, if the sequence as a whole does. */
  lemma NextCall(configs: seq<Config>, s: Sender, plan: seq<Turn>, clocks: seq<seq<int>>,
                 outcomes: seq<seq<SendOutcome>>,
                 n: nat, target: uint32, table: Table)
    requires CallsFit(configs, s.targets, plan, clocks, outcomes) && n < |configs| && s.entries == [] && s.probes == []
    requires AllTargets(s.targets, target) && target < 0xffff && KeysFree(table.Keys, s.seqNumber, |configs| * |plan|)
    ensures configs[n].payloadSize >= MIN_TRACESERVICE_HEADER_SIZE && |clocks[n]| == |outcomes[n]| == |plan|
    ensures var r := SendToFirst(configs, s, plan, clocks, outcomes, n);
      && r.targets == s.targets && Fits(plan, r.targets)
      && KeysFree(WithEntries(table, r.entries, |r.entries|).Keys, r.seqNumber, |plan|)
      && SendToFirst(configs, s, plan, clocks, outcomes, n + 1) == SendAll(configs[n], r, plan, clocks[n], outcomes[n])
  {
    CallAt(configs, s, plan, clocks, outcomes, n);
    hide *;
    OneChecksumForAll(configs, s, plan, clocks, outcomes, n, target);
    CallsNumber(configs, s, plan, clocks, outcomes, n);
    RoomForOneMore(n, |configs|, |plan|);
    FewerKeysFree(table.Keys, s.seqNumber, |configs| * |plan|, n * |plan| + |plan|);
    KeysStayFree(table, s.seqNumber, SendToFirst(configs, s, plan, clocks, outcomes, n).entries, |plan|);
  }

  // ----- A call as a run of the state machine -----

  ghost predicate ClocksPositive(clocks: seq<seq<int>>) {
    forall i, j :: 0 <= i < |clocks| && 0 <= j < |clocks[i]| ==> clocks[i][j] > 0
  }

  lemma {:induction false} CallsStamped(configs: seq<Config>, s: Sender, plan: seq<Turn>, clocks: seq<seq<int>>,
                                        outcomes: seq<seq<SendOutcome>>, n: nat)
    requires CallsFit(configs, s.targets, plan, clocks, outcomes) && n <= |configs| && s.entries == []
      && ClocksPositive(clocks)
    ensures StampedEntries(SendToFirst(configs, s, plan, clocks, outcomes, n).entries)
  {
    hide SendAll;
    if n == 0 {
    } else {
      CallsStamped(configs, s, plan, clocks, outcomes, n - 1);
      EntriesAreStamped(configs[n - 1], SendToFirst(configs, s, plan, clocks, outcomes, n - 1), plan, clocks[n - 1],
                        outcomes[n - 1]);
    }
  }

  /**
   In every reachable state whose live entries stem from the last 65536 - n allocations, a Ping call
   that allocates n entries finds its keys free, and is a run of insertions.
   */
  lemma PingCallIsRun(w: World, configs: seq<Config>, s: Sender, plan: seq<Turn>, clocks: seq<seq<int>>,
                      outcomes: seq<seq<SendOutcome>>)
    requires CallsFit(configs, s.targets, plan, clocks, outcomes) && ClocksPositive(clocks) && s.entries == []
    requires Invariant(w) && s.seqNumber == KeyOf(w.first, w.allocations) && Recent(w, |configs| * |plan|)
    ensures KeysFree(w.table.Keys, s.seqNumber, |configs| * |plan|)
    ensures var entries := SendToFirst(configs, s, plan, clocks, outcomes, |configs|).entries;
      && |entries| == |configs| * |plan|
      && IsRun(w, Inserts(entries), InsertAll(w, entries))
      && InsertAll(w, entries).table == WithEntries(w.table, entries, |entries|)
  {
    hide *;
    CallsNumber(configs, s, plan, clocks, outcomes, |configs|);
    CallsStamped(configs, s, plan, clocks, outcomes, |configs|);
    NumberedRun(w, SendToFirst(configs, s, plan, clocks, outcomes, |configs|).entries);
  }
}
