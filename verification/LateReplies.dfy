/** Replies to requests that have been reported already: sequence numbers wrap, so a later request may get them. */
module LateReplies {
  import opened Words
  import opened TimeStamps
  import opened LifeCycle

  /** Two allocations share a key exactly if they are a multiple of 65536 apart. */
  lemma KeyModulo(first: uint16, a: nat, b: nat)
    ensures KeyOf(first, a) == KeyOf(first, b) <==> (a - b) % 0x1_0000 == 0
  {
    KeyWraps(first, a);
    KeyWraps(first, b);
    Remainders(first + a, first + b);
  }

  lemma Remainders(x: nat, y: nat)
    ensures Wrap16(x) == Wrap16(y) <==> (x - y) % 0x1_0000 == 0
  {
    var q, r := x / 0x1_0000, x % 0x1_0000;
    var q', r' := y / 0x1_0000, y % 0x1_0000;
    var d, m := (x - y) / 0x1_0000, (x - y) % 0x1_0000;
    assert x - y == 0x1_0000 * (q - q') + (r - r') && x - y == 0x1_0000 * d + m;
    assert r - r' - m == 0x1_0000 * (d - q + q');
  }

  /** The live entry under the key of allocation a, if there is one, is of a itself or of a later allocation. */
  lemma KeyFinds(w: World, a: nat)
    requires Invariant(w) && 1 <= a <= w.allocations && KeyOf(w.first, a) in w.table
    ensures KeyOf(w.first, a) in w.born
    ensures var b := w.born[KeyOf(w.first, a)]; a <= b <= w.allocations && (b - a) % 0x1_0000 == 0
  {
    hide Stamped, AllStamped, ReportsNumbered, KeyOf;
    var b := w.born[KeyOf(w.first, a)];
    KeyModulo(w.first, b, a);
    KeyModulo(w.first, a, b);
    ModulusApart(a, b);
  }

  /** Different numbers with the same remainder are at least the modulus apart. */
  lemma ModulusApart(x: int, y: int)
    requires (x - y) % 0x1_0000 == 0
    ensures x <= y || x - y >= 0x1_0000
  {
  }

  /** A later allocation that is live has the key of allocation a. */
  ghost predicate HasSuccessor(w: World, a: nat) {
    exists b: nat :: a < b && Live(w, b) && (b - a) % 0x1_0000 == 0
  }

  lemma SuccessorKey(w: World, a: nat)
    requires Invariant(w) && 1 <= a <= w.allocations && !Live(w, a)
    ensures KeyOf(w.first, a) in w.table <==> HasSuccessor(w, a)
    ensures HasSuccessor(w, a) ==> w.allocations > a + 0xffff
  {
    hide Stamped, AllStamped, ReportsNumbered, KeyOf;
    var key := KeyOf(w.first, a);
    if key in w.table {
      KeyFinds(w, a);
      assert Live(w, w.born[key]);
    }
    if HasSuccessor(w, a) {
      var b: nat :| a < b && Live(w, b) && (b - a) % 0x1_0000 == 0;
      var k :| k in w.born && w.born[k] == b;
      KeyModulo(w.first, b, a);
      ModulusApart(b, a);
    }
  }

  /**
   A reply to an allocation that is not live any more is recorded for another one exactly if a live allocation
   65536 later, or a multiple of that, has matching addresses; it cannot be while fewer than 65536 allocations
   have followed. Otherwise it is dropped.
   */
  lemma LateReply(w: World, a: nat, isV6: bool, data: ReceivedData, icmpType: byte, icmpCode: byte, length: uint32)
    requires Invariant(w) && 1 <= a <= w.allocations && !Live(w, a)
    ensures var key := KeyOf(w.first, a);
      && w.table.Keys == w.born.Keys
      && (Accepted(w.table, key, data) <==> HasSuccessor(w, a) && key in w.table && AddressesMatch(w.table[key], data))
      && (HasSuccessor(w, a) ==> key in w.table && w.allocations > a + 0xffff)
      && (!Accepted(w.table, key, data) ==> ReplyStep(w, isV6, data, icmpType, icmpCode, key, length) == w)
  {
    SuccessorKey(w, a);
    SameKeys(w);
    hide Invariant, KeyOf, HasSuccessor, AddressesMatch;
  }

  /** A reply to a live allocation finds its own entry. */
  lemma TimelyReply(w: World, a: nat, data: ReceivedData)
    requires Invariant(w) && Live(w, a)
    ensures var key := KeyOf(w.first, a);
      && key in w.table && key in w.born && w.born[key] == a
      && (Accepted(w.table, key, data) <==> AddressesMatch(w.table[key], data))
  {
    hide Stamped, AllStamped, ReportsNumbered, KeyOf, AddressesMatch;
    var k :| k in w.born && w.born[k] == a;
  }
}
