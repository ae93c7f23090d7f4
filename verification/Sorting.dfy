/** Sequences in the order of a key, and that there is only one such order when keys are different. */
module Sorting {
  import opened Lexicographic

  /** No element comes before one with a smaller key. */
  ghost predicate Sorted<T(!new)>(s: seq<T>, key: T -> seq<int>) {
    forall i, j :: 0 <= i < j < |s| ==> !Less(key(s[j]), key(s[i]))
  }

  ghost predicate StrictlySorted<T(!new)>(s: seq<T>, key: T -> seq<int>) {
    forall i, j :: 0 <= i < j < |s| ==> Less(key(s[i]), key(s[j]))
  }

  ghost predicate DistinctKeys<T(!new)>(s: seq<T>, key: T -> seq<int>) {
    forall i, j :: 0 <= i < j < |s| ==> key(s[i]) != key(s[j])
  }

  function Insert<T>(x: T, s: seq<T>, key: T -> seq<int>): seq<T> {
    if s == [] then [x]
    else if Less(key(x), key(s[0])) then [x] + s
    else [s[0]] + Insert(x, s[1..], key)
  }

  function Sort<T>(s: seq<T>, key: T -> seq<int>): seq<T> {
    if s == [] then [] else Insert(s[0], Sort(s[1..], key), key)
  }

  lemma {:induction false} InsertPermutes<T>(x: T, s: seq<T>, key: T -> seq<int>)
    ensures multiset(Insert(x, s, key)) == multiset([x]) + multiset(s)
  {
    if s == [] || Less(key(x), key(s[0])) {
    } else {
      InsertPermutes(x, s[1..], key);
      assert s == [s[0]] + s[1..];
    }
  }

  lemma {:induction false} SortPermutes<T>(s: seq<T>, key: T -> seq<int>)
    ensures multiset(Sort(s, key)) == multiset(s)
  {
    if s == [] {
    } else {
      SortPermutes(s[1..], key);
      InsertPermutes(s[0], Sort(s[1..], key), key);
      assert s == [s[0]] + s[1..];
    }
  }

  lemma {:induction false} InsertSorts<T(!new)>(x: T, s: seq<T>, key: T -> seq<int>)
    requires StrictlySorted(s, key) && forall i :: 0 <= i < |s| ==> key(s[i]) != key(x)
    ensures StrictlySorted(Insert(x, s, key), key)
  {
    if s == [] {
    } else if Less(key(x), key(s[0])) {
      forall j | 0 <= j < |s| ensures Less(key(x), key(s[j])) {
        if j > 0 {
          Transitive(key(x), key(s[0]), key(s[j]));
        }
      }
    } else {
      var rest := Insert(x, s[1..], key);
      InsertSorts(x, s[1..], key);
      InsertPermutes(x, s[1..], key);
      Total(key(x), key(s[0]));
      forall j | 0 <= j < |rest| ensures Less(key(s[0]), key(rest[j])) {
        assert rest[j] in multiset(rest);
        if rest[j] != x {
          assert rest[j] in s[1..];
        }
      }
    }
  }

  /** Elements with different keys have one order. */
  lemma {:induction false} SortSorts<T(!new)>(s: seq<T>, key: T -> seq<int>)
    requires DistinctKeys(s, key)
    ensures StrictlySorted(Sort(s, key), key)
  {
    if s == [] {
    } else {
      SortSorts(s[1..], key);
      SortPermutes(s[1..], key);
      var rest := Sort(s[1..], key);
      forall i | 0 <= i < |rest| ensures key(rest[i]) != key(s[0]) {
        assert rest[i] in multiset(rest) && rest[i] in s[1..];
      }
      InsertSorts(s[0], rest, key);
    }
  }

  lemma SameFirst<T(!new)>(a: seq<T>, b: seq<T>, key: T -> seq<int>)
    requires StrictlySorted(a, key) && Sorted(b, key) && multiset(a) == multiset(b) && a != [] && b != []
    ensures a[0] == b[0]
  {
    hide Less;
    assert a[0] in multiset(a) && b[0] in multiset(b);
    var i :| 0 <= i < |b| && b[i] == a[0];
    var j :| 0 <= j < |a| && a[j] == b[0];
  }

  /** Whatever sorts a collection without equal keys arrives at the same sequence. */
  lemma {:induction false} SortedIsUnique<T(!new)>(a: seq<T>, b: seq<T>, key: T -> seq<int>)
    requires StrictlySorted(a, key) && Sorted(b, key) && multiset(a) == multiset(b)
    ensures a == b
    decreases |a|
  {
    hide Less;
    assert |a| == |multiset(a)| == |multiset(b)| == |b|;
    if a == [] {
    } else {
      SameFirst(a, b, key);
      assert a == [a[0]] + a[1..] && b == [b[0]] + b[1..];
      assert multiset(a[1..]) == multiset(a) - multiset([a[0]]) == multiset(b[1..]);
      SortedIsUnique(a[1..], b[1..], key);
    }
  }

  lemma WithoutOne<T>(s: seq<T>, i: nat)
    requires i < |s|
    ensures multiset(s[..i] + s[i + 1..]) == multiset(s) - multiset{s[i]}
  {
    assert s == s[..i] + ([s[i]] + s[i + 1..]);
  }

  /** Where a permutation has the first element, and that the rest is a permutation of the rest. */
  lemma FirstInPermutation<T>(a: seq<T>, b: seq<T>) returns (i: nat)
    requires multiset(a) == multiset(b) && a != []
    ensures i < |b| && b[i] == a[0] && multiset(a[1..]) == multiset(b[..i] + b[i + 1..])
  {
    WithoutOne(a, 0);
    assert a[..0] + a[1..] == a[1..];
    assert a[0] in multiset(b);
    i :| 0 <= i < |b| && b[i] == a[0];
    WithoutOne(b, i);
  }
}
