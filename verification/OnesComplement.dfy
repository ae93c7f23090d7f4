/**
 Ones' complement arithmetic as arithmetic modulo 0xffff with two zeros, and the proof that the
 program's checksum is the one RFC 1071 specifies.
 */
module OnesComplement {
  import opened Words
  import opened Internet16

  /** The folded form of a sum: its residue modulo 0xffff, where only the sum 0 folds to 0. */
  function Canon(x: nat): uint16 { if x == 0 then 0 else 1 + (x - 1) % 0xffff }

  function Multiple(q: int): int { 0xffff * q }

  ghost predicate Congruent(x: int, y: int) { exists q :: x - y == Multiple(q) }

  lemma CongruentBy(x: int, y: int, q: int)
    requires x - y == 0xffff * q
    ensures Congruent(x, y)
  {
    assert x - y == Multiple(q);
  }

  lemma CongruentAdd(a: int, b: int, c: int, d: int)
    requires Congruent(a, b) && Congruent(c, d)
    ensures Congruent(a + c, b + d)
  {
    var q, r :| a - b == Multiple(q) && c - d == Multiple(r);
    CongruentBy(a + c, b + d, q + r);
  }

  lemma CongruentScale(k: int, a: int, b: int)
    requires Congruent(a, b)
    ensures Congruent(k * a, k * b)
  {
    var q :| a - b == Multiple(q);
    assert k * a - k * b == k * (a - b) == 0xffff * (k * q);
    CongruentBy(k * a, k * b, k * q);
  }

  lemma CongruentSym(a: int, b: int)
    requires Congruent(a, b)
    ensures Congruent(b, a)
  {
    var q :| a - b == Multiple(q);
    CongruentBy(b, a, -q);
  }

  lemma CongruentTrans(a: int, b: int, c: int)
    requires Congruent(a, b) && Congruent(b, c)
    ensures Congruent(a, c)
  {
    var q, r :| a - b == Multiple(q) && b - c == Multiple(r);
    CongruentBy(a, c, q + r);
  }

  lemma CanonCongruent(x: nat)
    ensures Congruent(x, Canon(x)) && (x == 0 <==> Canon(x) == 0)
  {
    if x == 0 {
      CongruentBy(0, 0, 0);
    } else {
      CongruentBy(x, Canon(x), (x - 1) / 0xffff);
    }
  }

  /** Adding a word to a sum that is not zero is the ones' complement addition to its folded form. */
  lemma CanonAdd(x: nat, n: uint16)
    requires x > 0
    ensures Canon(x + n) == OnesAdd(Canon(x), n)
  {
    CanonCongruent(x);
    var k :| x - Canon(x) == Multiple(k);
    var sum := OnesAdd(Canon(x), n);
    CongruentBy(x + n, sum, if Canon(x) + n > 0xffff then k + 1 else k);
    CanonUnique(x + n, sum);
  }

  /** A 16-bit value congruent to x, and zero exactly when x is, is the folded form of x. */
  lemma CanonUnique(x: nat, c: uint16)
    requires Congruent(x, c) && (x == 0 <==> c == 0)
    ensures c == Canon(x)
  {
    CanonCongruent(x);
    var k, m :| x - c == Multiple(k) && x - Canon(x) == Multiple(m);
    assert Canon(x) - c == 0xffff * (k - m);
  }

  /** Sum of the big-endian words without carries; an odd last byte is padded with zero. */
  function NetworkSum(data: seq<byte>): nat {
    if |data| == 0 then 0
    else if |data| == 1 then Word(data[0], 0)
    else Word(data[0], data[1]) + NetworkSum(data[2..])
  }

  lemma {:induction false} OnesSumIsCanon(data: seq<byte>)
    ensures OnesSum(data) == Canon(NetworkSum(data))
  {
    if |data| < 2 {
    } else {
      OnesSumIsCanon(data[2..]);
      var w, rest := Word(data[0], data[1]), NetworkSum(data[2..]);
      CanonCongruent(rest);
      var k :| rest - Canon(rest) == Multiple(k);
      CongruentBy(w + rest, OnesAdd(w, Canon(rest)), if w + Canon(rest) > 0xffff then k + 1 else k);
      CanonUnique(w + rest, OnesAdd(w, Canon(rest)));
    }
  }

  // ----- The two-fold loop-free folding -----

  lemma Divide(x: nat)
    requires x < 0x2_0000
    ensures x < 0x1_0000 ==> x / 0x1_0000 == 0 && x % 0x1_0000 == x
    ensures x >= 0x1_0000 ==> x / 0x1_0000 == 1 && x % 0x1_0000 == x - 0x1_0000
  {
  }

  lemma ComplementLow(second: nat, folded: uint16)
    requires second < 0x2_0000 && second % 0x1_0000 == folded
    ensures (0xffff_ffff - second) % 0x1_0000 == 0xffff - folded
  {
    Divide(second);
    if second < 0x1_0000 {
      assert 0xffff_ffff - second == 0x1_0000 * 0xffff + (0xffff - folded);
    } else {
      assert 0xffff_ffff - second == 0x1_0000 * 0xfffe + (0xffff - folded);
    }
  }

  lemma FirstFold(sum: uint32) returns (high: nat)
    ensures sum == FoldOnce(sum) + 0xffff * high && FoldOnce(sum) < 0x1_ffff
    ensures sum == 0 <==> FoldOnce(sum) == 0
  {
    high := sum / 0x1_0000;
  }

  lemma SecondFold(sum: nat, first: nat, high: nat) returns (folded: int)
    requires sum == first + 0xffff * high && first < 0x1_ffff && (sum == 0 <==> first == 0)
    ensures var second := Wrap32(first + first / 0x1_0000);
            0 <= folded <= 0xffff && folded == second % 0x1_0000 && second < 0x2_0000
    ensures Congruent(sum, folded) && (sum == 0 <==> folded == 0)
  {
    Divide(first);
    var carry := if first < 0x1_0000 then 0 else 1;
    WrapSmall(first + carry);
    Divide(first + carry);
    folded := first + carry - 0x1_0000 * carry;
    CongruentBy(sum, folded, high + carry);
  }

  /** What the two folds leave in the low 16 bits. */
  lemma FoldTwice(sum: uint32) returns (folded: int)
    ensures 0 <= folded <= 0xffff && folded == Fold(sum) % 0x1_0000 && Fold(sum) < 0x2_0000
    ensures Congruent(sum, folded) && (sum == 0 <==> folded == 0)
  {
    var high := FirstFold(sum);
    folded := SecondFold(sum, FoldOnce(sum), high);
  }

  /** Two folds suffice for every 32-bit sum, and only the sum 0 ends in checksum 0xffff. */
  lemma FinishIsCanon(sum: uint32)
    ensures FinishInternet16(sum) == Htons(0xffff - Canon(sum))
    ensures FinishInternet16(sum) == 0xffff <==> sum == 0
  {
    var folded := FoldTwice(sum);
    CanonUnique(sum, folded);
    ComplementLow(Fold(sum), folded);
    var high, low := HtonsBytes(0xffff - folded);
  }

  lemma HtonsBytes(n: uint16) returns (high: int, low: int)
    ensures 0 <= high < 0x100 && 0 <= low < 0x100
    ensures n == 0x100 * high + low && Htons(n) == 0x100 * low + high
  {
    high, low := n / 0x100, n % 0x100;
  }

  lemma HtonsComplement(n: uint16)
    ensures Htons(0xffff - n) == 0xffff - Htons(n)
  {
    var high, low := HtonsBytes(n);
    var high', low' := HtonsBytes(0xffff - n);
  }

  lemma HtonsScales(n: uint16)
    ensures Congruent(Htons(n), 0x100 * n) && (Htons(n) == 0 <==> n == 0)
  {
    var high, low := HtonsBytes(n);
    CongruentBy(Htons(n), 0x100 * n, -high);
  }

  lemma NativeIsSwapped(high: byte, low: byte)
    ensures Word(low, high) == Htons(Word(high, low))
  {
    var h, l := HtonsBytes(Word(high, low));
  }

  /** Swapping the bytes of every word multiplies the sum by 0x100 modulo 0xffff. */
  lemma {:induction false} SwappedSum(data: seq<byte>)
    ensures Congruent(NativeSum(data), 0x100 * NetworkSum(data))
    ensures NativeSum(data) == 0 <==> NetworkSum(data) == 0
  {
    if data == [] {
      CongruentBy(0, 0, 0);
    } else if |data| == 1 {
      var d: int := data[0];
      CongruentBy(d, 0x100 * Word(data[0], 0), -d);
    } else {
      SwappedSum(data[2..]);
      var n: int := Word(data[0], data[1]);
      HtonsScales(n);
      NativeIsSwapped(data[0], data[1]);
      CongruentAdd(Htons(n), 0x100 * n, NativeSum(data[2..]), 0x100 * NetworkSum(data[2..]));
    }
  }

  /** The folded native sum is the byte swap of the folded big-endian sum. */
  lemma CanonSwap(data: seq<byte>)
    ensures Htons(Canon(NativeSum(data))) == Canon(NetworkSum(data))
  {
    SwappedSum(data);
    CanonOfScaled(NativeSum(data), NetworkSum(data));
  }

  lemma CanonOfScaled(native: nat, net: nat)
    requires Congruent(native, 0x100 * net) && (native == 0 <==> net == 0)
    ensures Htons(Canon(native)) == Canon(net)
  {
    var c: int := Canon(native);
    CanonCongruent(native);
    HtonsScales(c);
    // Htons(c) ~ 0x100 * c ~ 0x100 * native ~ 0x10000 * net ~ net
    CongruentScale(0x100, native, c);
    CongruentSym(0x100 * native, 0x100 * c);
    CongruentTrans(Htons(c), 0x100 * c, 0x100 * native);
    CongruentScale(0x100, native, 0x100 * net);
    CongruentTrans(Htons(c), 0x100 * native, 0x1_0000 * net);
    CongruentBy(0x1_0000 * net, net, net);
    CongruentTrans(Htons(c), 0x1_0000 * net, net);
    CongruentSym(Htons(c), net);
    CanonUnique(net, Htons(c));
  }

  // ----- Summing a message piece by piece -----

  function Concat(pieces: seq<seq<byte>>): seq<byte> {
    if pieces == [] then [] else pieces[0] + Concat(pieces[1..])
  }

  /** The accumulator after one call of ComputeInternet16 for each piece. */
  function SumPieces(sum: uint32, pieces: seq<seq<byte>>): uint32
    decreases |pieces|
  {
    if pieces == [] then sum else SumPieces(Wrap32(sum + NativeSum(pieces[0])), pieces[1..])
  }

  /** Header, pseudo-header and payload can be summed separately: all pieces but the last are even. */
  lemma {:induction false} PiecewiseSum(sum: uint32, pieces: seq<seq<byte>>)
    requires forall i :: 0 <= i < |pieces| - 1 ==> |pieces[i]| % 2 == 0
    ensures SumPieces(sum, pieces) == Wrap32(sum + NativeSum(Concat(pieces)))
    decreases |pieces|
  {
    if pieces == [] {
      WrapSmall(sum);
    } else {
      var s := Wrap32(sum + NativeSum(pieces[0]));
      PiecewiseSum(s, pieces[1..]);
      WrapAdd(sum + NativeSum(pieces[0]), NativeSum(Concat(pieces[1..])));
      if |pieces| == 1 {
        assert Concat(pieces) == pieces[0];
      } else {
        NativeSumAppend(pieces[0], Concat(pieces[1..]));
      }
    }
  }

  // ----- Main results -----

  /** The fast form computes the RFC 1071 checksum whenever the uint32 accumulator did not wrap. */
  lemma FinishIsChecksum(data: seq<byte>)
    requires NativeSum(data) < 0x1_0000_0000
    ensures FinishInternet16(NativeSum(data)) == Checksum(data)
  {
    FinishIsCanon(NativeSum(data));
    CanonSwap(data);
    OnesSumIsCanon(data);
    HtonsComplement(Canon(NativeSum(data)));
  }

  /** No wrap up to 65537 words: 65537 * 0xffff is exactly the largest uint32. */
  lemma {:induction false} NativeSumBound(data: seq<byte>)
    ensures NativeSum(data) <= 0xffff * ((|data| + 1) / 2)
  {
    if |data| < 2 {
    } else {
      NativeSumBound(data[2..]);
    }
  }

  const MAX_SUMMABLE := 131074

  lemma NoWrap(data: seq<byte>)
    requires |data| <= MAX_SUMMABLE
    ensures NativeSum(data) < 0x1_0000_0000
  {
    NativeSumBound(data);
    assert (|data| + 1) / 2 <= 65537;
  }

  lemma WrapSmall(x: uint32)
    ensures Wrap32(x) == x
  {
  }

  method InternetChecksum(data: seq<byte>) returns (checksum: uint16)
    requires |data| <= MAX_SUMMABLE
    ensures checksum == Checksum(data)
  {
    var sum := ComputeInternet16(0, data);
    NoWrap(data);
    WrapSmall(NativeSum(data));
    FinishIsChecksum(data);
    checksum := FinishInternet16(sum);
  }

  /** One word more and the accumulator may wrap: the bound above is the exact one. */
  lemma WrapBeyondBound(data: seq<byte>)
    requires |data| == MAX_SUMMABLE + 2 && forall i :: 0 <= i < |data| ==> data[i] == 0xff
    ensures FinishInternet16(Wrap32(NativeSum(data))) != Checksum(data)
  {
    AllOnes(data, 65538);
    assert 65538 * 0xffff == 0x1_0000_0000 + 0xfffe;
    FinishIsCanon(0xfffe);
    OnesSumIsCanon(data);
    CanonSwap(data);
    assert Canon(65538 * 0xffff) == 0xffff && Canon(0xfffe) == 0xfffe;
    var h, l := HtonsBytes(0xffff);
    var h', l' := HtonsBytes(1);
  }

  lemma {:induction false} AllOnes(data: seq<byte>, words: nat)
    requires |data| == 2 * words && forall i :: 0 <= i < |data| ==> data[i] == 0xff
    ensures NativeSum(data) == 0xffff * words
  {
    if words == 0 {
    } else {
      AllOnes(data[2..], words - 1);
    }
  }
}
