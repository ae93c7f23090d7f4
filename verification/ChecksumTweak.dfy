/**
 The checksum tweak: a 16-bit word in the payload chosen so that the message has a given checksum,
 and the receiver's view of a checksummed message.
 */
module ChecksumTweak {
  import opened Words
  import opened Internet16
  import opened OnesComplement

  const TWEAK_OFFSET := 14

  /** The tweak as the program computes it: uint32 subtraction, truncation to uint16, uint16 increment. */
  function TweakValue(target: uint32, original: uint16): uint16 {
    var diff := Wrap16(Wrap32(0xffff - Wrap32(target - original)));
    if original > target then Wrap16(diff + 1) else diff
  }

  lemma TweakValueIs(target: uint16, original: uint16)
    ensures TweakValue(target, original)
         == if original > target then original - target else 0xffff - target + original
  {
    if original > target {
      var d: int := original - target;
      assert Wrap32(target - original) == 0x1_0000_0000 - d;
      assert Wrap32(0xffff - (0x1_0000_0000 - d)) == 0xffff + d;
      assert Wrap16(0xffff + d) == d - 1;
    } else {
      var d: int := target - original;
      assert Wrap32(d) == d && Wrap32(0xffff - d) == 0xffff - d;
    }
  }

  /** Writing a word at an even offset changes the sum by the difference of the words. */
  lemma {:induction false} SumAfterPut(data: seq<byte>, i: nat, n: uint16)
    requires i % 2 == 0 && i + 1 < |data|
    ensures NetworkSum(Put16(data, i, n)) == NetworkSum(data) - Get16(data, i) + n
  {
    var put := Put16(data, i, n);
    assert Get16(put, i) == n;
    if i == 0 {
      assert put[2..] == data[2..];
    } else {
      assert put[2..] == Put16(data[2..], i - 2, n);
      assert Get16(data[2..], i - 2) == Get16(data, i);
      SumAfterPut(data[2..], i - 2, n);
    }
  }

  lemma {:induction false} NonzeroSum(data: seq<byte>, i: nat)
    requires i < |data| && data[i] != 0
    ensures NetworkSum(data) > 0
  {
    if i < 2 {
    } else {
      NonzeroSum(data[2..], i - 2);
    }
  }

  lemma {:induction false} NetworkSumAppend(a: seq<byte>, b: seq<byte>)
    requires |a| % 2 == 0
    ensures NetworkSum(a + b) == NetworkSum(a) + NetworkSum(b)
  {
    if a == [] {
      assert a + b == b;
    } else {
      assert (a + b)[2..] == a[2..] + b;
      NetworkSumAppend(a[2..], b);
    }
  }

  lemma ChecksumIs(data: seq<byte>)
    ensures Checksum(data) == 0xffff - Canon(NetworkSum(data))
  {
    OnesSumIsCanon(data);
  }

  /** Both branches of the tweak move the folded sum to the complement of the target. */
  lemma TweakedSum(sum: nat, original: uint16, target: uint16, tweak: nat)
    requires sum > 0 && original == 0xffff - Canon(sum) && target != 0xffff
    requires tweak == if original > target then original - target else 0xffff - target + original
    ensures Canon(sum + tweak) == 0xffff - target
  {
    CanonCongruent(sum);
    var k :| sum - Canon(sum) == Multiple(k);
    // sum + tweak ~ (0xffff - original) + (original - target)
    CongruentBy(sum + tweak, 0xffff - target, if original > target then k else k + 1);
    CanonUnique(sum + tweak, 0xffff - target);
  }

  /** The tweaked message has exactly the target checksum. */
  lemma TweakHitsTarget(message: seq<byte>, target: uint16)
    requires |message| > TWEAK_OFFSET + 1 && message[TWEAK_OFFSET] == 0 && message[TWEAK_OFFSET + 1] == 0
    requires NetworkSum(message) > 0
    requires target != 0xffff
    ensures Checksum(Put16(message, TWEAK_OFFSET, TweakValue(target, Checksum(message)))) == target
  {
    var original := Checksum(message);
    var tweak := TweakValue(target, original);
    ChecksumIs(message);
    TweakValueIs(target, original);
    SumAfterPut(message, TWEAK_OFFSET, tweak);
    TweakedSum(NetworkSum(message), original, target, tweak);
    ChecksumIs(Put16(message, TWEAK_OFFSET, tweak));
  }

  /** A checksum can be reached by some tweak exactly if it is not 0xffff. */
  lemma ReachableChecksums(message: seq<byte>, target: uint16)
    requires |message| > TWEAK_OFFSET + 1 && Get16(message, TWEAK_OFFSET) == 0
    requires NetworkSum(message) > 0
    ensures (exists tweak: uint16 :: Checksum(Put16(message, TWEAK_OFFSET, tweak)) == target) <==> target != 0xffff
  {
    if target != 0xffff {
      ZeroBytes(message, TWEAK_OFFSET);
      TweakHitsTarget(message, target);
    } else {
      forall tweak: uint16 ensures Checksum(Put16(message, TWEAK_OFFSET, tweak)) != target {
        SumAfterPut(message, TWEAK_OFFSET, tweak);
        ChecksumIs(Put16(message, TWEAK_OFFSET, tweak));
        CanonCongruent(NetworkSum(message) + tweak);
      }
    }
  }

  /** A message carrying its own checksum sums to all ones, which is how a receiver checks it (RFC 1071, section 1). */
  lemma ChecksummedVerifies(data: seq<byte>, i: nat)
    requires i % 2 == 0 && i + 1 < |data| && data[i] == 0 && data[i + 1] == 0
    ensures OnesSum(Put16(data, i, Checksum(data))) == 0xffff
  {
    var sum := NetworkSum(data);
    ChecksumIs(data);
    SumAfterPut(data, i, Checksum(data));
    CanonCongruent(sum);
    var k :| sum - Canon(sum) == Multiple(k);
    CongruentBy(sum + Checksum(data), 0xffff, k);
    CanonUnique(sum + Checksum(data), 0xffff);
    OnesSumIsCanon(Put16(data, i, Checksum(data)));
  }

  lemma CanonOfSum(before: nat, x: nat, y: nat)
    requires x > 0 && y > 0 && Canon(x) == Canon(y)
    ensures Canon(before + x) == Canon(before + y)
  {
    CanonCongruent(x);
    CanonCongruent(y);
    CanonCongruent(before + y);
    var k :| x - Canon(x) == Multiple(k);
    var m :| y - Canon(y) == Multiple(m);
    var n :| before + y - Canon(before + y) == Multiple(n);
    CongruentBy(before + x, Canon(before + y), n + k - m);
    CanonUnique(before + x, Canon(before + y));
  }

  /**
   Messages with the same checksum below 0xffff still have the same checksum when the same pseudo-header is
   added to each, whatever it contains.
   */
  lemma SameWithPseudoHeader(pseudo: seq<byte>, a: seq<byte>, b: seq<byte>)
    requires |pseudo| % 2 == 0 && Checksum(a) == Checksum(b) < 0xffff
    ensures Checksum(pseudo + a) == Checksum(pseudo + b)
  {
    ChecksumIs(a);
    ChecksumIs(b);
    ChecksumIs(pseudo + a);
    ChecksumIs(pseudo + b);
    NetworkSumAppend(pseudo, a);
    NetworkSumAppend(pseudo, b);
    hide Checksum, NetworkSum;
    CanonCongruent(NetworkSum(a));
    CanonCongruent(NetworkSum(b));
    CanonOfSum(NetworkSum(pseudo), NetworkSum(a), NetworkSum(b));
  }
}
