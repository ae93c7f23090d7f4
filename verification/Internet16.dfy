/**
 The Internet checksum: the specification of RFC 1071 (sum of big-endian words with
 end-around carry) and the program's fast form (native little-endian words, unrolled loops,
 deferred carries, one byte swap at the end).
 */
module Internet16 {
  import opened Words

  // ----- Specification: section 1 of RFC 1071 -----

  function OnesAdd(a: uint16, b: uint16): uint16 {
    if a + b > 0xffff then a + b - 0xffff else a + b
  }

  /** Ones' complement sum of the big-endian words; an odd last byte is padded with zero. */
  function OnesSum(data: seq<byte>): uint16 {
    if |data| == 0 then 0
    else if |data| == 1 then Word(data[0], 0)
    else OnesAdd(Word(data[0], data[1]), OnesSum(data[2..]))
  }

  function Checksum(data: seq<byte>): uint16 { 0xffff - OnesSum(data) }

  // ----- The program's two steps -----

  function Htons(n: uint16): uint16 { Word(LowByte(n), HighByte(n)) }

  /** The word at offset i as a little-endian host reads it. */
  function NativeWord(data: seq<byte>, i: nat): uint16
    requires i + 1 < |data|
  {
    Word(data[i + 1], data[i])
  }

  /** What the accumulation loops add up, before any wrap-around. */
  function NativeSum(data: seq<byte>): nat {
    if |data| == 0 then 0
    else if |data| == 1 then data[0]
    else NativeWord(data, 0) + NativeSum(data[2..])
  }

  function FoldOnce(sum: nat): nat { sum / 0x1_0000 + sum % 0x1_0000 }

  /** The second fold adds the carry but keeps the high half. */
  function Fold(sum: uint32): uint32 {
    var first := FoldOnce(sum);
    Wrap32(first + first / 0x1_0000)
  }

  function FinishInternet16(sum: uint32): uint16 {
    Htons((0xffff_ffff - Fold(sum)) % 0x1_0000)
  }

  // The unrolled sums of the three loop bodies.

  function OneWord(data: seq<byte>, i: nat): (w: nat)
    requires i + 2 <= |data|
    ensures w == WordsFrom(data, i, 1)
  {
    assert WordsFrom(data, i + 2, 0) == 0;
    NativeWord(data, i)
  }

  function FourWords(data: seq<byte>, i: nat): (w: nat)
    requires i + 8 <= |data|
    ensures w == WordsFrom(data, i, 4)
  {
    assert OneWord(data, i + 6) == WordsFrom(data, i + 6, 1);
    assert WordsFrom(data, i + 4, 2) == NativeWord(data, i + 4) + WordsFrom(data, i + 6, 1);
    NativeWord(data, i) + NativeWord(data, i + 2) + NativeWord(data, i + 4) + NativeWord(data, i + 6)
  }

  function TenWords(data: seq<byte>, i: nat): (w: nat)
    requires i + 20 <= |data|
    ensures w == WordsFrom(data, i, 10)
  {
    assert FourWords(data, i + 12) == WordsFrom(data, i + 12, 4);
    assert WordsFrom(data, i + 10, 5) == NativeWord(data, i + 10) + WordsFrom(data, i + 12, 4);
    assert WordsFrom(data, i + 8, 6) == NativeWord(data, i + 8) + WordsFrom(data, i + 10, 5);
    assert WordsFrom(data, i + 6, 7) == NativeWord(data, i + 6) + WordsFrom(data, i + 8, 6);
    assert WordsFrom(data, i + 4, 8) == NativeWord(data, i + 4) + WordsFrom(data, i + 6, 7);
    assert WordsFrom(data, i + 2, 9) == NativeWord(data, i + 2) + WordsFrom(data, i + 4, 8);
    NativeWord(data, i) + NativeWord(data, i + 2) + NativeWord(data, i + 4) + NativeWord(data, i + 6)
    + NativeWord(data, i + 8) + NativeWord(data, i + 10) + NativeWord(data, i + 12) + NativeWord(data, i + 14)
    + NativeWord(data, i + 16) + NativeWord(data, i + 18)
  }

  method ComputeInternet16(sum: uint32, data: seq<byte>) returns (result: uint32)
    ensures result == Wrap32(sum + NativeSum(data))
  {
    result := sum;
    var ptr := 0;
    ghost var half := 0;
    while ptr + 19 < |data|
      invariant 0 <= ptr == 2 * half <= |data|
      invariant result == Accumulated(sum, data, half)
    {
      result := AddWrapped(sum, data, half, 10, result, TenWords(data, ptr));
      ptr := ptr + 20;
      half := half + 10;
    }
    while ptr + 7 < |data|
      invariant 0 <= ptr == 2 * half <= |data|
      invariant result == Accumulated(sum, data, half)
    {
      result := AddWrapped(sum, data, half, 4, result, FourWords(data, ptr));
      ptr := ptr + 8;
      half := half + 4;
    }
    while ptr + 1 < |data|
      invariant 0 <= ptr == 2 * half <= |data|
      invariant result == Accumulated(sum, data, half)
    {
      result := AddWrapped(sum, data, half, 1, result, OneWord(data, ptr));
      ptr := ptr + 2;
      half := half + 1;
    }
    if ptr < |data| {
      result := AddLastByte(sum, data, half, result, data[ptr]);
    } else {
      assert data[..2 * half] == data;
    }
  }

  /** The accumulator after the first `half` words of data. */
  ghost function Accumulated(sum: uint32, data: seq<byte>, half: nat): uint32
    requires 2 * half <= |data|
  {
    Wrap32(sum + NativeSum(data[..2 * half]))
  }

  lemma WrapAdd(a: int, b: int)
    ensures Wrap32(Wrap32(a) + b) == Wrap32(a + b)
  {
    assert a == 0x1_0000_0000 * (a / 0x1_0000_0000) + Wrap32(a);
  }

  /** One addition to the uint32 accumulator. */
  function AddWrapped(ghost sum: uint32, ghost s: seq<byte>, ghost half: nat, ghost words: nat,
                      acc: uint32, w: nat): (r: uint32)
    requires 2 * half + 2 * words <= |s|
    requires acc == Accumulated(sum, s, half)
    requires w == WordsFrom(s, 2 * half, words)
    ensures r == Accumulated(sum, s, half + words)
  {
    NativeSumSteps(s, 2 * half, words);
    WrapAdd(sum + NativeSum(s[..2 * half]), w);
    Wrap32(acc + w)
  }

  function AddLastByte(ghost sum: uint32, ghost s: seq<byte>, ghost half: nat, acc: uint32, b: byte): (r: uint32)
    requires 2 * half + 1 == |s| && b == s[2 * half]
    requires acc == Accumulated(sum, s, half)
    ensures r == Wrap32(sum + NativeSum(s))
  {
    assert s == s[..2 * half] + [b];
    NativeSumAppend(s[..2 * half], [b]);
    WrapAdd(sum + NativeSum(s[..2 * half]), b);
    Wrap32(acc + b)
  }

  /** Summing pieces separately is summing their concatenation, if all but the last are even. */
  lemma {:induction false} NativeSumAppend(a: seq<byte>, b: seq<byte>)
    requires |a| % 2 == 0
    ensures NativeSum(a + b) == NativeSum(a) + NativeSum(b)
  {
    if a == [] {
      assert a + b == b;
    } else {
      assert (a + b)[2..] == a[2..] + b;
      NativeSumAppend(a[2..], b);
    }
  }

  /** The sum of `words` native words starting at offset i. */
  function WordsFrom(data: seq<byte>, i: nat, words: nat): nat
    requires i + 2 * words <= |data|
    decreases words
  {
    if words == 0 then 0 else NativeWord(data, i) + WordsFrom(data, i + 2, words - 1)
  }

  lemma {:induction false} NativeSumSteps(data: seq<byte>, i: nat, words: nat)
    requires i % 2 == 0 && i + 2 * words <= |data|
    ensures NativeSum(data[..i + 2 * words]) == NativeSum(data[..i]) + WordsFrom(data, i, words)
    decreases words
  {
    if words == 0 {
    } else {
      assert data[..i + 2] == data[..i] + data[i..i + 2];
      NativeSumAppend(data[..i], data[i..i + 2]);
      NativeSumSteps(data, i + 2, words - 1);
    }
  }
}
