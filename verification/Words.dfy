/** Machine words of fixed width, as ranges of int, and their big-endian byte layout. */
module Words {
  type byte = x: int | 0 <= x < 0x100
  type uint16 = x: int | 0 <= x < 0x1_0000
  type uint32 = x: int | 0 <= x < 0x1_0000_0000
  type uint64 = x: int | 0 <= x < 0x1_0000_0000_0000_0000

  function Wrap16(x: int): uint16 { x % 0x1_0000 }

  function Wrap32(x: int): uint32 { x % 0x1_0000_0000 }

  function Wrap64(x: int): uint64 { x % 0x1_0000_0000_0000_0000 }

  /** The 16-bit value whose most significant byte comes first. */
  function Word(high: byte, low: byte): uint16 { 0x100 * high + low }

  function HighByte(n: uint16): byte { n / 0x100 }

  function LowByte(n: uint16): byte { n % 0x100 }

  /** Stores n at offset i in network byte order. */
  function Put16(data: seq<byte>, i: nat, n: uint16): (r: seq<byte>)
    requires i + 1 < |data|
    ensures |r| == |data|
  {
    data[i := HighByte(n)][i + 1 := LowByte(n)]
  }

  function Get16(data: seq<byte>, i: nat): uint16
    requires i + 1 < |data|
  {
    Word(data[i], data[i + 1])
  }

  function Bytes16(n: uint16): (r: seq<byte>)
    ensures |r| == 2
  {
    [HighByte(n), LowByte(n)]
  }

  function Bytes32(n: uint32): (r: seq<byte>)
    ensures |r| == 4
  {
    Bytes16(n / 0x1_0000) + Bytes16(n % 0x1_0000)
  }

  function Bytes64(n: uint64): (r: seq<byte>)
    ensures |r| == 8
  {
    Bytes32(n / 0x1_0000_0000) + Bytes32(n % 0x1_0000_0000)
  }

  function Get32(data: seq<byte>, i: nat): uint32
    requires i + 3 < |data|
  {
    0x1_0000 * Get16(data, i) + Get16(data, i + 2)
  }

  function Get64(data: seq<byte>, i: nat): uint64
    requires i + 7 < |data|
  {
    0x1_0000_0000 * Get32(data, i) + Get32(data, i + 4)
  }

  lemma GetBytes64(n: uint64, data: seq<byte>, i: nat)
    requires i + 7 < |data| && data[i..i + 8] == Bytes64(n)
    ensures Get64(data, i) == n
  {
    hide Bytes32, Get32;
    var high, low := Bytes32(n / 0x1_0000_0000), Bytes32(n % 0x1_0000_0000);
    assert data[i..i + 4] == data[i..i + 8][..4] == high && data[i + 4..i + 8] == data[i..i + 8][4..] == low;
    GetBytes32(n / 0x1_0000_0000, data, i);
    GetBytes32(n % 0x1_0000_0000, data, i + 4);
  }

  lemma GetBytes32(n: uint32, data: seq<byte>, i: nat)
    requires i + 3 < |data| && data[i..i + 4] == Bytes32(n)
    ensures Get32(data, i) == n
  {
    var b := Bytes32(n);
    assert data[i] == b[0] && data[i + 1] == b[1] && data[i + 2] == b[2] && data[i + 3] == b[3];
    WordOfBytes(n / 0x1_0000);
    WordOfBytes(n % 0x1_0000);
  }

  lemma WordOfBytes(n: uint16)
    ensures Word(HighByte(n), LowByte(n)) == n
  {
  }

  lemma GetPut(data: seq<byte>, i: nat, n: uint16)
    requires i + 1 < |data|
    ensures Get16(Put16(data, i, n), i) == n
  {
    WordOfBytes(n);
  }

  lemma GetPutOther(data: seq<byte>, i: nat, n: uint16, j: nat)
    requires i + 1 < |data| && j + 1 < |data| && (i + 1 < j || j + 1 < i)
    ensures Get16(Put16(data, i, n), j) == Get16(data, j)
  {
  }

  lemma PutBackZero(data: seq<byte>, i: nat, n: uint16)
    requires i + 1 < |data| && Get16(data, i) == 0
    ensures Put16(Put16(data, i, n), i, 0) == data
  {
    assert data[i] == 0 && data[i + 1] == 0;
  }

  lemma ZeroBytes(data: seq<byte>, i: nat)
    requires i + 1 < |data| && Get16(data, i) == 0
    ensures data[i] == 0 && data[i + 1] == 0
  {
  }

  lemma PutLeft(a: seq<byte>, b: seq<byte>, i: nat, n: uint16)
    requires i + 1 < |a|
    ensures Put16(a + b, i, n) == Put16(a, i, n) + b
  {
  }

  lemma PutRight(a: seq<byte>, b: seq<byte>, i: nat, n: uint16)
    requires |a| <= i && i + 1 < |a| + |b|
    ensures Put16(a + b, i, n) == a + Put16(b, i - |a|, n)
  {
  }

  /** Storing in the middle of three pieces. */
  lemma PutMiddle(a: seq<byte>, b: seq<byte>, c: seq<byte>, i: nat, n: uint16)
    requires i + 1 < |b|
    ensures Put16(a + (b + c), |a| + i, n) == a + (Put16(b, i, n) + c)
    ensures (a + (b + c))[|a| + i] == b[i] && (a + (b + c))[|a| + i + 1] == b[i + 1]
  {
    hide HighByte, LowByte;
    PutLeft(b, c, i, n);
    PutRight(a, b + c, |a| + i, n);
  }

  lemma PutTwice(data: seq<byte>, i: nat, m: uint16, n: uint16)
    requires i + 1 < |data|
    ensures Put16(Put16(data, i, m), i, n) == Put16(data, i, n)
  {
  }

  /** Writes n into a buffer in network byte order. */
  method Encode(data: array<byte>, i: nat, n: uint16)
    requires i + 1 < data.Length
    modifies data
    ensures data[..] == Put16(old(data[..]), i, n)
  {
    hide HighByte, LowByte;
    data[i] := HighByte(n);
    data[i + 1] := LowByte(n);
  }
}
