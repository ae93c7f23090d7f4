/** The ICMP header and the payload header of a probe: byte layout and the objects that edit it. */
module Headers {
  import opened Words

  const ICMP_HEADER_SIZE := 8
  const MIN_TRACESERVICE_HEADER_SIZE := 16
  const MAX_TRACESERVICE_HEADER_SIZE := 65536

  /** HiPerConTracer's epoch, in nanoseconds. */
  const EPOCH := 212803200_000_000_000

  // ----- Layout -----

  function EchoHeader(icmpType: byte, checksum: uint16, identifier: uint16, seqNumber: uint16): (r: seq<byte>)
    ensures |r| == ICMP_HEADER_SIZE
  {
    [icmpType, 0] + Bytes16(checksum) + Bytes16(identifier) + Bytes16(seqNumber)
  }

  /** A new payload: zeros, then the index of each byte. */
  function Filler(size: nat): (r: seq<byte>)
    ensures |r| == size
  {
    seq(size, i => if i < 64 then 0 else i % 0x100)
  }

  function Payload(size: nat, magic: uint32, ttl: byte, round: byte, tweak: uint16, timeStamp: uint64): (r: seq<byte>)
    requires size >= MIN_TRACESERVICE_HEADER_SIZE
    ensures |r| == size
  {
    Bytes32(magic) + [ttl, round] + Bytes16(tweak) + Bytes64(timeStamp) + Filler(size)[16..]
  }

  lemma EchoFields(icmpType: byte, checksum: uint16, identifier: uint16, seqNumber: uint16)
    ensures var h := EchoHeader(icmpType, checksum, identifier, seqNumber);
      && h[0] == icmpType && h[1] == 0
      && Get16(h, 2) == checksum && Get16(h, 4) == identifier && Get16(h, 6) == seqNumber
  {
    WordOfBytes(checksum);
    WordOfBytes(identifier);
    WordOfBytes(seqNumber);
    hide HighByte, LowByte, Word;
  }

  lemma FillerBytes(size: nat)
    ensures forall i :: 0 <= i < size ==> Filler(size)[i] == if i < 64 then 0 else i % 0x100
  {
  }

  lemma PayloadFields(size: nat, magic: uint32, ttl: byte, round: byte, tweak: uint16, timeStamp: uint64)
    requires size >= MIN_TRACESERVICE_HEADER_SIZE
    ensures var p := Payload(size, magic, ttl, round, tweak, timeStamp);
      Get32(p, 0) == magic && p[4] == ttl && p[5] == round && Get16(p, 6) == tweak && Get64(p, 8) == timeStamp
      && forall i :: 16 <= i < size ==> p[i] == if i < 64 then 0 else i % 0x100
  {
    FillerBytes(size);
    hide Bytes32, Bytes64, Filler, Get32, Get64;
    var p := Payload(size, magic, ttl, round, tweak, timeStamp);
    assert forall i :: 16 <= i < size ==> p[i] == Filler(size)[i];
    WordOfBytes(tweak);
    hide HighByte, LowByte, Word;
    assert p[0..4] == Bytes32(magic);
    GetBytes32(magic, p, 0);
    assert p[8..16] == Bytes64(timeStamp);
    GetBytes64(timeStamp, p, 8);
  }

  /** The bytes of a payload from offset `at` of a message on, but for the word in the middle of its header. */
  ghost predicate HasPayload(m: seq<byte>, at: nat, magic: uint32, ttl: byte, round: byte, timeStamp: uint64) {
    && |m| >= at + 16 && Get32(m, at) == magic && m[at + 4] == ttl && m[at + 5] == round
    && Get64(m, at + 8) == timeStamp
    && forall i :: at + 16 <= i < |m| ==> m[i] == if i - at < 64 then 0 else (i - at) % 0x100
  }

  lemma PayloadAt(before: seq<byte>, size: nat, magic: uint32, ttl: byte, round: byte, tweak: uint16, timeStamp: uint64)
    requires size >= MIN_TRACESERVICE_HEADER_SIZE
    ensures HasPayload(before + Payload(size, magic, ttl, round, tweak, timeStamp), |before|, magic, ttl, round,
                       timeStamp)
  {
    PayloadFields(size, magic, ttl, round, tweak, timeStamp);
    hide Payload, Word;
    var p := Payload(size, magic, ttl, round, tweak, timeStamp);
    var m, at := before + p, |before|;
    assert forall i :: 0 <= i < |p| ==> m[at + i] == p[i];
    forall i | at + 16 <= i < |m| ensures m[i] == if i - at < 64 then 0 else (i - at) % 0x100 {
      assert m[i] == p[i - at];
    }
  }

  /** A payload of the given size and magic number, whatever its TTL, round, tweak and time stamp. */
  ghost predicate IsPayloadOf(p: seq<byte>, size: nat, magic: uint32) {
    && |p| == size >= MIN_TRACESERVICE_HEADER_SIZE
    && p[..4] == Bytes32(magic) && p[16..] == Filler(size)[16..]
  }

  lemma PayloadOfParts(p: seq<byte>, size: nat, magic: uint32, ttl: byte, round: byte, tweak: uint16, timeStamp: uint64)
    requires IsPayloadOf(p, size, magic)
    ensures var q := Put16(p[4 := ttl][5 := round], 6, tweak);
            q[..8] + Bytes64(timeStamp) + q[16..] == Payload(size, magic, ttl, round, tweak, timeStamp)
  {
    hide Bytes32, Bytes64, Filler, HighByte, LowByte;
    var q := Put16(p[4 := ttl][5 := round], 6, tweak);
    assert q[..4] == p[..4] && q[16..] == p[16..];
    assert q[..8] == q[..4] + [ttl, round] + Bytes16(tweak);
  }

  // ----- Objects -----

  class ICMPHeader {
    const Data: array<byte>

    constructor ()
      ensures fresh(Data) && Data.Length == ICMP_HEADER_SIZE && Data[..] == EchoHeader(0, 0, 0, 0)
    {
      Data := new byte[ICMP_HEADER_SIZE](_ => 0);
    }

    method SetType(icmpType: byte)
      requires Data.Length == ICMP_HEADER_SIZE
      modifies Data
      ensures Data[..] == old(Data[..])[0 := icmpType]
    {
      Data[0] := icmpType;
    }

    method SetCode(code: byte)
      requires Data.Length == ICMP_HEADER_SIZE
      modifies Data
      ensures Data[..] == old(Data[..])[1 := code]
    {
      Data[1] := code;
    }

    method SetChecksum(checksum: uint16)
      requires Data.Length == ICMP_HEADER_SIZE
      modifies Data
      ensures Data[..] == Put16(old(Data[..]), 2, checksum)
    {
      Encode(Data, 2, checksum);
    }

    method SetIdentifier(identifier: uint16)
      requires Data.Length == ICMP_HEADER_SIZE
      modifies Data
      ensures Data[..] == Put16(old(Data[..]), 4, identifier)
    {
      Encode(Data, 4, identifier);
    }

    method SetSeqNumber(seqNumber: uint16)
      requires Data.Length == ICMP_HEADER_SIZE
      modifies Data
      ensures Data[..] == Put16(old(Data[..]), 6, seqNumber)
    {
      Encode(Data, 6, seqNumber);
    }
  }

  class TraceServiceHeader {
    const Data: array<byte>

    constructor (size: nat)
      requires MIN_TRACESERVICE_HEADER_SIZE <= size <= MAX_TRACESERVICE_HEADER_SIZE
      ensures fresh(Data) && Data.Length == size && Data[..] == Payload(size, 0, 0, 0, 0, 0)
    {
      Data := new byte[size](_ => 0);
      new;
      var i := 64;
      while i < size
        invariant forall j :: 0 <= j < size && j < i ==> Data[j] == Filler(size)[j]
      {
        Data[i] := i % 0x100;
        i := i + 1;
      }
      assert Data[..] == Filler(size);
      assert Filler(size)[..16] == Bytes32(0) + [0, 0] + Bytes16(0) + Bytes64(0);
    }

    method SetMagicNumber(number: uint32)
      requires Data.Length >= MIN_TRACESERVICE_HEADER_SIZE
      modifies Data
      ensures Data[..] == Bytes32(number) + old(Data[..])[4..]
    {
      hide Bytes32;
      var b := Bytes32(number);
      Data[0], Data[1], Data[2], Data[3] := b[0], b[1], b[2], b[3];
    }

    method SetSendTTL(ttl: byte)
      requires Data.Length >= MIN_TRACESERVICE_HEADER_SIZE
      modifies Data
      ensures Data[..] == old(Data[..])[4 := ttl]
    {
      Data[4] := ttl;
    }

    method SetRound(round: byte)
      requires Data.Length >= MIN_TRACESERVICE_HEADER_SIZE
      modifies Data
      ensures Data[..] == old(Data[..])[5 := round]
    {
      Data[5] := round;
    }

    method SetChecksumTweak(value: uint16)
      requires Data.Length >= MIN_TRACESERVICE_HEADER_SIZE
      modifies Data
      ensures Data[..] == Put16(old(Data[..]), 6, value)
    {
      Data[6] := HighByte(value);
      Data[7] := LowByte(value);
    }

    method SetSendTimeStamp(timeStamp: uint64)
      requires Data.Length >= MIN_TRACESERVICE_HEADER_SIZE
      modifies Data
      ensures Data[..] == old(Data[..])[..8] + Bytes64(timeStamp) + old(Data[..])[16..]
    {
      hide Bytes64;
      var b := Bytes64(timeStamp);
      Data[8], Data[9], Data[10], Data[11] := b[0], b[1], b[2], b[3];
      Data[12], Data[13], Data[14], Data[15] := b[4], b[5], b[6], b[7];
    }
  }
}
