/**
 Which received bytes the handlers take for an answer: exactly those with the module's own numbers at the places of the
 protocols, and what they take from them.
 */
module Decoders {
  import opened Wrappers
  import opened Words
  import opened Addresses
  import opened IpHeaders
  import opened Responses

  lemma Word16At(m: seq<byte>, a: nat, i: nat)
    requires a + i + 1 < |m|
    ensures Get16(m[a..], i) == Get16(m, a + i)
  {
  }

  lemma Word32At(m: seq<byte>, a: nat, i: nat)
    requires a + i + 3 < |m|
    ensures Get32(m[a..], i) == Get32(m, a + i)
  {
    hide Word;
  }

  // ----- ICMPv6 -----

  /** ICMPv6 echo reply: identifier, then the payload's magic number. */
  predicate IsEchoV6(r: Receiver, m: seq<byte>) {
    |m| >= 24 && m[0] == 129 && Get16(m, 4) == r.identifier && Get32(m, 8) == r.magicNumber
  }

  /** ICMPv6 time exceeded or destination unreachable, quoting IPv6, ICMPv6 and payload headers. */
  predicate IsQuoteV6(r: Receiver, m: seq<byte>) {
    && |m| >= 72 && m[0] in {1, 3} && m[8] / 0x10 == 6 && m[14] == 58
    && Get16(m, 52) == r.identifier && Get32(m, 56) == r.magicNumber
  }

  lemma ICMPv6Takes(r: Receiver, m: seq<byte>)
    ensures ICMPv6Response(r, m)
         == if IsEchoV6(r, m) then Some(Response(m[0], m[1], Get16(m, 6), None, None, Wrap32(40 + |m|)))
            else if IsQuoteV6(r, m) then
              Some(Response(m[0], m[1], Get16(m, 54), Some(V6(m[16..32], 0)), Some(V6(m[32..48], 0)), Wrap32(40 + |m|)))
            else None
  {
    hide Word, Get32, Get16;
    if |m| >= 24 {
      Word32At(m, 8, 0);
    }
    if |m| >= 48 {
      assert m[8..][40..] == m[48..] && m[8..][8..24] == m[16..32] && m[8..][24..40] == m[32..48];
    }
    if |m| >= 72 {
      assert m[48..][8..] == m[56..];
      Word16At(m, 48, 4);
      Word16At(m, 48, 6);
      Word32At(m, 56, 0);
    }
  }

  // ----- UDP over IPv6 -----

  predicate IsUDPQuoteV6(r: Receiver, m: seq<byte>) {
    && |m| >= 72 && m[0] in {1, 3} && m[8] / 0x10 == 6 && m[14] == 17
    && Get16(m, 48) == r.sourcePort && Get16(m, 50) == r.destinationPort && Get16(m, 52) >= 16
    && Get32(m, 56) == r.magicNumber
  }

  lemma UDPv6Takes(r: Receiver, m: seq<byte>)
    ensures UDPv6Error(r, m)
         == if IsUDPQuoteV6(r, m) then
              Some(Response(m[0], m[1], Get16(m, 62), Some(V6(m[16..32], 0)), Some(V6(m[32..48], 0)), Wrap32(|m|)))
            else None
  {
    hide Word, Get32, Get16;
    if |m| >= 48 {
      assert m[8..][40..] == m[48..] && m[8..][8..24] == m[16..32] && m[8..][24..40] == m[32..48];
    }
    if |m| >= 56 {
      Word16At(m, 48, 0);
      Word16At(m, 48, 2);
      Word16At(m, 48, 4);
      assert m[48..][8..] == m[56..];
    }
    if |m| >= 72 {
      Word32At(m, 56, 0);
      Word16At(m, 56, 6);
    }
  }

  lemma UDPReplyTakes(r: Receiver, m: seq<byte>)
    ensures UDPReply(r, m)
         == if |m| >= 16 && Get32(m, 0) == r.magicNumber then
              Some(Response(0, 0, Get16(m, 6), None, None, Wrap32((if r.isV6 then 48 else 28) + |m|)))
            else None
  {
    hide Get32, Get16;
  }

  // ----- IPv4 -----

  /** The header's size in bytes; with options, more than 20. */
  function SizeV4(m: seq<byte>, at: nat): nat
    requires at < |m|
  {
    m[at] % 0x10 * 4
  }

  /** An IPv4 header of the given protocol, at the given place, and at least 8 bytes behind it. */
  predicate IsHeaderV4(m: seq<byte>, at: nat, protocol: byte) {
    && |m| >= at + 20 && m[at] / 0x10 == 4 && SizeV4(m, at) >= 20 && |m| >= at + SizeV4(m, at) + 8
    && m[at + 9] == protocol
  }

  lemma ReadIPv4At(m: seq<byte>, at: nat)
    requires at <= |m|
    ensures ReadIPv4(m[at..])
         == if |m| >= at + 20 && m[at] / 0x10 == 4 && SizeV4(m, at) >= 20 && |m| >= at + SizeV4(m, at) then
              Some((IPv4Fields(m[at + 9], Get16(m, at + 4), V4(m[at + 12..at + 16]), V4(m[at + 16..at + 20])),
                    m[at + SizeV4(m, at)..]))
            else None
  {
    hide Word;
    if |m| >= at + 20 {
      var input := m[at..];
      assert input[12..16] == m[at + 12..at + 16] && input[16..20] == m[at + 16..at + 20];
      if SizeV4(m, at) <= |input| {
        assert input[SizeV4(m, at)..] == m[at + SizeV4(m, at)..];
      }
    }
  }

  lemma ReadICMPAt(m: seq<byte>, at: nat)
    requires at <= |m|
    ensures ReadICMP(m[at..])
         == if |m| >= at + 8
             then Some((ICMPFields(m[at], m[at + 1], Get16(m, at + 4), Get16(m, at + 6)), m[at + 8..])) else None
  {
    hide Word;
    if |m| >= at + 8 {
      assert m[at..][8..] == m[at + 8..];
    }
  }

  predicate IsEchoV4(r: Receiver, m: seq<byte>) {
    && IsHeaderV4(m, 0, 1)
    && var at := SizeV4(m, 0);
       m[at] == 0 && Get16(m, at + 4) == r.identifier && |m| >= at + 24 && Get32(m, at + 8) == r.magicNumber
  }

  /** ICMPv4 need not quote more than 8 bytes: the payload's magic number is not looked at. */
  predicate IsQuoteV4(r: Receiver, m: seq<byte>) {
    && IsHeaderV4(m, 0, 1)
    && var at := SizeV4(m, 0);
       && m[at] in {3, 11} && IsHeaderV4(m, at + 8, 1)
       && Get16(m, at + 8 + SizeV4(m, at + 8) + 4) == r.identifier
  }

  /** What is quoted from `ip` on, and the ICMPv4 header before it. */
  function TakenV4(m: seq<byte>, at: nat, ip: nat, seqNumber: uint16): Response
    requires at + 2 <= |m| && ip + 20 <= |m|
  {
    Response(m[at], m[at + 1], seqNumber, Some(V4(m[ip + 12..ip + 16])), Some(V4(m[ip + 16..ip + 20])), Wrap32(|m|))
  }

  lemma QuotedICMPAt(r: Receiver, m: seq<byte>, at: nat)
    requires at + 8 <= |m|
    ensures QuotedICMPv4(r, ICMPFields(m[at], m[at + 1], Get16(m, at + 4), Get16(m, at + 6)), m[at + 8..], |m|)
         == if IsHeaderV4(m, at + 8, 1) && Get16(m, at + 8 + SizeV4(m, at + 8) + 4) == r.identifier
            then Some(TakenV4(m, at, at + 8, Get16(m, at + 8 + SizeV4(m, at + 8) + 6))) else None
  {
    ReadIPv4At(m, at + 8);
    hide Word, Get16, ReadIPv4, ReadICMP, Wrap32;
    if |m| >= at + 28 && |m| >= at + 8 + SizeV4(m, at + 8) {
      ReadICMPAt(m, at + 8 + SizeV4(m, at + 8));
    }
  }

  lemma QuotedUDPAt(r: Receiver, m: seq<byte>, at: nat)
    requires at + 8 <= |m|
    ensures QuotedUDPv4(r, ICMPFields(m[at], m[at + 1], Get16(m, at + 4), Get16(m, at + 6)), m[at + 8..], |m|)
         == if IsUDPAt(r, m, at + 8) then Some(TakenV4(m, at, at + 8, Get16(m, at + 12))) else None
  {
    ReadIPv4At(m, at + 8);
    hide Word, Get16, ReadIPv4, ReadUDP, Wrap32;
    if |m| >= at + 28 && |m| >= at + 8 + SizeV4(m, at + 8) {
      ReadUDPAt(m, at + 8 + SizeV4(m, at + 8));
    }
  }

  /** The outer header, and the ICMP header behind it. */
  lemma OuterV4(m: seq<byte>)
    ensures !IsHeaderV4(m, 0, 1) ==>
              || ReadIPv4(m).None? || ReadIPv4(m).value.0.protocol != 1 || ReadICMP(ReadIPv4(m).value.1).None?
    ensures IsHeaderV4(m, 0, 1) ==>
              var at := SizeV4(m, 0);
              && ReadIPv4(m) == Some((IPv4Fields(1, Get16(m, 4), V4(m[12..16]), V4(m[16..20])), m[at..]))
              && ReadICMP(m[at..])
                  == Some((ICMPFields(m[at], m[at + 1], Get16(m, at + 4), Get16(m, at + 6)), m[at + 8..]))
  {
    ReadIPv4At(m, 0);
    assert m[0..] == m;
    hide Word, Get16, ReadIPv4, ReadICMP;
    if |m| >= 20 && |m| >= SizeV4(m, 0) {
      ReadICMPAt(m, SizeV4(m, 0));
    }
  }

  lemma ICMPv4Takes(r: Receiver, m: seq<byte>)
    ensures ICMPv4Response(r, m)
         == if IsEchoV4(r, m) then
              var at := SizeV4(m, 0);
              Some(Response(0, m[at + 1], Get16(m, at + 6), Some(V4(m[16..20])), Some(V4(m[12..16])), Wrap32(|m|)))
            else if IsQuoteV4(r, m) then
              var at := SizeV4(m, 0);
              Some(TakenV4(m, at, at + 8, Get16(m, at + 8 + SizeV4(m, at + 8) + 6)))
            else None
  {
    hide ICMPv4Response, QuotedICMPv4, TakenV4, Wrap32, Get16, Get32;
    BehindV4(r, m);
    if IsHeaderV4(m, 0, 1) {
      QuotedICMPAt(r, m, SizeV4(m, 0));
    }
  }

  lemma BehindV4(r: Receiver, m: seq<byte>)
    ensures !IsHeaderV4(m, 0, 1) ==> ICMPv4Response(r, m) == None
    ensures IsHeaderV4(m, 0, 1) ==>
              var at := SizeV4(m, 0);
              ICMPv4Response(r, m)
              == if m[at] == 0 && Get16(m, at + 4) == r.identifier then
                   if |m| >= at + 24 && Get32(m, at + 8) == r.magicNumber then
                     Some(Response(0, m[at + 1], Get16(m, at + 6), Some(V4(m[16..20])), Some(V4(m[12..16])),
                                   Wrap32(|m|)))
                   else None
                 else if m[at] in {3, 11} then
                   QuotedICMPv4(r, ICMPFields(m[at], m[at + 1], Get16(m, at + 4), Get16(m, at + 6)), m[at + 8..], |m|)
                 else None
  {
    OuterV4(m);
    if IsHeaderV4(m, 0, 1) && |m| >= SizeV4(m, 0) + 24 {
      Word32At(m, SizeV4(m, 0) + 8, 0);
    }
    hide IsHeaderV4, SizeV4, Word, Get32, Get16, ReadIPv4, ReadICMP, QuotedICMPv4, Wrap32;
  }

  /** An IPv4 header, and a UDP header with the module's ports that announces a payload header. */
  predicate IsUDPAt(r: Receiver, m: seq<byte>, ip: nat) {
    && IsHeaderV4(m, ip, 17)
    && var udp := ip + SizeV4(m, ip);
       Get16(m, udp) == r.sourcePort && Get16(m, udp + 2) == r.destinationPort && Get16(m, udp + 4) >= 16
  }

  predicate IsUDPQuoteV4(r: Receiver, m: seq<byte>) {
    && IsHeaderV4(m, 0, 1)
    && var at := SizeV4(m, 0);
       m[at] in {3, 11} && IsUDPAt(r, m, at + 8)
  }

  lemma ReadUDPAt(m: seq<byte>, at: nat)
    requires at <= |m|
    ensures ReadUDP(m[at..])
         == if |m| >= at + 8 && Get16(m, at + 4) >= 16
            then Some((UDPFields(Get16(m, at), Get16(m, at + 2), Get16(m, at + 4), Get16(m, at + 6)), m[at + 8..]))
                else None
  {
    hide Word;
    if |m| >= at + 8 {
      assert m[at..][8..] == m[at + 8..];
    }
  }

  lemma UDPv4Takes(r: Receiver, m: seq<byte>)
    ensures UDPv4Error(r, m)
         == if IsUDPQuoteV4(r, m) then var at := SizeV4(m, 0); Some(TakenV4(m, at, at + 8, Get16(m, at + 12))) else None
  {
    hide UDPv4Error, QuotedUDPv4, TakenV4, Get16;
    BehindUDPv4(r, m);
    if IsHeaderV4(m, 0, 1) {
      QuotedUDPAt(r, m, SizeV4(m, 0));
    }
  }

  lemma BehindUDPv4(r: Receiver, m: seq<byte>)
    ensures !IsHeaderV4(m, 0, 1) ==> UDPv4Error(r, m) == None
    ensures IsHeaderV4(m, 0, 1) ==>
              var at := SizeV4(m, 0);
              UDPv4Error(r, m)
              == if m[at] in {3, 11} then
                   QuotedUDPv4(r, ICMPFields(m[at], m[at + 1], Get16(m, at + 4), Get16(m, at + 6)), m[at + 8..], |m|)
                 else None
  {
    OuterV4(m);
    hide IsHeaderV4, SizeV4, Word, Get16, ReadIPv4, ReadICMP, QuotedUDPv4;
  }
}
