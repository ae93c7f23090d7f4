/** IP addresses and destinations as the program compares them. */
module Addresses {
  import opened Words

  datatype RawAddress = V4(octets: seq<byte>) | V6(octets: seq<byte>, scope: uint32) {
    predicate Valid() { |octets| == if V4? then 4 else 16 }

    predicate IsUnspecified() { forall i :: 0 <= i < |octets| ==> octets[i] == 0 }

    function DropScopeID(): (r: RawAddress)
      ensures r.Valid() == Valid() && r.octets == octets && r.V6? == V6?
    {
      if V6? then V6(octets, 0) else this
    }
  }

  type Address = a: RawAddress | a.Valid() witness V4([0, 0, 0, 0])

  /** IPv4 before IPv6; then the octets as a number, then the scope. */
  function SortKey(a: Address): (key: seq<int>)
    ensures |key| == if a.V4? then 5 else 18
  {
    if a.V4? then [4] + a.octets else [6] + a.octets + [a.scope]
  }

  lemma KeyIsAddress(a: Address, b: Address)
    ensures SortKey(a) == SortKey(b) <==> a == b
  {
    if SortKey(a) == SortKey(b) {
      assert SortKey(a)[0] == SortKey(b)[0];
      assert SortKey(a)[1..|a.octets| + 1] == a.octets && SortKey(b)[1..|b.octets| + 1] == b.octets;
      if a.V6? {
        assert SortKey(a)[17] == a.scope && SortKey(b)[17] == b.scope;
      }
    }
  }

  datatype DestinationInfo = DestinationInfo(address: Address, trafficClass: byte, identifier: uint32)
}
