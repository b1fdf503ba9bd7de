/** Peer addresses: which of them may be dialled directly, and how a registered one is cleaned. */
module Addresses {
  import opened Bytes
  import opened Wrappers

  type Ip4 = s: seq<byte> | |s| == 4 witness [0, 0, 0, 0]

  type u16 = n: nat | n < 0x1_0000

  type Ip6 = s: seq<u16> | |s| == 8 witness [0, 0, 0, 0, 0, 0, 0, 0]

  datatype Protocol =
    | V4(ip4: Ip4)
    | V6(ip6: Ip6)
    | Tcp(port: u16)
    | P2pCircuit
    | OtherProtocol(raw: seq<byte>)

  type Multiaddr = seq<Protocol>

  /** Not unspecified, loopback, link-local, multicast, broadcast or reserved for documentation. */
  predicate DialableIp4(ip: Ip4) {
    && ip != [0, 0, 0, 0]
    && ip[0] != 127
    && !(ip[0] == 169 && ip[1] == 254)
    && !(224 <= ip[0] < 240)
    && ip != [255, 255, 255, 255]
    && ip[..3] != [192, 0, 2] && ip[..3] != [198, 51, 100] && ip[..3] != [203, 0, 113]
  }

  /** Not unspecified, loopback, link-local or multicast. */
  predicate DialableIp6(ip: Ip6) {
    && ip != [0, 0, 0, 0, 0, 0, 0, 0]
    && ip != [0, 0, 0, 0, 0, 0, 0, 1]
    && !(0xfe80 <= ip[0] < 0xfec0)
    && !(0xff00 <= ip[0])
  }

  predicate DialableIp(p: Protocol) {
    (p.V4? && DialableIp4(p.ip4)) || (p.V6? && DialableIp6(p.ip6))
  }

  predicate Kept(p: Protocol) {
    DialableIp(p) || p.Tcp?
  }

  /** The parts of an address that survive, in order. */
  function KeptParts(address: Multiaddr): (r: Multiaddr)
    ensures forall p :: p in r <==> p in address && Kept(p)
  {
    if address == [] then []
    else
      var n := |address| - 1;
      assert address == address[..n] + [address[n]];
      KeptParts(address[..n]) + if Kept(address[n]) then [address[n]] else []
  }

  /** No relay hop, and both an address that can be dialled and a transport. */
  ghost predicate Direct(address: Multiaddr) {
    P2pCircuit !in address && HasIp(address) && HasTransport(address)
  }

  ghost predicate HasIp(address: Multiaddr) {
    exists p :: p in address && DialableIp(p)
  }

  ghost predicate HasTransport(address: Multiaddr) {
    exists p :: p in address && p.Tcp?
  }

  lemma OneMorePart(address: Multiaddr, p: Protocol)
    ensures HasIp(address + [p]) <==> HasIp(address) || DialableIp(p)
    ensures HasTransport(address + [p]) <==> HasTransport(address) || p.Tcp?
    ensures KeptParts(address + [p]) == KeptParts(address) + if Kept(p) then [p] else []
  {
    if HasIp(address + [p]) {
      var q :| q in address + [p] && DialableIp(q);
    }
    if DialableIp(p) || p.Tcp? {
      assert p in address + [p];
    }
    assert (address + [p])[..|address|] == address;
  }

  method SanitizeDirectAddress(address: Multiaddr) returns (r: Option<Multiaddr>)
    ensures r.Some? <==> Direct(address)
    ensures r.Some? ==> r.value == KeptParts(address)
  {
    var relayed := HasCircuit(address);
    if relayed {
      return None;
    }
    var hasUsableIp, hasTransport, sanitized := KeepParts(address);
    return if hasUsableIp && hasTransport then Some(sanitized) else None;
  }

  method HasCircuit(address: Multiaddr) returns (r: bool)
    ensures r <==> P2pCircuit in address
  {
    for i := 0 to |address|
      invariant P2pCircuit !in address[..i]
    {
      if address[i].P2pCircuit? {
        return true;
      }
    }
    return false;
  }

  method KeepParts(address: Multiaddr) returns (hasUsableIp: bool, hasTransport: bool, sanitized: Multiaddr)
    ensures hasUsableIp == HasIp(address) && hasTransport == HasTransport(address)
    ensures sanitized == KeptParts(address)
  {
    hasUsableIp, hasTransport, sanitized := false, false, [];
    for i := 0 to |address|
      invariant sanitized == KeptParts(address[..i])
      invariant hasUsableIp == HasIp(address[..i])
      invariant hasTransport == HasTransport(address[..i])
    {
      OneMorePart(address[..i], address[i]);
      assert address[..i + 1] == address[..i] + [address[i]];
      if DialableIp(address[i]) {
        hasUsableIp := true;
        sanitized := sanitized + [address[i]];
      } else if address[i].Tcp? {
        hasTransport := true;
        sanitized := sanitized + [address[i]];
      }
    }
    assert address[..|address|] == address;
  }

  /** The cleaned forms of those registered addresses that parse and are direct, in order. */
  ghost function SanitizeAll(addresses: seq<Option<Multiaddr>>): seq<Multiaddr> {
    if addresses == [] then []
    else
      var n := |addresses| - 1;
      SanitizeAll(addresses[..n])
      + if addresses[n].Some? && Direct(addresses[n].value) then [KeptParts(addresses[n].value)] else []
  }

  method Sanitize(addresses: seq<Option<Multiaddr>>) returns (r: seq<Multiaddr>)
    ensures r == SanitizeAll(addresses)
  {
    r := [];
    for i := 0 to |addresses|
      invariant r == SanitizeAll(addresses[..i])
    {
      assert addresses[..i + 1][..i] == addresses[..i];
      if addresses[i].Some? {
        var clean := SanitizeDirectAddress(addresses[i].value);
        if clean.Some? {
          r := r + [clean.value];
        }
      }
    }
    assert addresses[..|addresses|] == addresses;
  }

  /** Cleaning keeps the order: what is kept of two lists is kept of one after the other. */
  lemma {:induction false} KeptInOrder(a: Multiaddr, b: Multiaddr)
    ensures KeptParts(a + b) == KeptParts(a) + KeptParts(b)
  {
    if b == [] {
      assert a + b == a;
    } else {
      var n := |b| - 1;
      assert a + b == (a + b[..n]) + [b[n]] && b == b[..n] + [b[n]];
      KeptInOrder(a, b[..n]);
      OneMorePart(a + b[..n], b[n]);
      OneMorePart(b[..n], b[n]);
    }
  }

  lemma SanitizeOne(addresses: seq<Option<Multiaddr>>, a: Option<Multiaddr>)
    ensures SanitizeAll(addresses + [a]) ==
      SanitizeAll(addresses) + if a.Some? && Direct(a.value) then [KeptParts(a.value)] else []
  {
    assert (addresses + [a])[..|addresses|] == addresses;
  }

  /** The registered addresses keep their order too. */
  lemma {:induction false} SanitizedInOrder(a: seq<Option<Multiaddr>>, b: seq<Option<Multiaddr>>)
    ensures SanitizeAll(a + b) == SanitizeAll(a) + SanitizeAll(b)
  {
    if b == [] {
      assert a + b == a;
    } else {
      var n := |b| - 1;
      assert a + b == (a + b[..n]) + [b[n]] && b == b[..n] + [b[n]];
      SanitizedInOrder(a, b[..n]);
      SanitizeOne(a + b[..n], b[n]);
      SanitizeOne(b[..n], b[n]);
    }
  }

  /** An IPv4 address as the 32-bit number it is. */
  function Number(ip: Ip4): nat {
    var (a: nat, b: nat, c: nat, d: nat) := (ip[0], ip[1], ip[2], ip[3]);
    0x100_0000 * a + 0x1_0000 * b + 0x100 * c + d
  }

  /** The IPv4 addresses that are not dialled, as ranges of their 32-bit numbers. */
  lemma DialableIp4Ranges(ip: Ip4)
    ensures var n := Number(ip);
      DialableIp4(ip) <==>
      && n != 0
      && !(0x7F00_0000 <= n <= 0x7FFF_FFFF)
      && !(0xA9FE_0000 <= n <= 0xA9FE_FFFF)
      && !(0xE000_0000 <= n <= 0xEFFF_FFFF)
      && n != 0xFFFF_FFFF
      && !(0xC000_0200 <= n <= 0xC000_02FF)
      && !(0xC633_6400 <= n <= 0xC633_64FF)
      && !(0xCB00_7100 <= n <= 0xCB00_71FF)
  {
    assert ip == [ip[0], ip[1], ip[2], ip[3]];
    assert ip[..3] == [ip[0], ip[1], ip[2]];
  }

  /** The IPv6 addresses that are not dialled: zero, one, and those with the leading bits 1111111010 or 11111111. */
  lemma DialableIp6Prefixes(ip: Ip6)
    ensures DialableIp6(ip) <==>
      && !((forall k :: 0 <= k < 7 ==> ip[k] == 0) && ip[7] <= 1)
      && ip[0] / 64 != 0x3FA
      && ip[0] / 256 != 0xFF
  {
    assert ip == [ip[0], ip[1], ip[2], ip[3], ip[4], ip[5], ip[6], ip[7]];
  }

  /** Cleaning a direct address gives a direct one with nothing left to clean. */
  lemma CleanedIsDirect(address: Multiaddr)
    requires Direct(address)
    ensures Direct(KeptParts(address)) && forall p :: p in KeptParts(address) ==> Kept(p)
    ensures KeptParts(KeptParts(address)) == KeptParts(address)
  {
    var p :| p in address && DialableIp(p);
    var q :| q in address && q.Tcp?;
    assert p in KeptParts(address) && q in KeptParts(address);
    AllKept(KeptParts(address));
  }

  lemma {:induction false} AllKept(address: Multiaddr)
    requires forall p :: p in address ==> Kept(p)
    ensures KeptParts(address) == address
  {
    if address != [] {
      var n := |address| - 1;
      assert address == address[..n] + [address[n]];
      AllKept(address[..n]);
      OneMorePart(address[..n], address[n]);
    }
  }

  /** Every cleaned address is direct and holds nothing but dialable addresses and transports. */
  lemma {:induction false} SanitizedAreDirect(addresses: seq<Option<Multiaddr>>, a: Multiaddr)
    requires a in SanitizeAll(addresses)
    ensures Direct(a) && forall p :: p in a ==> Kept(p)
  {
    var n := |addresses| - 1;
    if a in SanitizeAll(addresses[..n]) {
      SanitizedAreDirect(addresses[..n], a);
    } else {
      CleanedIsDirect(addresses[n].value);
    }
  }
}
