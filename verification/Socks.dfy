// proxy/proxy.go: the SOCKS5 CONNECT request, as handleV2RayConnect writes it and handleSOCKS5 reads it
// (sections 4 and 5 of RFC 1928).
module Socks {
  import opened Options
  import opened Bytes

  const VERSION: byte := 5
  const CONNECT: byte := 1
  const IPV4: byte := 1
  const DOMAIN: byte := 3
  const IPV6: byte := 4

  datatype Address = V4(ip: Octets) | Name(name: Octets) | V6(ip: Octets)

  predicate Sized(a: Address) {
    match a
    case V4(ip) => |ip| == 4
    case Name(_) => true
    case V6(ip) => |ip| == 16
  }

  /** The low 16 bits of a port number, whatever its sign. */
  function PortBytes(port: int): Octets {
    [port / 256 % 256, port % 256]
  }

  function AddressBytes(a: Address): Octets
    requires Sized(a) && (a.Name? ==> |a.name| <= 255)
  {
    match a
    case V4(ip) => [IPV4] + ip
    case Name(n) => [DOMAIN, |n|] + n
    case V6(ip) => [IPV6] + ip
  }

  /** None for a name that does not fit its length octet. */
  function Encode(a: Address, port: int): Option<Octets>
    requires Sized(a)
  {
    if a.Name? && |a.name| > 255 then None
    else Some([VERSION, CONNECT, 0] + AddressBytes(a) + PortBytes(port))
  }

  datatype Request = Connect(addr: Address, port: nat, rest: Octets) | BadCommand | BadType | Truncated

  /** The address and the port behind a header of h octets, the address taking n of them. */
  function Tail(s: Octets, h: nat, n: nat, kind: byte): Request
    requires h <= |s|
  {
    if |s| < h + n + 2 then Truncated else
    var x := s[h..h + n];
    Connect(if kind == IPV4 then V4(x) else if kind == DOMAIN then Name(x) else V6(x),
            Be16(s[h + n], s[h + n + 1]), s[h + n + 2..])
  }

  function Decode(s: Octets): Request {
    if |s| < 4 then Truncated
    else if s[0] != VERSION || s[1] != CONNECT then BadCommand
    else if s[3] == IPV4 then Tail(s, 4, 4, IPV4)
    else if s[3] == DOMAIN then (if |s| < 5 then Truncated else Tail(s, 5, s[4], DOMAIN))
    else if s[3] == IPV6 then Tail(s, 4, 16, IPV6)
    else BadType
  }

  /** How long the request with this header has to be: four octets, the address and the port. */
  predicate TooShort(s: Octets) {
    || |s| < 4
    || (s[3] == 1 && |s| < 10)
    || (s[3] == 3 && (|s| < 5 || |s| < 7 + s[4] as int))
    || (s[3] == 4 && |s| < 22)
  }

  /** When a request is refused, and why: a wrong version or command, an unknown address type, a stream that ends. */
  lemma RefusedIff(s: Octets)
    ensures Decode(s) == BadCommand <==> |s| >= 4 && (s[0] != 5 || s[1] != 1)
    ensures Decode(s) == BadType <==> |s| >= 4 && s[0] == 5 && s[1] == 1 && s[3] != 1 && s[3] != 3 && s[3] != 4
    ensures Decode(s) == Truncated <==> |s| < 4 || (s[0] == 5 && s[1] == 1 && TooShort(s))
  {
  }

  /** The octets of a request for a name of one letter. */
  lemma NameOnTheWire(c: byte)
    ensures Encode(Name([c]), 443) == Some([5, 1, 0, 3, 1, c, 1, 187])
  {
    assert PortBytes(443) == [1, 187];
    assert AddressBytes(Name([c])) == [3, 1, c];
    var o: Octets := [5, 1, 0, 3, 1, c, 1, 187];
    assert [VERSION, CONNECT, 0] + AddressBytes(Name([c])) + PortBytes(443) == o;
  }

  /** A connection that is read from the front. */
  class Reader {
    var buffer: Octets

    constructor (s: Octets)
      ensures buffer == s
    {
      buffer := s;
    }

    /** All n octets, or nothing once the stream has ended. */
    method ReadFull(n: nat) returns (r: Option<Octets>)
      modifies this
      ensures n <= |old(buffer)| ==> r == Some(old(buffer)[..n]) && buffer == old(buffer)[n..]
      ensures n > |old(buffer)| ==> r == None
    {
      if n > |buffer| { return None; }
      r := Some(buffer[..n]);
      buffer := buffer[n..];
    }

    method ReadRequest() returns (r: Request)
      modifies this
      ensures r == Decode(old(buffer))
      ensures r.Connect? ==> buffer == r.rest
    {
      var request := ReadFull(4);
      if request.None? { return Truncated; }
      if request.value[0] != VERSION || request.value[1] != CONNECT { return BadCommand; }
      var kind := request.value[3];
      var n: nat := 0;
      if kind == IPV4 {
        n := 4;
      } else if kind == DOMAIN {
        var ln := ReadFull(1);
        if ln.None? { return Truncated; }
        n := ln.value[0];
      } else if kind == IPV6 {
        n := 16;
      } else {
        return BadType;
      }
      ghost var h := if kind == DOMAIN then 5 else 4;
      assert buffer == old(buffer)[h..];
      var x := ReadFull(n);
      if x.None? { return Truncated; }
      assert x.value == old(buffer)[h..h + n] && buffer == old(buffer)[h + n..];
      var port := ReadFull(2);
      if port.None? { return Truncated; }
      assert buffer == old(buffer)[h + n + 2..];
      var addr := if kind == IPV4 then V4(x.value) else if kind == DOMAIN then Name(x.value) else V6(x.value);
      return Connect(addr, Be16(port.value[0], port.value[1]), buffer);
    }
  }

  lemma TailReads(s: Octets, head: Octets, x: Octets, port: int, rest: Octets, kind: byte)
    requires s == head + x + PortBytes(port) + rest
    ensures Tail(s, |head|, |x|, kind) ==
      Connect(if kind == IPV4 then V4(x) else if kind == DOMAIN then Name(x) else V6(x), port % 0x1_0000, rest)
  {
    var h, n := |head|, |x|;
    assert s[h..h + n] == x;
    assert s[h + n] == PortBytes(port)[0] && s[h + n + 1] == PortBytes(port)[1];
    assert s[h + n + 2..] == rest;
  }

  /** Reading back what was written gives the address, the low 16 bits of the port, and leaves the rest alone. */
  lemma DecodeInvertsEncode(a: Address, port: int, rest: Octets)
    requires Sized(a) && Encode(a, port).Some?
    ensures Decode(Encode(a, port).value + rest) == Connect(a, port % 0x1_0000, rest)
  {
    var s := Encode(a, port).value + rest;
    var head := [VERSION, CONNECT, 0] + match a case V4(_) => [IPV4] case Name(n) => [DOMAIN, |n|] case V6(_) => [IPV6];
    var x := match a case V4(ip) => ip case Name(n) => n case V6(ip) => ip;
    assert s == head + x + PortBytes(port) + rest;
    assert s[0] == head[0] && s[1] == head[1] && s[3] == head[3];
    TailReads(s, head, x, port, rest, head[3]);
  }

  /** What a successful Tail has read. */
  lemma TailParts(s: Octets, h: nat, n: nat)
    requires 3 <= h && h + n + 2 <= |s|
    ensures s[2 := 0] == s[..h][2 := 0] + s[h..h + n] + PortBytes(Be16(s[h + n], s[h + n + 1])) + s[h + n + 2..]
  {
    PortRoundTrip(s[h + n], s[h + n + 1]);
  }

  lemma HeadParts(s: Octets)
    requires |s| >= 4 && s[0] == VERSION && s[1] == CONNECT
    ensures s[..4][2 := 0] == [VERSION, CONNECT, 0] + [s[3]]
    ensures |s| >= 5 ==> s[..5][2 := 0] == [VERSION, CONNECT, 0] + [s[3], s[4]]
  {
  }

  /** Every request that is understood is one that Encode writes, but for the reserved octet, which is not looked at. */
  lemma EncodeInvertsDecode(s: Octets)
    requires Decode(s).Connect?
    ensures var r := Decode(s);
      && Sized(r.addr) && Encode(r.addr, r.port).Some?
      && s[2 := 0] == Encode(r.addr, r.port).value + r.rest
  {
    var r := Decode(s);
    HeadParts(s);
    var h := if s[3] == DOMAIN then 5 else 4;
    var n := if s[3] == IPV4 then 4 else if s[3] == DOMAIN then s[4] else 16;
    TailParts(s, h, n);
    var x := s[h..h + n];
    assert |x| == n;
    Regroup([VERSION, CONNECT, 0], if s[3] == DOMAIN then [s[3], s[4]] else [s[3]], x);
  }

  lemma Regroup(a: Octets, b: Octets, c: Octets)
    ensures (a + b) + c == a + (b + c)
  {
  }

  lemma PortRoundTrip(hi: byte, lo: byte)
    ensures PortBytes(Be16(hi, lo)) == [hi, lo]
  {
  }
}
