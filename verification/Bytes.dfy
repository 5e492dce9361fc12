// Octets and the big-endian integers that TLS and SOCKS5 put on the wire.
module Bytes {

  type byte = x: int | 0 <= x < 256

  type Octets = seq<byte>

  /** The 16-bit big-endian number held in two octets. */
  function Be16(hi: byte, lo: byte): (n: nat)
    ensures n < 0x1_0000
  {
    hi * 256 + lo
  }

  function Be24(a: byte, b: byte, c: byte): (n: nat)
    ensures n < 0x100_0000
  {
    a * 0x1_0000 + b * 256 + c
  }

  function U16(n: nat): (b: Octets)
    requires n < 0x1_0000
    ensures |b| == 2 && Be16(b[0], b[1]) == n
  {
    [n / 256, n % 256]
  }

  function U24(n: nat): (b: Octets)
    requires n < 0x100_0000
    ensures |b| == 3 && Be24(b[0], b[1], b[2]) == n
  {
    [n / 0x1_0000, n / 256 % 256, n % 256]
  }

  lemma BigEndianRoundTrip(hi: byte, lo: byte)
    ensures U16(Be16(hi, lo)) == [hi, lo]
  {
  }

  /** All the packets of a connection, back to back. */
  function Flatten(packets: seq<Octets>): Octets {
    if packets == [] then [] else packets[0] + Flatten(packets[1..])
  }

  lemma {:induction false} FlattenAppend(a: seq<Octets>, b: seq<Octets>)
    ensures Flatten(a + b) == Flatten(a) + Flatten(b)
  {
    if a == [] {
      assert a + b == b;
    } else {
      FlattenAppend(a[1..], b);
      assert (a + b)[1..] == a[1..] + b;
      assert a[0] + (Flatten(a[1..]) + Flatten(b)) == a[0] + Flatten(a[1..]) + Flatten(b);
    }
  }

  /** `piece` lies in `d` at offset `off`. */
  predicate At(d: Octets, off: nat, piece: Octets) {
    off + |piece| <= |d| && d[off..off + |piece|] == piece
  }

  lemma AtIndex(d: Octets, off: nat, piece: Octets, i: nat)
    requires At(d, off, piece) && i < |piece|
    ensures off + i < |d| && d[off + i] == piece[i]
  {
    assert d[off..off + |piece|][i] == d[off + i];
  }

  /** Two consecutive pieces, taken apart. */
  lemma AtSplit(d: Octets, off: nat, a: Octets, b: Octets)
    requires At(d, off, a + b)
    ensures At(d, off, a) && At(d, off + |a|, b)
  {
    var x := d[off..off + |a + b|];
    assert d[off..off + |a|] == x[..|a|];
    assert d[off + |a|..off + |a| + |b|] == x[|a|..];
  }

  lemma AtU16(d: Octets, off: nat, n: nat)
    requires n < 0x1_0000 && At(d, off, U16(n))
    ensures off + 2 <= |d| && Be16(d[off], d[off + 1]) == n
  {
    AtIndex(d, off, U16(n), 0);
    AtIndex(d, off, U16(n), 1);
  }

  lemma AtU24(d: Octets, off: nat, n: nat)
    requires n < 0x100_0000 && At(d, off, U24(n))
    ensures off + 3 <= |d| && Be24(d[off], d[off + 1], d[off + 2]) == n
  {
    AtIndex(d, off, U24(n), 0);
    AtIndex(d, off, U24(n), 1);
    AtIndex(d, off, U24(n), 2);
  }
}
