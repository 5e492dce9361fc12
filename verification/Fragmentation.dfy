// proxy/tls_fragment.go: cutting one ClientHello into several TLS records around its server name.
module Fragmentation {
  import opened Bytes

  const DOT: byte := 46
  const NUM_RECORDS: nat := 4
  const NUM_SEGMENTS: int := 1

  // ---------------------------------------------------------------------------
  // Where to cut
  // ---------------------------------------------------------------------------

  predicate DotIn(d: Octets, lo: nat, hi: int)
    requires hi < |d|
  {
    exists j :: lo <= j <= hi && d[j] == DOT
  }

  /** The last dot of d[pos..pos + len], the byte after the name included, or the middle of the name. */
  function Cut(d: Octets, pos: nat, len: nat): (c: nat)
    requires pos + len < |d|
    ensures pos <= c <= pos + len
    ensures DotIn(d, pos, pos + len) ==> d[c] == DOT && !DotIn(d, c + 1, pos + len)
    ensures !DotIn(d, pos, pos + len) ==> c == pos + len / 2
  {
    CutFrom(d, pos, len, pos + len)
  }

  function CutFrom(d: Octets, pos: nat, len: nat, i: int): (c: nat)
    requires pos - 1 <= i <= pos + len < |d| && !DotIn(d, i + 1, pos + len)
    ensures pos <= c <= pos + len
    ensures DotIn(d, pos, pos + len) ==> d[c] == DOT && !DotIn(d, c + 1, pos + len)
    ensures !DotIn(d, pos, pos + len) ==> c == pos + len / 2
    decreases i + 1
  {
    if i < pos then pos + len / 2 else if d[i] == DOT then i else CutFrom(d, pos, len, i - 1)
  }

  method FindLastDot(data: array<byte>, pos: nat, len: nat) returns (offset: nat, found: bool)
    requires pos + len < data.Length
    ensures offset == Cut(data[..], pos, len)
    ensures found == DotIn(data[..], pos, pos + len)
  {
    var i: int := pos + len;
    while i >= pos
      invariant pos - 1 <= i <= pos + len
      invariant !DotIn(data[..], i + 1, pos + len)
      invariant Cut(data[..], pos, len) == CutFrom(data[..], pos, len, i)
    {
      if data[i] == DOT {
        assert data[..][i] == DOT;
        return i, true;
      }
      i := i - 1;
    }
    return len / 2 + pos, false;
  }

  /** The cut falls strictly inside the name exactly when the name has an inner dot to cut at, or no dot near it. */
  lemma CutInsideIff(d: Octets, pos: nat, len: nat)
    requires pos + len < |d|
    ensures pos < Cut(d, pos, len) < pos + len <==>
      && d[pos + len] != DOT
      && (DotIn(d, pos + 1, pos + len - 1) || (!DotIn(d, pos, pos + len - 1) && len >= 2))
  {
  }

  // ---------------------------------------------------------------------------
  // Cutting and wrapping
  // ---------------------------------------------------------------------------

  /** n pieces of `base` bytes fit into `size`. */
  predicate Fits(base: nat, n: nat, size: nat) {
    base * n <= size
  }

  /** `n` pieces of `base` bytes each, the last one taking what is left. */
  function CutEvery(data: Octets, base: nat, n: nat): seq<Octets>
    requires n >= 1 && Fits(base, n, |data|)
    decreases n
  {
    FitsStep(base, n, |data|);
    if n == 1 then [data] else
    [data[..base]] + CutEvery(data[base..], base, n - 1)
  }

  lemma FitsStep(base: nat, n: nat, size: nat)
    requires n >= 1 && Fits(base, n, size)
    ensures base <= size && Fits(base, n - 1, size - base)
  {
    assert base * n == base + base * (n - 1);
    assert base * (n - 1) >= 0;
  }

  lemma BaseFits(size: nat, n: nat)
    requires n >= 1
    ensures size / n >= 0 && Fits(size / n, n, size)
    ensures size >= n ==> size / n >= 1
  {
  }

  lemma {:induction false} CutEveryWhole(data: Octets, base: nat, n: nat)
    requires n >= 1 && Fits(base, n, |data|)
    ensures Flatten(CutEvery(data, base, n)) == data
    ensures |CutEvery(data, base, n)| == n
    ensures base >= 1 ==> forall p <- CutEvery(data, base, n) :: p != []
    decreases n
  {
    hide Fits;
    FitsStep(base, n, |data|);
    if n == 1 {
      assert Flatten([data]) == data + Flatten([]);
    } else {
      CutEveryWhole(data[base..], base, n - 1);
      ConsWhole(data, base, CutEvery(data[base..], base, n - 1));
    }
  }

  lemma ConsWhole(data: Octets, base: nat, rest: seq<Octets>)
    requires base <= |data| && Flatten(rest) == data[base..]
    ensures Flatten([data[..base]] + rest) == data
    ensures base >= 1 && (forall p <- rest :: p != []) ==> forall p <- [data[..base]] + rest :: p != []
  {
    var all := [data[..base]] + rest;
    assert all[1..] == rest;
    assert data[..base] + data[base..] == data;
  }

  function Parts(data: Octets, n: nat): seq<Octets> {
    if n == 0 then [] else
    if n == 1 || |data| < n then [data] else
    BaseFits(|data|, n);
    CutEvery(data, |data| / n, n)
  }

  lemma {:induction false} PartsWhole(data: Octets, n: nat)
    requires n >= 1
    ensures Flatten(Parts(data, n)) == data
    ensures |Parts(data, n)| == if |data| < n then 1 else n
    ensures data != [] ==> forall p <- Parts(data, n) :: p != []
  {
    if n == 1 || |data| < n {
      assert Flatten([data]) == data + Flatten([]);
    } else {
      BaseFits(|data|, n);
      CutEveryWhole(data, |data| / n, n);
    }
  }

  /** A record with the given type and version; the length field keeps only 16 bits. */
  function MakeRecord(header: Octets, payload: Octets): Octets
    requires |header| == 3
  {
    header + U16(|payload| % 0x1_0000) + payload
  }

  function MakeRecords(header: Octets, payloads: seq<Octets>): (r: seq<Octets>)
    requires |header| == 3
    ensures |r| == |payloads|
    ensures forall i :: 0 <= i < |r| ==> r[i] == MakeRecord(header, payloads[i])
  {
    seq(|payloads|, i requires 0 <= i < |payloads| => MakeRecord(header, payloads[i]))
  }

  lemma MakeRecordsAppend(header: Octets, a: seq<Octets>, b: seq<Octets>)
    requires |header| == 3
    ensures MakeRecords(header, a + b) == MakeRecords(header, a) + MakeRecords(header, b)
  {
    var x, y, z := MakeRecords(header, a + b), MakeRecords(header, a), MakeRecords(header, b);
    assert |x| == |y + z|;
    forall i | 0 <= i < |x| ensures x[i] == (y + z)[i] {
      assert (a + b)[i] == if i < |a| then a[i] else b[i - |a|];
    }
  }

  lemma AppendRecord(before: seq<Octets>, header: Octets, done: seq<Octets>, p: Octets)
    requires |header| == 3
    ensures before + MakeRecords(header, done) + [MakeRecord(header, p)] == before + MakeRecords(header, done + [p])
  {
    MakeRecordsAppend(header, done, [p]);
    assert MakeRecords(header, [p]) == [MakeRecord(header, p)];
  }

  /** One step of cutting at multiples of base. */
  lemma CutStep(data: Octets, base: nat, n: nat, at: nat)
    requires n >= 2 && at <= |data| && Fits(base, n, |data| - at)
    ensures at + base <= |data| && Fits(base, n - 1, |data| - (at + base))
    ensures CutEvery(data[at..], base, n) == [data[at..at + base]] + CutEvery(data[at + base..], base, n - 1)
  {
    hide Fits;
    FitsStep(base, n, |data| - at);
    assert data[at..][..base] == data[at..at + base];
    assert data[at..][base..] == data[at + base..];
  }

  lemma NextMultiple(i: nat, base: nat)
    ensures (i + 1) * base == i * base + base && i * base >= 0
  {
  }

  method SplitAndAppend(data: Octets, header: Octets, n: nat, before: seq<Octets>) returns (result: seq<Octets>)
    requires |header| == 3
    ensures result == before + MakeRecords(header, Parts(data, n))
  {
    result := before;
    if n <= 0 { return; }
    var parts := [data];
    if n > 1 && |data| >= n {
      BaseFits(|data|, n);
      parts := CutAtMultiples(data, |data| / n, n);
    }
    result := AppendRecords(parts, header, before);
  }

  method AppendRecords(parts: seq<Octets>, header: Octets, before: seq<Octets>) returns (result: seq<Octets>)
    requires |header| == 3
    ensures result == before + MakeRecords(header, parts)
  {
    result := before;
    ghost var done: seq<Octets> := [];
    for i := 0 to |parts|
      invariant done == parts[..i]
      invariant result == before + MakeRecords(header, done)
    {
      AppendRecord(before, header, done, parts[i]);
      done := done + [parts[i]];
      result := result + [MakeRecord(header, parts[i])];
    }
  }

  /** data[0..base], data[base..2 * base], ..., and the rest. */
  method CutAtMultiples(data: Octets, base: nat, n: nat) returns (pieces: seq<Octets>)
    requires n >= 1 && Fits(base, n, |data|)
    ensures pieces == CutEvery(data, base, n)
  {
    hide Fits;
    pieces := [];
    var i := 0;
    assert data[0 * base..] == data;
    while i < n - 1
      invariant 0 <= i <= n - 1 && 0 <= i * base <= |data|
      invariant Fits(base, n - i, |data| - i * base)
      invariant CutEvery(data, base, n) == pieces + CutEvery(data[i * base..], base, n - i)
    {
      CutStep(data, base, n - i, i * base);
      NextMultiple(i, base);
      pieces := pieces + [data[i * base..(i + 1) * base]];
      i := i + 1;
    }
    pieces := pieces + [data[i * base..]];
  }

  // ---------------------------------------------------------------------------
  // Sending
  // ---------------------------------------------------------------------------

  function Stamp(d: Octets, modMinorVer: bool): (r: Octets)
    ensures |r| == |d| && (|d| >= 3 ==> r[3..] == d[3..])
  {
    if modMinorVer && |d| >= 3 then d[2 := 4] else d
  }

  /** The payloads of the records, left of the cut and then right of it. */
  function Payloads(d: Octets, pos: nat, len: nat, records: nat): seq<Octets>
    requires 5 <= pos && pos + len < |d|
  {
    Parts(d[5..Cut(d, pos, len)], records / 2) + Parts(d[Cut(d, pos, len)..], records - records / 2)
  }

  function Segments(merged: Octets, segments: nat): seq<Octets>
    requires segments >= 1
  {
    if segments == 1 || |merged| <= segments then [merged] else
    BaseFits(|merged|, segments);
    CutEvery(merged, |merged| / segments, segments)
  }

  /** What is written to the connection: one packet a record when segments is -1, else the records in segments. */
  function Packets(d: Octets, pos: nat, len: nat, records: nat, segments: int): seq<Octets>
    requires 5 <= pos && pos + len < |d|
    requires segments == -1 || segments >= 1
  {
    var chunks := MakeRecords(d[..3], Payloads(d, pos, len, records));
    if segments == -1 then chunks else Segments(Flatten(chunks), segments)
  }

  method SendRecords(clientHello: array<byte>, pos: nat, len: nat, records: nat, segments: int, modMinorVer: bool)
    returns (packets: seq<Octets>)
    requires 5 <= pos && pos + len < clientHello.Length
    requires records >= 2 && (segments == -1 || segments >= 1)
    modifies clientHello
    ensures clientHello[..] == Stamp(old(clientHello[..]), modMinorVer)
    ensures clientHello[..] == if modMinorVer then old(clientHello[..])[2 := 4] else old(clientHello[..])
    ensures segments > 0 ==> |packets| == 1 || |packets| == segments
    ensures packets == Packets(clientHello[..], pos, len, records, segments)
  {
    hide Cut, Parts, MakeRecords, Flatten, Segments;
    if modMinorVer && clientHello.Length >= 3 {
      clientHello[2] := 4;
    }
    var leftChunks := records / 2;
    var rightChunks := records - leftChunks;
    var cut, _ := FindLastDot(clientHello, pos, len);
    var header := clientHello[..3];
    ghost var d := clientHello[..];
    assert clientHello[5..cut] == d[5..cut] && clientHello[cut..] == d[cut..] && header == d[..3];
    var chunks := WrapHalves(clientHello[5..cut], clientHello[cut..], header, leftChunks, rightChunks);
    if segments == -1 {
      return chunks;
    }
    var merged := Merge(chunks);
    packets := WriteSegments(merged, segments);
  }

  method WrapHalves(left: Octets, right: Octets, header: Octets, leftChunks: nat, rightChunks: nat)
    returns (chunks: seq<Octets>)
    requires |header| == 3
    ensures chunks == MakeRecords(header, Parts(left, leftChunks) + Parts(right, rightChunks))
  {
    chunks := SplitAndAppend(left, header, leftChunks, []);
    chunks := SplitAndAppend(right, header, rightChunks, chunks);
    MakeRecordsAppend(header, Parts(left, leftChunks), Parts(right, rightChunks));
  }

  method Merge(chunks: seq<Octets>) returns (merged: Octets)
    ensures merged == Flatten(chunks)
  {
    merged := [];
    for i := 0 to |chunks|
      invariant merged == Flatten(chunks[..i])
    {
      FlattenAppend(chunks[..i], [chunks[i]]);
      assert chunks[..i + 1] == chunks[..i] + [chunks[i]];
      assert Flatten([chunks[i]]) == chunks[i] + Flatten([]);
      merged := merged + chunks[i];
    }
    assert chunks[..|chunks|] == chunks;
  }

  method WriteSegments(merged: Octets, segments: nat) returns (packets: seq<Octets>)
    requires segments >= 1
    ensures packets == Segments(merged, segments)
    ensures |packets| == if |merged| <= segments then 1 else segments
  {
    if segments == 1 || |merged| <= segments {
      return [merged];
    }
    BaseFits(|merged|, segments);
    packets := CutAtMultiples(merged, |merged| / segments, segments);
    CutEveryWhole(merged, |merged| / segments, segments);
  }
}
