// What the fragmented ClientHello means to the peer, and proxy/tls_fragment.go's handleTLSFragment.
module TlsRf {
  import opened Options
  import opened Bytes
  import opened Fragmentation
  import C = ClientHello

  // ---------------------------------------------------------------------------
  // A record layer reader (section 5.1 of RFC 8446)
  // ---------------------------------------------------------------------------

  datatype Rec = Rec(header: Octets, payload: Octets)

  /** The records of a byte stream, or None when it ends inside a record. */
  function ReadRecords(s: Octets): Option<seq<Rec>>
    decreases |s|
  {
    if s == [] then Some([]) else
    if |s| < 5 then None else
    var n := Be16(s[3], s[4]);
    if |s| < 5 + n then None else
    match ReadRecords(s[5 + n..])
    case None => None
    case Some(rest) => Some([Rec(s[..3], s[5..5 + n])] + rest)
  }

  function Recs(header: Octets, payloads: seq<Octets>): (r: seq<Rec>)
    ensures |r| == |payloads|
  {
    seq(|payloads|, i requires 0 <= i < |payloads| => Rec(header, payloads[i]))
  }

  lemma ReadOne(header: Octets, p: Octets, rest: Octets)
    requires |header| == 3 && |p| < 0x1_0000
    ensures ReadRecords(MakeRecord(header, p) + rest) ==
      match ReadRecords(rest)
      case None => None
      case Some(rs) => Some([Rec(header, p)] + rs)
  {
    hide Be16, U16, ReadRecords;
    var s := MakeRecord(header, p) + rest;
    Low16(|p|);
    RecordParts(header, p, rest, s);
    FirstRecord(s, |p|);
  }

  lemma RecordParts(header: Octets, p: Octets, rest: Octets, s: Octets)
    requires |header| == 3 && |p| < 0x1_0000 && s == header + U16(|p|) + p + rest
    ensures |s| == 5 + |p| + |rest| && Be16(s[3], s[4]) == |p|
    ensures s[..3] == header && s[5..5 + |p|] == p && s[5 + |p|..] == rest
  {
    assert s[0..0 + |s|] == s;
    AtSplit(s, 0, header + U16(|p|) + p, rest);
    AtSplit(s, 0, header + U16(|p|), p);
    AtSplit(s, 0, header, U16(|p|));
    AtU16(s, 3, |p|);
  }

  lemma FirstRecord(s: Octets, n: nat)
    requires |s| >= 5 + n && Be16(s[3], s[4]) == n
    ensures ReadRecords(s) ==
      match ReadRecords(s[5 + n..])
      case None => None
      case Some(rs) => Some([Rec(s[..3], s[5..5 + n])] + rs)
  {
    hide Be16;
  }

  /** A reader recovers exactly the payloads that were wrapped, provided none needs more than 16 bits. */
  lemma {:induction false} ReaderRecovers(header: Octets, payloads: seq<Octets>)
    requires |header| == 3 && forall p <- payloads :: |p| < 0x1_0000
    ensures ReadRecords(Flatten(MakeRecords(header, payloads))) == Some(Recs(header, payloads))
    decreases |payloads|
  {
    hide MakeRecord;
    var chunks := MakeRecords(header, payloads);
    if payloads != [] {
      assert chunks[1..] == MakeRecords(header, payloads[1..]);
      assert payloads[0] in payloads;
      ReaderRecovers(header, payloads[1..]);
      ReadOne(header, payloads[0], Flatten(chunks[1..]));
      assert Recs(header, payloads) == [Rec(header, payloads[0])] + Recs(header, payloads[1..]);
    }
  }

  lemma {:induction false} PieceFits(pieces: seq<Octets>, k: nat)
    requires k < |pieces|
    ensures |Flatten(pieces[..k])| + |pieces[k]| <= |Flatten(pieces)|
    ensures var a := |Flatten(pieces[..k])|; Flatten(pieces)[a..a + |pieces[k]|] == pieces[k]
  {
    FlattenAppend(pieces[..k], pieces[k..]);
    assert pieces == pieces[..k] + pieces[k..];
    assert Flatten(pieces[k..]) == pieces[k] + Flatten(pieces[k..][1..]);
  }

  // ---------------------------------------------------------------------------
  // Fragmentation preserves the handshake
  // ---------------------------------------------------------------------------

  lemma PayloadsWhole(d: Octets, pos: nat, len: nat, records: nat)
    requires 5 < pos && pos + len < |d| && records >= 2
    ensures var ps := Payloads(d, pos, len, records);
      && Flatten(ps) == d[5..]
      && 2 <= |ps| <= records
      && forall p <- ps :: p != [] && |p| <= |d| - 5
  {
    hide Cut, Parts, Flatten;
    var cut := Cut(d, pos, len);
    var l, r := Parts(d[5..cut], records / 2), Parts(d[cut..], records - records / 2);
    PartsWhole(d[5..cut], records / 2);
    PartsWhole(d[cut..], records - records / 2);
    FlattenAppend(l, r);
    assert d[5..cut] + d[cut..] == d[5..];
    var ps := l + r;
    forall p | p in ps ensures p != [] && |p| <= |d| - 5 {
      var k :| 0 <= k < |ps| && ps[k] == p;
      PieceFits(ps, k);
    }
  }

  lemma SegmentsWhole(merged: Octets, segments: nat)
    requires segments >= 1
    ensures Flatten(Segments(merged, segments)) == merged
  {
    if segments == 1 || |merged| <= segments {
      assert Flatten([merged]) == merged + Flatten([]);
    } else {
      BaseFits(|merged|, segments);
      CutEveryWhole(merged, |merged| / segments, segments);
    }
  }

  /**
   * A record reader run over everything written recovers, in order, the bytes after the original record header:
   * no length field is truncated, no fragment is empty, and there are at least two and at most `records` of them.
   */
  lemma FragmentationPreservesHandshake(d: Octets, pos: nat, len: nat, records: nat, segments: int)
    requires 5 < pos && pos + len < |d| <= 5 + 0xFFFF
    requires records >= 2 && (segments == -1 || segments >= 1)
    ensures var ps := Payloads(d, pos, len, records);
      && ReadRecords(Flatten(Packets(d, pos, len, records, segments))) == Some(Recs(d[..3], ps))
      && Flatten(ps) == d[5..]
      && 2 <= |ps| <= records
      && forall p <- ps :: 0 < |p| <= 0xFFFF
  {
    var ps := Payloads(d, pos, len, records);
    PayloadsWhole(d, pos, len, records);
    ReaderRecovers(d[..3], ps);
    if segments != -1 {
      SegmentsWhole(Flatten(MakeRecords(d[..3], ps)), segments);
    }
  }

  /** Where the payload of record k starts in the original bytes. */
  function PayloadStart(d: Octets, pos: nat, len: nat, records: nat, k: nat): nat
    requires 5 < pos && pos + len < |d| && k < |Payloads(d, pos, len, records)|
  {
    5 + |Flatten(Payloads(d, pos, len, records)[..k])|
  }

  /** Record k carries a stretch of the original bytes. */
  lemma PayloadPosition(d: Octets, pos: nat, len: nat, records: nat, k: nat)
    requires 5 < pos && pos + len < |d| && records >= 2 && k < |Payloads(d, pos, len, records)|
    ensures var p := Payloads(d, pos, len, records)[k];
      var a := PayloadStart(d, pos, len, records, k);
      a + |p| <= |d| && d[a..a + |p|] == p
  {
    hide Payloads, Flatten;
    PayloadsWhole(d, pos, len, records);
    PiecePosition(d, Payloads(d, pos, len, records), k);
  }

  lemma PiecePosition(d: Octets, pieces: seq<Octets>, k: nat)
    requires |d| >= 5 && k < |pieces| && Flatten(pieces) == d[5..]
    ensures var a := 5 + |Flatten(pieces[..k])|;
      a + |pieces[k]| <= |d| && d[a..a + |pieces[k]|] == pieces[k]
  {
    PieceFits(pieces, k);
    var a := |Flatten(pieces[..k])|;
    assert d[5..][a..a + |pieces[k]|] == d[5 + a..5 + a + |pieces[k]|];
  }

  /** Two lists of pieces, one after the other: every piece lies on one side of the seam. */
  lemma PieceOfTwo(l: seq<Octets>, r: seq<Octets>, k: nat)
    requires k < |l + r|
    ensures var a := |Flatten((l + r)[..k])|;
      a + |(l + r)[k]| <= |Flatten(l)| || |Flatten(l)| <= a
  {
    if k < |l| {
      assert (l + r)[..k] == l[..k];
      PieceFits(l, k);
    } else {
      assert (l + r)[..k] == l + r[..k - |l|];
      FlattenAppend(l, r[..k - |l|]);
    }
  }

  /** When the cut is strictly inside the name, no record carries the whole name. */
  lemma SniStraddlesRecords(d: Octets, pos: nat, len: nat, records: nat, k: nat)
    requires 5 < pos && pos + len < |d| && records >= 2 && k < |Payloads(d, pos, len, records)|
    requires pos < Cut(d, pos, len) < pos + len
    ensures var a := PayloadStart(d, pos, len, records, k);
      !(a <= pos && pos + len <= a + |Payloads(d, pos, len, records)[k]|)
  {
    var cut := Cut(d, pos, len);
    var l, r := Parts(d[5..cut], records / 2), Parts(d[cut..], records - records / 2);
    PartsWhole(d[5..cut], records / 2);
    PieceOfTwo(l, r, k);
  }

  // ---------------------------------------------------------------------------
  // Exactly when one record holds the whole name
  // ---------------------------------------------------------------------------

  /** Where piece k starts in the pieces put together. */
  function StartOf(pieces: seq<Octets>, k: nat): nat
    requires k <= |pieces|
  {
    |Flatten(pieces[..k])|
  }

  lemma StartStep(pieces: seq<Octets>, k: nat)
    requires k < |pieces|
    ensures StartOf(pieces, k + 1) == StartOf(pieces, k) + |pieces[k]|
  {
    assert pieces[..k + 1] == pieces[..k] + [pieces[k]];
    FlattenAppend(pieces[..k], [pieces[k]]);
    assert Flatten([pieces[k]]) == pieces[k] + Flatten([]);
  }

  lemma {:induction false} StartsAscend(pieces: seq<Octets>, j: nat, k: nat)
    requires j <= k <= |pieces|
    ensures StartOf(pieces, j) <= StartOf(pieces, k)
    decreases k
  {
    if j < k {
      StartsAscend(pieces, j, k - 1);
      StartStep(pieces, k - 1);
    }
  }

  /** Piece k covers the stretch from x to y. */
  predicate Covers(pieces: seq<Octets>, k: nat, x: nat, y: nat) {
    k < |pieces| && StartOf(pieces, k) <= x && y <= StartOf(pieces, k) + |pieces[k]|
  }

  /** Some piece but the first starts at b. */
  predicate StartsAt(pieces: seq<Octets>, b: nat) {
    exists k :: 1 <= k < |pieces| && StartOf(pieces, k) == b
  }

  /** A stretch is covered by one piece exactly when no piece starts strictly inside it. */
  lemma CoveredIff(pieces: seq<Octets>, x: nat, y: nat)
    requires pieces != [] && x <= y <= |Flatten(pieces)|
    ensures (exists k: nat :: Covers(pieces, k, x, y)) <==> forall b: nat :: x < b < y ==> !StartsAt(pieces, b)
  {
    hide Flatten;
    if k: nat :| Covers(pieces, k, x, y) {
      forall b: nat | x < b < y ensures !StartsAt(pieces, b) {
        NotInside(pieces, k, x, y, b);
      }
    }
    if forall b: nat :: x < b < y ==> !StartsAt(pieces, b) {
      var k := Covering(pieces, x, y);
    }
  }

  lemma NotInside(pieces: seq<Octets>, k: nat, x: nat, y: nat, b: nat)
    requires Covers(pieces, k, x, y) && x < b < y
    ensures !StartsAt(pieces, b)
  {
    hide StartOf;
    StartStep(pieces, k);
    forall j | 1 <= j < |pieces| ensures StartOf(pieces, j) != b {
      if j <= k {
        StartsAscend(pieces, j, k);
      } else {
        StartsAscend(pieces, k + 1, j);
      }
    }
  }

  lemma Covering(pieces: seq<Octets>, x: nat, y: nat) returns (k: nat)
    requires pieces != [] && x <= y <= |Flatten(pieces)|
    requires forall b: nat :: x < b < y ==> !StartsAt(pieces, b)
    ensures Covers(pieces, k, x, y)
  {
    assert pieces[..|pieces|] == pieces && pieces[..0] == [];
    assert StartOf(pieces, |pieces|) == |Flatten(pieces)| && StartOf(pieces, 0) == 0;
    hide Flatten, StartOf;
    k := 0;
    while k + 1 < |pieces| && StartOf(pieces, k + 1) <= x
      invariant k < |pieces| && StartOf(pieces, k) <= x
      decreases |pieces| - k
    {
      k := k + 1;
    }
    StartStep(pieces, k);
    assert k + 1 < |pieces| ==> StartsAt(pieces, StartOf(pieces, k + 1));
  }

  function Times(i: nat, base: nat): nat {
    i * base
  }

  /** The seams inside n parts of `size` bytes: the multiples of the base, or none when there is one part only. */
  predicate Seam(size: nat, n: nat, b: nat) {
    n > 1 && size >= n && exists i :: 1 <= i < n && b == Times(i, size / n)
  }

  lemma {:induction false} CutEveryStarts(data: Octets, base: nat, n: nat, k: nat)
    requires n >= 1 && Fits(base, n, |data|) && k < n
    ensures |CutEvery(data, base, n)| == n && StartOf(CutEvery(data, base, n), k) == Times(k, base)
    decreases n
  {
    hide Fits;
    CutEveryWhole(data, base, n);
    var pieces := CutEvery(data, base, n);
    if k == 0 {
      assert pieces[..0] == [];
    } else {
      FitsStep(base, n, |data|);
      CutEveryStarts(data[base..], base, n - 1, k - 1);
      var rest := CutEvery(data[base..], base, n - 1);
      ConsStart(data[..base], rest, k);
      NextMultiple(k - 1, base);
    }
  }

  lemma ConsStart(p: Octets, rest: seq<Octets>, k: nat)
    requires 1 <= k <= |rest| + 1
    ensures StartOf([p] + rest, k) == |p| + StartOf(rest, k - 1)
  {
    assert ([p] + rest)[..k] == [p] + rest[..k - 1];
    FlattenAppend([p], rest[..k - 1]);
    assert Flatten([p]) == p + Flatten([]);
  }

  lemma PartsStartsIff(data: Octets, n: nat, b: nat)
    requires n >= 1
    ensures StartsAt(Parts(data, n), b) <==> Seam(|data|, n, b)
  {
    if n > 1 && |data| >= n {
      hide StartOf, Times, Fits;
      var base := |data| / n;
      BaseFits(|data|, n);
      CutEveryWhole(data, base, n);
      forall k | 1 <= k < n ensures StartOf(Parts(data, n), k) == Times(k, base) {
        CutEveryStarts(data, base, n, k);
      }
    }
  }

  lemma StartInTwo(l: seq<Octets>, r: seq<Octets>, k: nat)
    requires k <= |l| + |r|
    ensures StartOf(l + r, k) == if k <= |l| then StartOf(l, k) else |Flatten(l)| + StartOf(r, k - |l|)
  {
    if k <= |l| {
      assert (l + r)[..k] == l[..k];
    } else {
      assert (l + r)[..k] == l + r[..k - |l|];
      FlattenAppend(l, r[..k - |l|]);
    }
  }

  /** The pieces of two lists start where those of the first do, at the seam, and where those of the second do. */
  lemma TwoStartsIff(l: seq<Octets>, r: seq<Octets>, b: nat)
    requires l != [] && r != []
    ensures StartsAt(l + r, b) <==>
      StartsAt(l, b) || b == |Flatten(l)| || (b >= |Flatten(l)| && StartsAt(r, b - |Flatten(l)|))
  {
    assert l[..|l|] == l;
    hide Flatten;
    forall k | 1 <= k < |l + r|
      ensures StartOf(l + r, k) == if k <= |l| then StartOf(l, k) else |Flatten(l)| + StartOf(r, k - |l|)
    {
      StartInTwo(l, r, k);
    }
    assert StartOf(l + r, |l|) == |Flatten(l)|;
    hide StartOf;
    if k :| 1 <= k < |l| && StartOf(l, k) == b {
      assert StartOf(l + r, k) == b;
    }
    if b >= |Flatten(l)| {
      if k :| 1 <= k < |r| && StartOf(r, k) == b - |Flatten(l)| {
        assert StartOf(l + r, |l| + k) == b;
      }
    }
  }

  /** The offsets at which one record ends and the next begins, in the original bytes. */
  predicate RecordSeam(d: Octets, pos: nat, len: nat, records: nat, b: nat)
    requires 5 < pos && pos + len < |d| && records >= 2
  {
    var cut := Cut(d, pos, len);
    || b == cut
    || (b >= 5 && Seam(cut - 5, records / 2, b - 5))
    || (b >= cut && Seam(|d| - cut, records - records / 2, b - cut))
  }

  /** Record k carries the whole name. */
  predicate HoldsName(d: Octets, pos: nat, len: nat, records: nat, k: nat)
    requires 5 < pos && pos + len < |d| && records >= 2
  {
    Covers(Payloads(d, pos, len, records), k, pos - 5, pos + len - 5)
  }

  lemma SeamsOfPayloads(d: Octets, pos: nat, len: nat, records: nat, b: nat)
    requires 5 < pos && pos + len < |d| && records >= 2 && b >= 5
    ensures StartsAt(Payloads(d, pos, len, records), b - 5) <==> RecordSeam(d, pos, len, records, b)
  {
    hide Parts, StartsAt, Seam, Flatten;
    var cut := Cut(d, pos, len);
    var l, r := Parts(d[5..cut], records / 2), Parts(d[cut..], records - records / 2);
    PartsWhole(d[5..cut], records / 2);
    PartsWhole(d[cut..], records - records / 2);
    TwoStartsIff(l, r, b - 5);
    PartsStartsIff(d[5..cut], records / 2, b - 5);
    if b >= cut {
      PartsStartsIff(d[cut..], records - records / 2, b - cut);
    }
  }

  /**
   * Some record carries the whole name exactly when none of the offsets at which records end lies strictly inside it:
   * the cut, and the multiples of the bases on its two sides.
   */
  lemma NameHeldIff(d: Octets, pos: nat, len: nat, records: nat)
    requires 5 < pos && pos + len < |d| && records >= 2
    ensures (exists k: nat :: HoldsName(d, pos, len, records, k)) <==>
      forall b: nat :: pos < b < pos + len ==> !RecordSeam(d, pos, len, records, b)
  {
    hide Payloads, RecordSeam, StartsAt;
    var ps := Payloads(d, pos, len, records);
    PayloadsWhole(d, pos, len, records);
    CoveredIff(ps, pos - 5, pos + len - 5);
    forall b: nat | pos < b < pos + len ensures StartsAt(ps, b - 5) <==> RecordSeam(d, pos, len, records, b) {
      SeamsOfPayloads(d, pos, len, records, b);
    }
    if forall b: nat :: pos < b < pos + len ==> !RecordSeam(d, pos, len, records, b) {
      forall c: nat | pos - 5 < c < pos + len - 5 ensures !StartsAt(ps, c) {
        assert !RecordSeam(d, pos, len, records, c + 5);
      }
      var k: nat :| Covers(ps, k, pos - 5, pos + len - 5);
      assert HoldsName(d, pos, len, records, k);
    }
    if k: nat :| HoldsName(d, pos, len, records, k) {
      assert Covers(ps, k, pos - 5, pos + len - 5);
      forall b: nat | pos < b < pos + len ensures !RecordSeam(d, pos, len, records, b) {
        assert !StartsAt(ps, b - 5);
      }
    }
  }

  // ---------------------------------------------------------------------------
  // The parser on the stamped and reassembled record
  // ---------------------------------------------------------------------------

  predicate SameFrom3(d: Octets, e: Octets) {
    |d| == |e| && forall i :: 3 <= i < |d| ==> d[i] == e[i]
  }

  lemma {:induction false} WalkIgnoresKind(d: Octets, e: Octets, off: nat, end: nat, pos: int, len: nat, ks: bool)
    requires 3 <= off <= end <= |d| && SameFrom3(d, e)
    ensures C.Walk(d, off, end, pos, len, ks) == C.Walk(e, off, end, pos, len, ks)
    decreases end - off
  {
    if off + 4 <= end {
      var next := off + 4 + Be16(d[off + 2], d[off + 3]);
      if next <= end {
        var typ := Be16(d[off], d[off + 1]);
        var ks' := ks || typ == C.KEY_SHARE_TYPE;
        if pos == -1 && typ == C.SERVER_NAME_TYPE {
          var name := C.ReadName(d, off + 4, next);
          if name.Ok? {
            WalkIgnoresKind(d, e, next, end, name.pos, name.len, ks');
          }
        } else {
          WalkIgnoresKind(d, e, next, end, pos, len, ks');
        }
      }
    }
  }

  /** The parser never reads the content type or the record version. */
  lemma ParseIgnoresKind(d: Octets, e: Octets)
    requires SameFrom3(d, e)
    ensures C.Parse(d) == C.Parse(e)
  {
    assert C.ReadPrelude(d) == C.ReadPrelude(e);
    var p := C.ReadPrelude(d);
    if p.Block? {
      WalkIgnoresKind(d, e, p.start, p.end, -1, 0, false);
    }
  }

  /** One record holding what a reader got out of the fragments. */
  function Reassemble(recs: seq<Rec>): Octets
    requires recs != [] && |recs[0].header| == 3
  {
    var body := Flatten(seq(|recs|, i requires 0 <= i < |recs| => recs[i].payload));
    recs[0].header + U16(|body| % 0x1_0000) + body
  }

  /** A record exactly as long as its length field says. */
  predicate WholeRecord(d: Octets) {
    |d| >= 5 && |d| == 5 + Be16(d[3], d[4])
  }

  lemma ReassembleRecs(header: Octets, ps: seq<Octets>)
    requires |header| == 3 && ps != []
    ensures Reassemble(Recs(header, ps)) == header + U16(|Flatten(ps)| % 0x1_0000) + Flatten(ps)
  {
    var recs := Recs(header, ps);
    assert seq(|recs|, i requires 0 <= i < |recs| => recs[i].payload) == ps;
  }

  lemma Low16(n: nat)
    requires n < 0x1_0000
    ensures n % 0x1_0000 == n
  {
  }

  lemma WholeRecordParts(s: Octets)
    requires WholeRecord(s)
    ensures s == s[..3] + U16(|s[5..]| % 0x1_0000) + s[5..]
  {
    hide Be16, U16;
    BigEndianRoundTrip(s[3], s[4]);
    Low16(|s[5..]|);
    ThreeParts(s);
  }

  lemma ThreeParts(s: Octets)
    requires |s| >= 5
    ensures s == s[..3] + [s[3], s[4]] + s[5..]
  {
  }

  lemma StampedWhole(d: Octets)
    requires WholeRecord(d)
    ensures WholeRecord(Stamp(d, true)) && SameFrom3(d, Stamp(d, true))
    ensures Stamp(d, true)[..3] == d[..2] + [4] && Stamp(d, true) == d[..2] + [4] + d[3..]
  {
  }

  /** Reassembling the fragments of a whole record gives the same record, so re-parsing finds the same name. */
  lemma ReassemblyReparses(d: Octets, pos: nat, len: nat, records: nat)
    requires WholeRecord(d) && 5 < pos && pos + len < |d| && records >= 2
    ensures var s := Stamp(d, true);
      var ps := Payloads(s, pos, len, records);
      && ps != [] && Reassemble(Recs(s[..3], ps)) == s
      && C.Parse(s) == C.Parse(d)
  {
    var s := Stamp(d, true);
    StampedWhole(d);
    PayloadsWhole(s, pos, len, records);
    ReassembleRecs(s[..3], Payloads(s, pos, len, records));
    WholeRecordParts(s);
    ParseIgnoresKind(d, s);
  }

  // ---------------------------------------------------------------------------
  // handleTLSFragment, up to the point where the tunnel starts
  // ---------------------------------------------------------------------------

  /** What to do with a record: `Panic` is the index out of range at the first read of findLastDot. */
  datatype Decision = Close(error: C.ParseError) | Forward | Panic | Fragment(pos: nat, len: nat)

  function Decide(d: Octets): (r: Decision)
    ensures r.Fragment? ==> 46 < r.pos && r.pos + r.len < |d|
  {
    match C.Parse(d)
    case Err(e) => Close(e)
    case Ok(pos, len, _) =>
      if pos <= 0 || len <= 0 then Forward else
      C.ParseSound(d);
      if pos + len >= |d| then Panic else Fragment(pos, len)
  }

  lemma DecisionOf(d: Octets, pos: int, len: nat, keyShare: bool)
    requires C.Parse(d) == C.Ok(pos, len, keyShare)
    ensures Decide(d) ==
      if pos <= 0 || len == 0 then Forward else if pos + len >= |d| then Panic else Fragment(pos, len)
  {
  }

  /** Whether writing to the upstream succeeds, and whether it answers the probe. */
  datatype Network = Network(writes: bool, answers: bool)

  /** `Dropped` closes both connections; `FellBack` hands a record to the fallback transport. */
  datatype Outcome =
    | Closed(error: C.ParseError)
    | Dropped
    | Forwarded(record: Octets)
    | Panicked
    | Fragmented(packets: seq<Octets>)
    | FellBack(record: Octets)

  function Handled(d: Octets, hasFallback: bool, net: Network): Outcome {
    match Decide(d)
    case Close(e) => Closed(e)
    case Forward => if net.writes then Forwarded(d) else Dropped
    case Panic => Panicked
    case Fragment(pos, len) =>
      if hasFallback && !(net.writes && net.answers) then FellBack(d)
      else if !net.writes then Dropped
      else Fragmented(Packets(Stamp(d, true), pos, len, NUM_RECORDS, NUM_SEGMENTS))
  }

  predicate Named(p: C.Parsed) {
    p.Ok? && p.pos > 0 && p.len > 0
  }

  /** There is a name, and a byte behind it. */
  predicate Cuttable(p: C.Parsed, size: nat) {
    Named(p) && p.pos + p.len < size
  }

  /** Which outcome it is, over the result of the parser, the fallback and the two outcomes of the network. */
  predicate OutcomeIff(d: Octets, hasFallback: bool, net: Network, out: Outcome) {
    var p := C.Parse(d);
    && (out.Closed? <==> p.Err?) && (out.Closed? ==> out.error == p.error)
    && (out.Forwarded? <==> p.Ok? && !Named(p) && net.writes)
    && (out.Panicked? <==> Named(p) && p.pos + p.len >= |d|)
    && (out.FellBack? <==> Cuttable(p, |d|) && hasFallback && (!net.writes || !net.answers))
    && (out.Fragmented? <==> Cuttable(p, |d|) && net.writes && (hasFallback ==> net.answers))
    && (out.Dropped? <==> p.Ok? && !net.writes && (!Named(p) || (Cuttable(p, |d|) && !hasFallback)))
  }

  lemma OutcomeOf(d: Octets, hasFallback: bool, net: Network)
    ensures OutcomeIff(d, hasFallback, net, Handled(d, hasFallback, net))
    ensures Decide(d).Fragment? <==> Cuttable(C.Parse(d), |d|)
    ensures Handled(d, hasFallback, net).Forwarded? ==> Handled(d, hasFallback, net).record == d
    ensures Handled(d, hasFallback, net).FellBack? ==> Handled(d, hasFallback, net).record == d
  {
    hide C.Parse, Packets;
  }

  method HandleTLSFragment(record: array<byte>, hasFallback: bool, net: Network) returns (out: Outcome)
    modifies record
    ensures out == Handled(old(record[..]), hasFallback, net)
    ensures OutcomeIff(old(record[..]), hasFallback, net, out)
    ensures out.Forwarded? ==> out.record == old(record[..])
    ensures out.FellBack? ==> out.record == old(record[..])
    ensures record[..] ==
      if Cuttable(C.Parse(old(record[..])), record.Length) then old(record[..])[2 := 4] else old(record[..])
  {
    hide OutcomeIff, Cuttable, Named;
    OutcomeOf(record[..], hasFallback, net);
    hide Packets, Stamp, C.Parse;
    var parsed := C.ParseClientHello(record);
    ghost var d := record[..];
    if parsed.Err? { return Closed(parsed.error); }
    var pos, len := parsed.pos, parsed.len;
    DecisionOf(d, pos, len, parsed.keyShare);
    if pos <= 0 || len <= 0 {
      return if net.writes then Forwarded(record[..]) else Dropped;
    }
    if pos + len >= record.Length { return Panicked; }
    out := SendFragments(record, pos, len, hasFallback, net);
  }

  method SendFragments(record: array<byte>, pos: nat, len: nat, hasFallback: bool, net: Network) returns (out: Outcome)
    requires Decide(record[..]) == Fragment(pos, len)
    modifies record
    ensures out == Handled(old(record[..]), hasFallback, net)
    ensures out.FellBack? ==> out.record == old(record[..])
    ensures record[..] == old(record[..])[2 := 4]
  {
    hide Packets, C.Parse, Decide;
    // sendRecords stamps the record in place, so the fallback needs its own copy.
    var saved: Octets := [];
    if hasFallback {
      saved := record[..];
    }
    var packets := SendRecords(record, pos, len, NUM_RECORDS, NUM_SEGMENTS, true);
    if !net.writes {
      return if hasFallback then FellBack(saved) else Dropped;
    }
    if hasFallback && !net.answers {
      return FellBack(saved);
    }
    return Fragmented(packets);
  }

  /** The record read from a client: five bytes of header, then as many bytes as they announce. */
  function ReadInitial(stream: Octets): (r: Option<Octets>)
    ensures r.Some? ==> WholeRecord(r.value) && r.value <= stream
    ensures r.None? ==> forall n :: 0 <= n <= |stream| ==> !WholeRecord(stream[..n])
  {
    if |stream| < 5 then None else
    var n := Be16(stream[3], stream[4]);
    if |stream| < 5 + n then None else Some(stream[..5 + n])
  }

  /**
   * For any bytes a client may send, whenever the ClientHello is fragmented: it goes out in one write, and what the
   * peer reads out of that is three or four non-empty records of the stamped version, which reassemble to the bytes
   * that were sent, in which the parser finds the same name.
   */
  lemma FragmentedIsTransparent(stream: Octets, hasFallback: bool, net: Network)
    requires ReadInitial(stream).Some? && Handled(ReadInitial(stream).value, hasFallback, net).Fragmented?
    ensures var d := ReadInitial(stream).value;
      && |Handled(d, hasFallback, net).packets| == 1
      && exists recs: seq<Rec> :: IsTransparent(d, Flatten(Handled(d, hasFallback, net).packets), recs)
  {
    hide *;
    var d := ReadInitial(stream).value;
    HandledFragment(d, hasFallback, net);
    FragmentsAreTransparent(d, Decide(d).pos, Decide(d).len);
    OneWrite(Stamp(d, true), Decide(d).pos, Decide(d).len);
  }

  lemma OneWrite(d: Octets, pos: nat, len: nat)
    requires 5 <= pos && pos + len < |d|
    ensures |Packets(d, pos, len, NUM_RECORDS, NUM_SEGMENTS)| == 1
  {
    hide Payloads, MakeRecords, Flatten;
  }

  /** Two records left of the cut, one or two right of it. */
  lemma ThreeOrFour(d: Octets, pos: nat, len: nat)
    requires 46 < pos && pos + len < |d|
    ensures 3 <= |Payloads(d, pos, len, NUM_RECORDS)| <= 4
  {
    hide Cut, Parts;
    var cut := Cut(d, pos, len);
    PartsWhole(d[5..cut], 2);
    PartsWhole(d[cut..], 2);
  }

  lemma HandledFragment(d: Octets, hasFallback: bool, net: Network)
    requires Handled(d, hasFallback, net).Fragmented?
    ensures Decide(d).Fragment? && 46 < Decide(d).pos && Decide(d).pos + Decide(d).len < |d|
    ensures Handled(d, hasFallback, net).packets ==
      Packets(Stamp(d, true), Decide(d).pos, Decide(d).len, NUM_RECORDS, NUM_SEGMENTS)
  {
  }

  lemma FragmentsAreTransparent(d: Octets, pos: nat, len: nat)
    requires WholeRecord(d) && 46 < pos && pos + len < |d|
    ensures var s := Stamp(d, true);
      IsTransparent(d, Flatten(Packets(s, pos, len, NUM_RECORDS, NUM_SEGMENTS)),
                    Recs(s[..3], Payloads(s, pos, len, NUM_RECORDS)))
  {
    var s := Stamp(d, true);
    FragmentationPreservesHandshake(s, pos, len, NUM_RECORDS, NUM_SEGMENTS);
    ReassemblyReparses(d, pos, len, NUM_RECORDS);
    StampedWhole(d);
    RecsShape(s[..3], Payloads(s, pos, len, NUM_RECORDS));
    ThreeOrFour(s, pos, len);
  }

  lemma RecsShape(header: Octets, ps: seq<Octets>)
    requires forall p <- ps :: 0 < |p| <= 0xFFFF
    ensures forall r <- Recs(header, ps) :: r.header == header && 0 < |r.payload| <= 0xFFFF
  {
    forall r | r in Recs(header, ps) ensures r.header == header && 0 < |r.payload| <= 0xFFFF {
      var i :| 0 <= i < |ps| && Recs(header, ps)[i] == r;
      assert ps[i] in ps;
    }
  }

  predicate IsTransparent(d: Octets, written: Octets, recs: seq<Rec>)
    requires |d| >= 5
  {
    && ReadRecords(written) == Some(recs)
    && 3 <= |recs| <= 4
    && (forall r <- recs :: r.header == d[..2] + [4] && 0 < |r.payload| <= 0xFFFF)
    && |recs[0].header| == 3
    && Reassemble(recs) == d[..2] + [4] + d[3..]
    && C.Parse(Reassemble(recs)) == C.Parse(d)
  }

  // ---------------------------------------------------------------------------
  // When findLastDot runs off the end
  // ---------------------------------------------------------------------------

  /** The name ends the block exactly when its extension is the last one and holds nothing after it. */
  lemma {:induction false} NameEndsBlockIff(d: Octets, off: nat, end: nat, es: seq<C.Extension>)
    requires off <= end <= |d| && C.Lays(d, off, end, es) && C.FirstName(es) < |es|
    ensures var i := C.FirstName(es);
      var nameEnd := C.NameOffset(es, off) + |es[i].host|;
      && nameEnd <= end
      && (nameEnd == end <==> i == |es| - 1 && es[i].more == [])
    decreases |es|
  {
    var next := off + es[0].Size();
    if es[0].ServerName? {
      if |es| > 1 {
        assert es[1..] != [];
      } else {
        assert es[1..] == [];
      }
    } else {
      NameEndsBlockIff(d, next, end, es[1..]);
    }
  }

  /**
   * For every well-formed ClientHello: it is forwarded untouched when it has no server name, or an empty one;
   * it panics exactly when the name is the very last thing in the record; it is fragmented otherwise.
   */
  lemma HelloDecision(h: C.Hello, kind: Octets)
    requires h.WellFormed() && |kind| == 3
    ensures var r := Decide(h.Record(kind));
      if h.block.Absent? || C.FirstName(h.block.es) == |h.block.es| || h.block.es[C.FirstName(h.block.es)].host == []
      then r.Forward?
      else
        var es := h.block.es;
        var i := C.FirstName(es);
        if i == |es| - 1 && es[i].more == [] then r.Panic?
        else r == Fragment(C.NameOffset(es, C.BlockStart(h)), |es[i].host|)
  {
    C.ParserInvertsSerializer(h, kind);
    if h.block.Absent? || C.FirstName(h.block.es) == |h.block.es| {
      DecisionOf(h.Record(kind), -1, 0, C.Parse(h.Record(kind)).keyShare);
    } else {
      C.RecordHeaders(h, kind);
      C.ParseOfBlock(h, h.Record(kind), h.block.es);
      NamedHelloDecision(h.Record(kind), C.BlockStart(h), h.block.es);
    }
  }

  lemma NamedHelloDecision(d: Octets, start: nat, es: seq<C.Extension>)
    requires C.FirstName(es) < |es| && start <= |d| && C.Lays(d, start, |d|, es)
    requires C.Parse(d) == C.Ok(C.NameOffset(es, start), |es[C.FirstName(es)].host|, C.HasKeyShare(es))
    ensures var i := C.FirstName(es);
      Decide(d) ==
      if es[i].host == [] then Forward
      else if i == |es| - 1 && es[i].more == [] then Panic
      else Fragment(C.NameOffset(es, start), |es[i].host|)
  {
    NameEndsBlockIff(d, start, |d|, es);
    DecisionOf(d, C.NameOffset(es, start), |es[C.FirstName(es)].host|, C.HasKeyShare(es));
  }

  lemma OneExtension(e: C.Extension)
    requires e.WellFormed()
    ensures C.AllWellFormed([e]) && |C.EncodeAll([e])| == |e.Encode()| == e.Size()
  {
    assert C.EncodeAll([e]) == e.Encode() + C.EncodeAll([e][1..]);
  }

  /** One server_name extension, "a.b", and nothing behind it. */
  function LastNameHello(): C.Hello {
    C.Hello([3, 3], seq(32, _ => 0), [], [19, 1], [0], C.Present([C.ServerName([97, 46, 98], [])]))
  }

  lemma LastNameHelloWellFormed()
    ensures LastNameHello().WellFormed()
  {
    OneExtension(C.ServerName([97, 46, 98], []));
    C.BodySize(LastNameHello(), [C.ServerName([97, 46, 98], [])]);
  }

  /** A concrete ClientHello that panics. */
  lemma PanickingHello()
    ensures LastNameHello().WellFormed() && Decide(LastNameHello().Record([22, 3, 1])).Panic?
  {
    LastNameHelloWellFormed();
    HelloDecision(LastNameHello(), [22, 3, 1]);
  }

  // ---------------------------------------------------------------------------
  // A name that is not split
  // ---------------------------------------------------------------------------

  const DOTTED_NAME: Octets := [46, 97, 98]
  const SOME_SHARE: Octets := [0, 6, 0, 29, 0, 2, 1, 1]

  /** A server name that begins with its only dot, ".ab", and a key_share behind it. */
  function DottedHello(): C.Hello {
    C.Hello([3, 3], seq(32, _ => 0), [], [19, 1], [0],
            C.Present([C.ServerName(DOTTED_NAME, []), C.KeyShare(SOME_SHARE)]))
  }

  lemma DottedHelloWellFormed()
    ensures DottedHello().WellFormed()
  {
    var x, y := C.ServerName(DOTTED_NAME, []), C.KeyShare(SOME_SHARE);
    OneExtension(x);
    OneExtension(y);
    assert [x, y][1..] == [y];
    assert C.EncodeAll([x, y]) == x.Encode() + C.EncodeAll([x, y][1..]);
    C.BodySize(DottedHello(), [x, y]);
  }

  lemma DottedCut(d: Octets, pos: nat)
    requires pos + 15 == |d| && d[pos] == DOT && d[pos + 1] != DOT && d[pos + 2] != DOT && d[pos + 3] != DOT
    ensures Cut(d, pos, 3) == pos
  {
    hide CutFrom;
    assert DotIn(d, pos, pos + 3);
    var c := Cut(d, pos, 3);
    assert c == pos || c == pos + 1 || c == pos + 2 || c == pos + 3;
  }

  /** The cut is in front of the name, and the next seam is seven bytes behind it. */
  lemma DottedNameIsHeld(d: Octets, pos: nat)
    requires 5 < pos && pos + 15 == |d|
    requires d[pos] == DOT && d[pos + 1] != DOT && d[pos + 2] != DOT && d[pos + 3] != DOT
    ensures exists k: nat :: HoldsName(d, pos, 3, NUM_RECORDS, k)
  {
    DottedCut(d, pos);
    forall b: nat | pos < b < pos + 3 ensures !RecordSeam(d, pos, 3, NUM_RECORDS, b) {
      DottedSeams(pos - 5, b - 5, b - pos);
    }
    NameHeldIff(d, pos, 3, NUM_RECORDS);
  }

  lemma DottedSeams(left: nat, x: nat, y: nat)
    requires left < x && y < 3
    ensures !Seam(left, 2, x) && !Seam(15, 2, y)
  {
    assert 15 / 2 == 7;
    assert Times(1, left / 2) == left / 2 <= left;
  }

  /** Where the parser finds things in the record of that hello. */
  lemma DottedLayout(d: Octets, start: nat)
    requires start <= |d|
    requires C.Lays(d, start, |d|, [C.ServerName(DOTTED_NAME, []), C.KeyShare(SOME_SHARE)])
    ensures |d| == start + 24 && At(d, start + 9, DOTTED_NAME) && Be16(d[start + 12], d[start + 13]) == C.KEY_SHARE_TYPE
  {
    hide Be16;
    var x, y := C.ServerName(DOTTED_NAME, []), C.KeyShare(SOME_SHARE);
    assert [x, y][1..] == [y] && [y][1..] == [];
    assert x.Size() == 12 && y.Size() == 12;
    assert C.HeaderReads(d, start, x);
    assert C.Lays(d, start + 12, |d|, [y]);
    assert C.HeaderReads(d, start + 12, y);
    assert C.Lays(d, start + 24, |d|, []);
  }

  /** The record of a hello that is fragmented, although one of the fragments carries its whole server name. */
  lemma NameInOneRecord()
    ensures DottedHello().WellFormed()
    ensures var d := DottedHello().Record([22, 3, 1]);
      && Decide(d).Fragment? && Decide(d).len == 3
      && exists k: nat :: HoldsName(Stamp(d, true), Decide(d).pos, 3, NUM_RECORDS, k)
  {
    DottedHelloWellFormed();
    hide Be16, C.Parse, C.ReadPrelude, C.Lays, C.EncodeAll, Decide, Stamp, HoldsName, Cut, At;
    var h := DottedHello();
    var es := [C.ServerName(DOTTED_NAME, []), C.KeyShare(SOME_SHARE)];
    var d := h.Record([22, 3, 1]);
    HelloDecision(h, [22, 3, 1]);
    assert C.FirstName(es) == 0 && C.NameOffset(es, C.BlockStart(h)) == C.BlockStart(h) + 9;
    C.RecordHeaders(h, [22, 3, 1]);
    C.ParseOfBlock(h, d, es);
    DottedLayout(d, C.BlockStart(h));
    DottedBytes(d, C.BlockStart(h) + 9);
    DottedNameIsHeld(Stamp(d, true), C.BlockStart(h) + 9);
  }

  lemma DottedBytes(d: Octets, pos: nat)
    requires 5 < pos && |d| == pos + 15 && At(d, pos, DOTTED_NAME)
    requires Be16(d[pos + 3], d[pos + 4]) == C.KEY_SHARE_TYPE
    ensures var s := Stamp(d, true);
      |s| == |d| && s[pos] == DOT && s[pos + 1] != DOT && s[pos + 2] != DOT && s[pos + 3] != DOT
  {
    AtIndex(d, pos, DOTTED_NAME, 0);
    AtIndex(d, pos, DOTTED_NAME, 1);
    AtIndex(d, pos, DOTTED_NAME, 2);
  }
}
