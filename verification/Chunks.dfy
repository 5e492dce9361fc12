// proxy/gas_relay.go: the range arithmetic and the assembly of relayChunked.
module Chunks {
  import opened Options
  import opened Bytes

  const MIN_SIZE: int := 5 * 1024 * 1024
  const MAX_PARALLEL: int := 3
  const CHUNK_SIZE: int := 2 * 1024 * 1024
  const TWO63: int := 0x8000_0000_0000_0000
  const TWO64: int := 0x1_0000_0000_0000_0000

  /** Signed 64-bit addition wraps around. */
  function Wrap(x: int): int {
    (x + TWO63) % TWO64 - TWO63
  }

  /** Division of machine integers truncates toward zero. */
  function Quot(a: int, b: int): int
    requires b != 0
  {
    if (a >= 0) == (b > 0) then Abs(a) / Abs(b) else -(Abs(a) / Abs(b))
  }

  function Abs(x: int): nat {
    if x < 0 then -x else x
  }

  /** A closed byte range, as in section 14.1.2 of RFC 9110. */
  datatype Range = Range(start: int, end: int)

  datatype Plan = TooSmall | Negative | Ranges(rs: seq<Range>)

  /** Where the chunks end: `size` bytes each, the last one up to the end of the file. */
  function RangeAt(cl: int, size: int, n: int, i: int): Range {
    Range(i * size, if i == n - 1 then cl - 1 else i * size + size - 1)
  }

  function ChunkSize(cl: nat): nat {
    if cl / MAX_PARALLEL < CHUNK_SIZE then CHUNK_SIZE else cl / MAX_PARALLEL
  }

  lemma RangeIs(cl: int, size: int, n: int, i: int, start: int, end: int)
    requires start == i * size && end == if i == n - 1 then cl - 1 else start + size - 1
    ensures RangeAt(cl, size, n, i) == Range(start, end)
  {
  }

  /** Above the minimum there are at least three chunks of the usual size, and exactly three below 6 MB. */
  lemma CountOf(cl: int)
    requires MIN_SIZE < cl <= TWO63 - CHUNK_SIZE
    ensures Quot(Wrap(cl + CHUNK_SIZE - 1), CHUNK_SIZE) >= MAX_PARALLEL
    ensures Quot(cl, MAX_PARALLEL) < CHUNK_SIZE ==> Quot(Wrap(cl + CHUNK_SIZE - 1), CHUNK_SIZE) == MAX_PARALLEL
    ensures 0 < 2 * Quot(cl, MAX_PARALLEL) < cl && Quot(cl, MAX_PARALLEL) == cl / MAX_PARALLEL
  {
  }

  /** Just below the largest machine integer the rounding up wraps around. */
  lemma CountWraps(cl: int)
    requires TWO63 - CHUNK_SIZE < cl < TWO63
    ensures var n := Quot(Wrap(cl + CHUNK_SIZE - 1), CHUNK_SIZE);
      n < 0 && Quot(cl, n) < CHUNK_SIZE
  {
    assert Wrap(cl + CHUNK_SIZE - 1) == cl + CHUNK_SIZE - 1 - TWO64;
  }

  lemma CountIsNotZero(cl: int)
    requires MIN_SIZE < cl < TWO63
    ensures Quot(Wrap(cl + CHUNK_SIZE - 1), CHUNK_SIZE) != 0
  {
    if cl <= TWO63 - CHUNK_SIZE { CountOf(cl); } else { CountWraps(cl); }
  }

  lemma PartitionOf(rs: seq<Range>, cl: int, size: int)
    requires |rs| == MAX_PARALLEL && 0 < size && 2 * size < cl
    requires forall k :: 0 <= k < |rs| ==> rs[k] == RangeAt(cl, size, MAX_PARALLEL, k)
    ensures Partitions(rs, cl) && rs[0].end + 1 == size == rs[1].end + 1 - rs[1].start
  {
    assert rs[0] == Range(0, size - 1) && rs[1] == Range(size, 2 * size - 1) && rs[2] == Range(2 * size, cl - 1);
  }

  /** The re-cap after the minimum chunk size has been enforced is never taken: `recapped` is false. */
  method PlanChunks(cl: int) returns (plan: Plan, recapped: bool)
    requires -TWO63 <= cl < TWO63
    ensures !recapped
    ensures cl <= 5 * 1024 * 1024 <==> plan.TooSmall?
    ensures 5 * 1024 * 1024 < cl <= TWO63 - 2 * 1024 * 1024 <==> plan.Ranges?
    ensures plan.Ranges? ==> Partitions(plan.rs, cl) && |plan.rs| == 3
    ensures plan.Ranges? ==> plan.rs[0].end + 1 == ChunkSize(cl) == plan.rs[1].end + 1 - plan.rs[1].start
    ensures plan.Ranges? ==> plan.rs[0].end + 1 == if cl / 3 < 2 * 1024 * 1024 then 2 * 1024 * 1024 else cl / 3
  {
    hide Wrap, Quot, RangeAt, Partitions;
    recapped := false;
    if cl <= MIN_SIZE {
      return TooSmall, false;
    }
    var numChunks := Quot(Wrap(cl + CHUNK_SIZE - 1), CHUNK_SIZE);
    CountIsNotZero(cl);
    if numChunks > MAX_PARALLEL {
      numChunks := MAX_PARALLEL;
    }
    var chunkSize := Quot(cl, numChunks);
    if chunkSize < CHUNK_SIZE {
      chunkSize := CHUNK_SIZE;
      numChunks := Quot(Wrap(cl + chunkSize - 1), chunkSize);
      if numChunks > MAX_PARALLEL {
        recapped := true;
        numChunks := MAX_PARALLEL;
        chunkSize := Quot(cl, numChunks);
      }
    }
    if cl <= TWO63 - CHUNK_SIZE { CountOf(cl); } else { CountWraps(cl); }
    if numChunks < 0 {
      return Negative, recapped;
    }
    var rs: seq<Range> := [];
    var i := 0;
    while i < numChunks
      invariant 0 <= i <= numChunks
      invariant |rs| == i && forall k :: 0 <= k < i ==> rs[k] == RangeAt(cl, chunkSize, numChunks, k)
    {
      var start := i * chunkSize;
      var end := start + chunkSize - 1;
      if i == numChunks - 1 {
        end := cl - 1;
      }
      RangeIs(cl, chunkSize, numChunks, i, start, end);
      rs := rs + [Range(start, end)];
      i := i + 1;
    }
    PartitionOf(rs, cl, chunkSize);
    return Ranges(rs), recapped;
  }

  /** The ranges are non-empty and follow each other without gap or overlap from the first byte to the last. */
  predicate Partitions(rs: seq<Range>, cl: int) {
    && rs != [] && rs[0].start == 0 && rs[|rs| - 1].end == cl - 1
    && (forall i :: 0 <= i < |rs| ==> rs[i].start <= rs[i].end)
    && (forall i :: 0 <= i < |rs| - 1 ==> rs[i + 1].start == rs[i].end + 1)
  }

  lemma {:induction false} Ascends(rs: seq<Range>, cl: int, i: nat, j: nat)
    requires Partitions(rs, cl) && i < j < |rs|
    ensures rs[i].end < rs[j].start
    decreases j
  {
    if i < j - 1 {
      Ascends(rs, cl, i, j - 1);
    }
  }

  /** The ranges lie inside the file. */
  lemma Inside(rs: seq<Range>, cl: int, i: nat)
    requires Partitions(rs, cl) && i < |rs|
    ensures 0 <= rs[i].start <= rs[i].end < cl
  {
    if i > 0 { Ascends(rs, cl, 0, i); }
    if i < |rs| - 1 { Ascends(rs, cl, i, |rs| - 1); }
  }

  /** Every byte of the file is in exactly one range. */
  lemma EveryByteOnce(rs: seq<Range>, cl: int, x: int) returns (i: nat)
    requires Partitions(rs, cl) && 0 <= x < cl
    ensures i < |rs| && rs[i].start <= x <= rs[i].end
    ensures forall j :: 0 <= j < |rs| && rs[j].start <= x <= rs[j].end ==> j == i
  {
    i := 0;
    while x > rs[i].end
      invariant i < |rs| && rs[i].start <= x
      decreases |rs| - i
    {
      i := i + 1;
    }
    forall j | 0 <= j < |rs| && rs[j].start <= x <= rs[j].end ensures j == i {
      if j < i {
        Ascends(rs, cl, j, i);
      } else if i < j {
        Ascends(rs, cl, i, j);
      }
    }
  }

  // ---------------------------------------------------------------------------
  // Assembly
  // ---------------------------------------------------------------------------

  /** What one download puts on the channel. */
  datatype Arrival = Done(idx: nat, data: Octets) | Failed(idx: nat)

  /** Every one of the n downloads reports once, in any order. */
  predicate AnyOrder(arrivals: seq<Arrival>, n: nat) {
    && |arrivals| == n
    && (forall i :: 0 <= i < n ==> arrivals[i].idx < n)
    && (forall i, j :: 0 <= i < j < n ==> arrivals[i].idx != arrivals[j].idx)
  }

  function Indices(arrivals: seq<Arrival>, k: nat): set<nat>
    requires k <= |arrivals|
  {
    if k == 0 then {} else Indices(arrivals, k - 1) + {arrivals[k - 1].idx}
  }

  lemma {:induction false} IndicesHold(arrivals: seq<Arrival>, k: nat, x: nat)
    requires k <= |arrivals|
    ensures x in Indices(arrivals, k) <==> exists i :: 0 <= i < k && arrivals[i].idx == x
  {
    if k > 0 {
      IndicesHold(arrivals, k - 1, x);
    }
  }

  lemma {:induction false} IndicesCount(arrivals: seq<Arrival>, n: nat, k: nat)
    requires AnyOrder(arrivals, n) && k <= n
    ensures |Indices(arrivals, k)| == k
  {
    if k > 0 {
      IndicesCount(arrivals, n, k - 1);
      IndicesHold(arrivals, k - 1, arrivals[k - 1].idx);
    }
  }

  function Below(n: nat): (s: set<nat>)
    ensures |s| == n && forall x: nat :: x in s <==> x < n
  {
    if n == 0 then {} else
    var b := Below(n - 1);
    assert n - 1 !in b;
    b + {n - 1}
  }

  lemma SubsetOfSameSize(a: set<nat>, b: set<nat>)
    requires a <= b && |a| == |b|
    ensures a == b
  {
    assert b == a + (b - a);
    assert |b| == |a| + |b - a|;
  }

  /** Each index reports. */
  lemma AllReport(arrivals: seq<Arrival>, n: nat, x: nat)
    requires AnyOrder(arrivals, n) && x < n
    ensures exists i :: 0 <= i < n && arrivals[i].idx == x
  {
    IndicesCount(arrivals, n, n);
    forall y | y in Indices(arrivals, n) ensures y in Below(n) {
      IndicesHold(arrivals, n, y);
    }
    SubsetOfSameSize(Indices(arrivals, n), Below(n));
    assert x in Below(n);
    IndicesHold(arrivals, n, x);
  }

  /** Collects n results and puts them in the order of their indices; any failure fails the whole. */
  method Assemble(arrivals: seq<Arrival>, n: nat, ghost parts: seq<Octets>) returns (full: Option<Octets>)
    requires AnyOrder(arrivals, n) && |parts| == n
    requires forall i :: 0 <= i < n && arrivals[i].Done? ==> arrivals[i].data == parts[arrivals[i].idx]
    ensures full == if exists i :: 0 <= i < n && arrivals[i].Failed? then None else Some(Flatten(parts))
  {
    var chunks: seq<Octets> := seq(n, _ => []);
    var i := 0;
    while i < n
      invariant 0 <= i <= n && |chunks| == n
      invariant forall k :: 0 <= k < i ==> arrivals[k].Done? && chunks[arrivals[k].idx] == parts[arrivals[k].idx]
    {
      var res := arrivals[i];
      if res.Failed? {
        return None;
      }
      chunks := chunks[res.idx := res.data];
      i := i + 1;
    }
    forall x | 0 <= x < n ensures chunks[x] == parts[x] {
      AllReport(arrivals, n, x);
    }
    assert chunks == parts;
    var out: Octets := [];
    i := 0;
    while i < n
      invariant 0 <= i <= n && out == Flatten(chunks[..i])
    {
      assert chunks[..i + 1] == chunks[..i] + [chunks[i]];
      FlattenAppend(chunks[..i], [chunks[i]]);
      assert Flatten([chunks[i]]) == chunks[i] + Flatten([]);
      out := out + chunks[i];
      i := i + 1;
    }
    assert chunks[..n] == chunks;
    return Some(out);
  }

  /** The bytes of a file that the ranges ask for. */
  function Slices(file: Octets, rs: seq<Range>): (p: seq<Octets>)
    requires Partitions(rs, |file|)
    ensures |p| == |rs|
  {
    seq(|rs|, i requires 0 <= i < |rs| => Inside(rs, |file|, i); file[rs[i].start..rs[i].end + 1])
  }

  /** Put in the order of the ranges, the slices are the file. */
  lemma {:induction false} SlicesUpTo(file: Octets, rs: seq<Range>, k: nat)
    requires Partitions(rs, |file|) && 1 <= k <= |rs|
    ensures 0 <= rs[k - 1].end < |file| && Flatten(Slices(file, rs)[..k]) == file[..rs[k - 1].end + 1]
    decreases k
  {
    var p := Slices(file, rs);
    Inside(rs, |file|, k - 1);
    assert p[..k] == p[..k - 1] + [p[k - 1]];
    FlattenAppend(p[..k - 1], [p[k - 1]]);
    assert Flatten([p[k - 1]]) == p[k - 1] + Flatten([]);
    if k > 1 {
      SlicesUpTo(file, rs, k - 1);
    } else {
      assert p[..0] == [];
    }
  }

  /** For every plan, what Assemble makes of the slices, in any order of arrival, is the file. */
  lemma SlicesAreTheFile(file: Octets, rs: seq<Range>)
    requires Partitions(rs, |file|)
    ensures Flatten(Slices(file, rs)) == file
  {
    SlicesUpTo(file, rs, |rs|);
    assert Slices(file, rs)[..|rs|] == Slices(file, rs);
    assert file[..|file|] == file;
  }

  /** The whole download: planned, served range by range, and assembled in the order of arrival `order`. */
  method Download(file: Octets, order: seq<nat>, fails: set<nat>) returns (full: Option<Octets>)
    requires MIN_SIZE < |file| <= TWO63 - CHUNK_SIZE
    requires |order| == 3 && forall i :: 0 <= i < 3 ==> order[i] < 3
    requires forall i, j :: 0 <= i < j < 3 ==> order[i] != order[j]
    ensures full == if exists i <- order :: i in fails then None else Some(file)
  {
    var plan, _ := PlanChunks(|file|);
    var slices := Slices(file, plan.rs);
    var arrivals := seq(3, i requires 0 <= i < 3 =>
      if order[i] in fails then Failed(order[i]) else Done(order[i], slices[order[i]]));
    full := Assemble(arrivals, 3, slices);
    SlicesAreTheFile(file, plan.rs);
    assert forall i :: 0 <= i < 3 ==> (arrivals[i].Failed? <==> order[i] in fails);
    if i :| i in order && i in fails {
      var k :| 0 <= k < 3 && order[k] == i;
      assert arrivals[k].Failed?;
    }
  }
}
