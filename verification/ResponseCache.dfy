// proxy/gas_relay.go: gasResponseCache, a byte-bounded cache with expiry.
// Evicts in the order of the last put, not of the last use.
module ResponseCache {
  import opened Options
  import opened Sequences

  type Url = string
  type Raw = seq<char>

  datatype Entry = Entry(raw: Raw, expires: int)

  datatype Cache = Cache(store: map<Url, Entry>, order: seq<Url>, size: int, max: nat)

  // ---------------------------------------------------------------------------
  // Order, size and store agree
  // ---------------------------------------------------------------------------

  /** The bytes stored under the urls of `order`, which are keys of the store. */
  function Bytes(store: map<Url, Entry>, order: seq<Url>): nat
    requires forall u <- order :: u in store
  {
    if order == [] then 0 else |store[order[0]].raw| + Bytes(store, order[1..])
  }

  predicate Lists(order: seq<Url>, store: map<Url, Entry>) {
    (forall u <- order :: u in store) && (forall u <- store :: u in order)
  }

  predicate Valid(c: Cache) {
    && Consistent(c)
    && c.size <= c.max
  }

  /** `order` without u. */
  function Remove(order: seq<Url>, u: Url): (r: seq<Url>)
    ensures u !in order ==> r == order
    ensures forall v :: v in r ==> v in order
  {
    if order == [] then [] else if order[0] == u then order[1..] else [order[0]] + Remove(order[1..], u)
  }

  lemma {:induction false} RemoveKeeps(order: seq<Url>, u: Url)
    requires Distinct(order)
    ensures var r := Remove(order, u);
      && Distinct(r) && u !in r
      && forall v :: v in order && v != u ==> v in r
  {
    if order != [] && order[0] != u {
      RemoveKeeps(order[1..], u);
      var t := Remove(order[1..], u);
      assert order == [order[0]] + order[1..];
      assert order[0] !in order[1..];
    } else if order != [] {
      assert order == [u] + order[1..];
    }
  }

  lemma {:induction false} BytesFrame(s: map<Url, Entry>, t: map<Url, Entry>, order: seq<Url>)
    requires forall u <- order :: u in s && u in t && s[u] == t[u]
    ensures Bytes(s, order) == Bytes(t, order)
  {
    if order != [] {
      BytesFrame(s, t, order[1..]);
    }
  }

  lemma {:induction false} BytesAppend(s: map<Url, Entry>, a: seq<Url>, b: seq<Url>)
    requires (forall u <- a :: u in s) && (forall u <- b :: u in s)
    ensures forall u <- a + b :: u in s
    ensures Bytes(s, a + b) == Bytes(s, a) + Bytes(s, b)
  {
    if a == [] {
      assert a + b == b;
    } else {
      BytesAppend(s, a[1..], b);
      assert (a + b)[1..] == a[1..] + b;
    }
  }

  lemma {:induction false} BytesRemove(s: map<Url, Entry>, order: seq<Url>, u: Url)
    requires (forall v <- order :: v in s) && u in order
    ensures Bytes(s, order) == Bytes(s, Remove(order, u)) + |s[u].raw|
  {
    if order[0] != u {
      BytesRemove(s, order[1..], u);
      assert ([order[0]] + Remove(order[1..], u))[1..] == Remove(order[1..], u);
    }
  }

  // ---------------------------------------------------------------------------
  // The two operations on values
  // ---------------------------------------------------------------------------

  function Drop(c: Cache, u: Url): Cache
    requires u in c.store
  {
    c.(store := c.store - {u}, order := Remove(c.order, u), size := c.size - |c.store[u].raw|)
  }

  predicate Consistent(c: Cache) {
    Distinct(c.order) && Lists(c.order, c.store) && c.size == Bytes(c.store, c.order)
  }

  function DropHead(c: Cache): Cache
    requires c.order != [] && c.order[0] in c.store
  {
    var u := c.order[0];
    c.(store := c.store - {u}, order := c.order[1..], size := c.size - |c.store[u].raw|)
  }

  lemma DropHeadKeeps(c: Cache)
    requires Consistent(c) && c.order != []
    ensures c.order[0] in c.store && Consistent(DropHead(c))
    ensures forall k :: 1 <= k <= |c.order| ==> DropHead(c).order[k - 1..] == c.order[k..]
  {
    var u, rest := c.order[0], c.order[1..];
    HeadIsGone(c.order);
    BytesFrame(c.store, c.store - {u}, rest);
    DropHeadLists(c);
  }

  lemma HeadIsGone(order: seq<Url>)
    requires Distinct(order) && order != []
    ensures order[0] !in order[1..] && Distinct(order[1..])
    ensures forall v :: v in order[1..] <==> v in order && v != order[0]
  {
    assert order == [order[0]] + order[1..];
  }

  lemma DropHeadLists(c: Cache)
    requires Consistent(c) && c.order != []
    ensures Lists(DropHead(c).order, DropHead(c).store)
  {
    HeadIsGone(c.order);
  }

  /** Removes the head of the order for as long as `need` bytes do not fit. */
  function Evict(c: Cache, need: nat): Cache
    requires Consistent(c)
    decreases |c.order|
  {
    if c.size + need > c.max && c.order != [] then
      DropHeadKeeps(c);
      Evict(DropHead(c), need)
    else c
  }

  predicate Accepted(max: nat, raw: Raw) {
    raw != [] && |raw| <= max / 4
  }

  function Insert(c: Cache, u: Url, e: Entry): Cache {
    c.(store := c.store[u := e], order := c.order + [u], size := c.size + |e.raw|)
  }

  function Put(c: Cache, u: Url, raw: Raw, expires: int): Cache
    requires Valid(c)
  {
    if !Accepted(c.max, raw) then c else
    var c1 := Evict(c, |raw|);
    Insert(if u in c1.store then Drop(c1, u) else c1, u, Entry(raw, expires))
  }

  function Get(c: Cache, u: Url, now: int): (Cache, Option<Raw>) {
    if u !in c.store then (c, None)
    else if now > c.store[u].expires then (Drop(c, u), None)
    else (c, Some(c.store[u].raw))
  }

  // ---------------------------------------------------------------------------
  // The cache as an object
  // ---------------------------------------------------------------------------

  class GasResponseCache {
    var store: map<Url, Entry>
    var order: seq<Url>
    var size: int
    const max: nat

    function Snapshot(): Cache
      reads this
    {
      Cache(store, order, size, max)
    }

    constructor (maxMB: nat)
      ensures Snapshot() == Cache(map[], [], 0, maxMB * 1024 * 1024) && Valid(Snapshot())
    {
      store, order, size, max := map[], [], 0, maxMB * 1024 * 1024;
    }

    /** Scans the order for u and closes the gap. */
    method RemoveFromOrder(u: Url)
      modifies this`order
      ensures order == Remove(old(order), u)
    {
      hide Remove;
      var i := 0;
      RemoveNothing(u);
      assert order[0..] == order && order[..|order|] == order;
      while i < |order|
        invariant 0 <= i <= |order|
        invariant order == old(order)
        invariant Remove(order, u) == order[..i] + Remove(order[i..], u)
      {
        RemoveStep(order, i, u);
        if order[i] == u {
          order := order[..i] + order[i + 1..];
          return;
        }
        i := i + 1;
      }
    }

    method GetRaw(url: Url, now: int) returns (raw: Option<Raw>)
      requires Valid(Snapshot())
      modifies this
      ensures (Snapshot(), raw) == Get(old(Snapshot()), url, now)
      ensures Valid(Snapshot())
      ensures raw ==
        if url in old(store) && now <= old(store)[url].expires then Some(old(store)[url].raw) else None
      ensures url in old(store) && now > old(store)[url].expires ==>
        && store == old(store) - {url} && size == old(size) - |old(store)[url].raw|
        && url !in order && forall v :: v in old(order) && v != url ==> v in order
      ensures url !in old(store) || now <= old(store)[url].expires ==> Snapshot() == old(Snapshot())
    {
      RemoveKeeps(order, url);
      hide Bytes, Consistent, Remove, Distinct;
      GetKeepsValid(Snapshot(), url, now);
      if url !in store { return None; }
      var entry := store[url];
      if now > entry.expires {
        size := size - |entry.raw|;
        store := store - {url};
        RemoveFromOrder(url);
        return None;
      }
      return Some(entry.raw);
    }

    method PutRaw(url: Url, raw: Raw, expires: int)
      requires Valid(Snapshot())
      modifies this
      ensures Snapshot() == Put(old(Snapshot()), url, raw, expires)
      ensures Valid(Snapshot())
      ensures |raw| == 0 || |raw| > max / 4 ==> Snapshot() == old(Snapshot())
      ensures 0 < |raw| <= max / 4 ==>
        && url in store && store[url] == Entry(raw, expires)
        && order != [] && order[|order| - 1] == url
    {
      hide Bytes, Consistent, Evict, Remove;
      PutKeepsValid(Snapshot(), url, raw, expires);
      if |raw| == 0 { return; }
      if |raw| > max / 4 { return; }
      EvictFor(|raw|);
      if url in store {
        RemoveFromOrder(url);
        size := size - |store[url].raw|;
      }
      assert store[url := Entry(raw, expires)] == (store - {url})[url := Entry(raw, expires)];
      store := store[url := Entry(raw, expires)];
      order := order + [url];
      size := size + |raw|;
    }

    method EvictFor(need: nat)
      requires Consistent(Snapshot())
      modifies this
      ensures Snapshot() == Evict(old(Snapshot()), need)
    {
      while size + need > max && |store| > 0
        invariant Consistent(Snapshot())
        invariant Evict(old(Snapshot()), need) == Evict(Snapshot(), need)
        decreases |order|
      {
        StoreNonEmpty(Snapshot());
        DropHeadKeeps(Snapshot());
        var oldUrl := order[0];
        size := size - |store[oldUrl].raw|;
        store := store - {oldUrl};
        order := order[1..];
      }
      StoreNonEmpty(Snapshot());
    }
  }

  lemma RemoveNothing(u: Url)
    ensures Remove([], u) == []
  {
  }

  lemma RemoveStep(order: seq<Url>, i: nat, u: Url)
    requires i < |order|
    ensures order[i] == u ==> Remove(order[i..], u) == order[i + 1..]
    ensures order[i] != u ==> order[..i] + Remove(order[i..], u) == order[..i + 1] + Remove(order[i + 1..], u)
  {
    assert order[i..][1..] == order[i + 1..];
  }

  lemma StoreNonEmpty(c: Cache)
    requires Lists(c.order, c.store)
    ensures |c.store| > 0 <==> c.order != []
  {
    if c.order != [] {
      assert c.order[0] in c.store;
    }
    if |c.store| > 0 {
      var u :| u in c.store;
    }
  }

  // ---------------------------------------------------------------------------
  // Validity
  // ---------------------------------------------------------------------------

  lemma DropKeepsValid(c: Cache, u: Url)
    requires Valid(c) && u in c.store
    ensures Valid(Drop(c, u))
  {
    RemoveKeeps(c.order, u);
    BytesRemove(c.store, c.order, u);
    BytesFrame(c.store, c.store - {u}, Remove(c.order, u));
  }

  /** How many urls Evict removes. */
  function Evicted(c: Cache, need: nat): (k: nat)
    requires Consistent(c)
    ensures k <= |c.order|
    decreases |c.order|
  {
    if c.size + need > c.max && c.order != [] then
      DropHeadKeeps(c);
      1 + Evicted(DropHead(c), need)
    else 0
  }

  /** Eviction keeps a suffix of the order, with the entries it had. */
  lemma {:induction false} EvictKeepsSuffix(c: Cache, need: nat)
    requires Consistent(c)
    ensures var e := Evict(c, need);
      && Consistent(e) && e.max == c.max
      && e.order == c.order[Evicted(c, need)..]
      && (forall u <- e.store :: u in c.store && e.store[u] == c.store[u])
      && (e.size + need <= c.max || e.order == [])
    decreases |c.order|
  {
    hide Bytes, Consistent;
    if c.size + need > c.max && c.order != [] {
      DropHeadKeeps(c);
      EvictKeepsSuffix(DropHead(c), need);
      assert DropHead(c).order[Evicted(DropHead(c), need)..] == c.order[Evicted(c, need)..];
    }
  }

  lemma DropHeadBytes(c: Cache, j: nat)
    requires Consistent(c) && 1 <= j <= |c.order|
    ensures c.order[0] in c.store && (forall u <- c.order[j..] :: u in c.store)
    ensures DropHead(c).order[j - 1..] == c.order[j..]
    ensures forall u <- c.order[j..] :: u in DropHead(c).store
    ensures Bytes(DropHead(c).store, c.order[j..]) == Bytes(c.store, c.order[j..])
  {
    DropHeadKeeps(c);
    forall u | u in c.order[j..] ensures u in c.store && u in DropHead(c).store {
      assert u in DropHead(c).order;
    }
    BytesFrame(c.store, DropHead(c).store, c.order[j..]);
  }

  /** What eviction removes is the shortest prefix that would do: with any shorter one the new bytes do not fit. */
  lemma {:induction false} EvictionIsMinimal(c: Cache, need: nat, j: nat)
    requires Consistent(c) && j < Evicted(c, need)
    ensures (forall u <- c.order[j..] :: u in c.store) && Bytes(c.store, c.order[j..]) + need > c.max
    decreases j
  {
    if j == 0 {
      assert c.order[0..] == c.order;
    } else {
      DropHeadKeeps(c);
      DropHeadBytes(c, j);
      EvictionIsMinimal(DropHead(c), need, j - 1);
    }
  }

  lemma InsertKeepsValid(c: Cache, u: Url, e: Entry)
    requires Valid(c) && u !in c.store && c.size + |e.raw| <= c.max
    ensures Valid(Insert(c, u, e))
  {
    var d := Insert(c, u, e);
    BytesFrame(c.store, d.store, c.order);
    BytesAppend(d.store, c.order, [u]);
    assert Bytes(d.store, [u]) == |e.raw| + Bytes(d.store, [u][1..]);
  }

  lemma PutKeepsValid(c: Cache, u: Url, raw: Raw, expires: int)
    requires Valid(c)
    ensures Valid(Put(c, u, raw, expires)) && Put(c, u, raw, expires).max == c.max
  {
    if Accepted(c.max, raw) {
      EvictKeepsSuffix(c, |raw|);
      var c1 := Evict(c, |raw|);
      if u in c1.store {
        DropKeepsValid(c1, u);
        InsertKeepsValid(Drop(c1, u), u, Entry(raw, expires));
      } else {
        InsertKeepsValid(c1, u, Entry(raw, expires));
      }
    }
  }

  lemma GetKeepsValid(c: Cache, u: Url, now: int)
    requires Valid(c)
    ensures Valid(Get(c, u, now).0)
  {
    if u in c.store && now > c.store[u].expires {
      DropKeepsValid(c, u);
    }
  }

  // ---------------------------------------------------------------------------
  // Whole histories
  // ---------------------------------------------------------------------------

  datatype Op = PutOp(url: Url, raw: Raw, expires: int) | GetOp(url: Url, now: int)

  function Empty(max: nat): Cache {
    Cache(map[], [], 0, max)
  }

  function Apply(c: Cache, op: Op): (d: Cache)
    requires Valid(c)
    ensures Valid(d) && d.max == c.max
  {
    match op
    case PutOp(u, raw, e) => PutKeepsValid(c, u, raw, e); Put(c, u, raw, e)
    case GetOp(u, now) => GetKeepsValid(c, u, now); Get(c, u, now).0
  }

  /** The cache after a history, oldest operation first. */
  function Replay(max: nat, ops: seq<Op>): (c: Cache)
    ensures Valid(c) && c.max == max
  {
    if ops == [] then Empty(max) else Apply(Replay(max, ops[..|ops| - 1]), ops[|ops| - 1])
  }

  predicate IsPut(max: nat, op: Op) {
    op.PutOp? && Accepted(max, op.raw)
  }

  /** An unbounded map of everything that was accepted, the last put of a url winning. */
  function Ideal(max: nat, ops: seq<Op>): map<Url, Entry> {
    if ops == [] then map[] else
    var before := Ideal(max, ops[..|ops| - 1]);
    var op := ops[|ops| - 1];
    if IsPut(max, op) then before[op.url := Entry(op.raw, op.expires)] else before
  }

  function Lookup(m: map<Url, Entry>, u: Url, now: int): Option<Raw> {
    if u in m && now <= m[u].expires then Some(m[u].raw) else None
  }

  /** The index of the last accepted put of u, or -1. */
  function LastPut(max: nat, ops: seq<Op>, u: Url): (i: int)
    ensures -1 <= i < |ops|
  {
    if ops == [] then -1 else
    var n := |ops| - 1;
    if IsPut(max, ops[n]) && ops[n].url == u then n else LastPut(max, ops[..n], u)
  }

  predicate Below(store: map<Url, Entry>, ideal: map<Url, Entry>) {
    forall u <- store :: u in ideal && store[u] == ideal[u]
  }

  ghost predicate InPutOrder(max: nat, ops: seq<Op>, order: seq<Url>) {
    forall i, j :: 0 <= i < j < |order| ==> LastPut(max, ops, order[i]) < LastPut(max, ops, order[j])
  }

  lemma {:induction false} RemoveKeepsPutOrder(max: nat, ops: seq<Op>, order: seq<Url>, u: Url)
    requires InPutOrder(max, ops, order)
    ensures InPutOrder(max, ops, Remove(order, u))
  {
    if order != [] && order[0] != u {
      RemoveKeepsPutOrder(max, ops, order[1..], u);
      var t := Remove(order[1..], u);
      forall j | 0 <= j < |t| ensures LastPut(max, ops, order[0]) < LastPut(max, ops, t[j]) {
        assert t[j] in order[1..];
      }
    }
  }

  /** The parts of a put, in terms of what was there before. */
  lemma PutParts(c: Cache, u: Url, raw: Raw, expires: int)
    requires Valid(c) && Accepted(c.max, raw)
    ensures var d := Put(c, u, raw, expires);
      && u in d.store && d.store[u] == Entry(raw, expires)
      && (forall v <- d.store :: v == u || (v in c.store && d.store[v] == c.store[v]))
      && d.order == Remove(c.order[Evicted(c, |raw|)..], u) + [u]
  {
    EvictKeepsSuffix(c, |raw|);
    var e := Evict(c, |raw|);
    assert u !in e.store ==> u !in e.order;
  }

  /** What the cache and its history have in common. */
  ghost predicate Faithful(max: nat, ops: seq<Op>, c: Cache) {
    && Below(c.store, Ideal(max, ops))
    && InPutOrder(max, ops, c.order)
    && forall u <- c.store :: Accepted(max, c.store[u].raw)
  }

  lemma PutKeepsOrder(max: nat, before: seq<Op>, op: Op, c: Cache)
    requires Valid(c) && c.max == max && IsPut(max, op) && InPutOrder(max, before, c.order)
    ensures InPutOrder(max, before + [op], Put(c, op.url, op.raw, op.expires).order)
  {
    PutParts(c, op.url, op.raw, op.expires);
    var kept := c.order[Evicted(c, |op.raw|)..];
    RemoveKeepsPutOrder(max, before, kept, op.url);
    RemoveKeeps(kept, op.url);
    LatestLast(max, before, op, Remove(kept, op.url));
  }

  /** The url of the latest put goes behind the others. */
  lemma LatestLast(max: nat, before: seq<Op>, op: Op, rest: seq<Url>)
    requires IsPut(max, op) && InPutOrder(max, before, rest) && op.url !in rest
    ensures InPutOrder(max, before + [op], rest + [op.url])
  {
    forall u ensures LastPut(max, before + [op], u) == if u == op.url then |before| else LastPut(max, before, u) {
      LastPutAfter(max, before, op, u);
    }
    assert forall i :: 0 <= i < |rest| ==> rest[i] != op.url;
  }

  lemma LastPutAfter(max: nat, before: seq<Op>, op: Op, u: Url)
    ensures LastPut(max, before + [op], u) ==
      if IsPut(max, op) && op.url == u then |before| else LastPut(max, before, u)
  {
    assert (before + [op])[..|before|] == before;
  }

  lemma PutKeepsFaithful(max: nat, before: seq<Op>, op: Op, c: Cache)
    requires Valid(c) && c.max == max && IsPut(max, op) && Faithful(max, before, c)
    ensures Faithful(max, before + [op], Put(c, op.url, op.raw, op.expires))
  {
    var ops := before + [op];
    assert ops[..|before|] == before;
    PutParts(c, op.url, op.raw, op.expires);
    PutKeepsOrder(max, before, op, c);
  }

  lemma OtherKeepsFaithful(max: nat, before: seq<Op>, op: Op, c: Cache)
    requires Valid(c) && c.max == max && !IsPut(max, op) && Faithful(max, before, c)
    ensures Faithful(max, before + [op], Apply(c, op))
  {
    hide Bytes, Consistent, Evict, Insert, LastPut, Remove;
    var ops := before + [op];
    assert ops[..|before|] == before;
    forall u ensures LastPut(max, ops, u) == LastPut(max, before, u) {
      LastPutAfter(max, before, op, u);
    }
    if op.GetOp? {
      RemoveKeepsPutOrder(max, before, c.order, op.url);
    }
  }

  lemma {:induction false} HistoryInvariant(max: nat, ops: seq<Op>)
    ensures Faithful(max, ops, Replay(max, ops))
    decreases |ops|
  {
    if ops != [] {
      var n := |ops| - 1;
      HistoryInvariant(max, ops[..n]);
      assert ops == ops[..n] + [ops[n]];
      if IsPut(max, ops[n]) {
        PutKeepsFaithful(max, ops[..n], ops[n], Replay(max, ops[..n]));
      } else {
        OtherKeepsFaithful(max, ops[..n], ops[n], Replay(max, ops[..n]));
      }
    }
  }

  /**
   * After any history the order lists exactly the stored urls, once each and in the order of their last accepted
   * put, the byte count is the sum of the stored lengths, and it stays within the bound.
   */
  lemma OrderIsLastPutOrder(max: nat, ops: seq<Op>)
    ensures var c := Replay(max, ops);
      && Distinct(c.order) && (forall u :: u in c.order <==> u in c.store)
      && InPutOrder(max, ops, c.order)
      && c.size == Bytes(c.store, c.order) && c.size <= max
  {
    HistoryInvariant(max, ops);
  }

  /** A get returns nothing, or exactly what an unbounded TTL map of the accepted puts would return. */
  lemma GetRefinesTtlMap(max: nat, ops: seq<Op>, u: Url, now: int)
    ensures var r := Get(Replay(max, ops), u, now).1;
      r == None || r == Lookup(Ideal(max, ops), u, now)
  {
    HistoryInvariant(max, ops);
  }

  // ---------------------------------------------------------------------------
  // When the cache answers exactly like the map
  // ---------------------------------------------------------------------------

  /** Every accepted put finds room, and gets are made at times that never go back, the last of them being `now`. */
  predicate RoomyUntil(max: nat, ops: seq<Op>, now: int)
    decreases |ops|
  {
    ops == [] ||
    var n := |ops| - 1;
    var op := ops[n];
    && (IsPut(max, op) ==> Replay(max, ops[..n]).size + |op.raw| <= max)
    && (op.GetOp? ==> op.now <= now)
    && RoomyUntil(max, ops[..n], if op.GetOp? then op.now else now)
  }

  lemma {:induction false} RoomyStoreIsComplete(max: nat, ops: seq<Op>, now: int, u: Url)
    requires RoomyUntil(max, ops, now) && u in Ideal(max, ops)
    ensures u in Replay(max, ops).store || Ideal(max, ops)[u].expires < now
    decreases |ops|
  {
    var n := |ops| - 1;
    var before, op := ops[..n], ops[n];
    var c := Replay(max, before);
    if IsPut(max, op) {
      PutParts(c, op.url, op.raw, op.expires);
      assert Evict(c, |op.raw|) == c;
      if op.url != u {
        RoomyStoreIsComplete(max, before, now, u);
      }
    } else if op.GetOp? {
      RoomyStoreIsComplete(max, before, op.now, u);
      HistoryInvariant(max, before);
    } else {
      RoomyStoreIsComplete(max, before, now, u);
    }
  }

  /** With room for everything and a clock that does not go back, the answer is the map's answer. */
  lemma ExactWhenRoomy(max: nat, ops: seq<Op>, u: Url, now: int)
    requires RoomyUntil(max, ops, now)
    ensures Get(Replay(max, ops), u, now).1 == Lookup(Ideal(max, ops), u, now)
  {
    HistoryInvariant(max, ops);
    if u in Ideal(max, ops) {
      RoomyStoreIsComplete(max, ops, now, u);
    }
  }

  // ---------------------------------------------------------------------------
  // Two things the cache does not do
  // ---------------------------------------------------------------------------

  /** The cache after more operations. */
  function Continue(c: Cache, ops: seq<Op>): (d: Cache)
    requires Valid(c)
    ensures Valid(d) && d.max == c.max
    decreases |ops|
  {
    if ops == [] then c else Continue(Apply(c, ops[0]), ops[1..])
  }

  /** A get at time now, after a put of u and later operations, returns nothing or that put, unexpired. */
  predicate StaleFree(c: Cache, put: Op, later: seq<Op>, now: int)
    requires Valid(c) && put.PutOp?
  {
    var r := Get(Continue(Apply(c, put), later), put.url, now).1;
    r == None || (now <= put.expires && r == Some(put.raw))
  }

  /** No put of u among the operations is accepted. */
  predicate LeavesAlone(max: nat, ops: seq<Op>, u: Url) {
    forall i :: 0 <= i < |ops| ==> !(IsPut(max, ops[i]) && ops[i].url == u)
  }

  /** After a put at time t and until the next accepted put of its url, no get from t on returns anything older. */
  ghost predicate NeverStale(c: Cache, put: Op, t: int)
    requires Valid(c) && put.PutOp?
  {
    forall later: seq<Op>, now: int :: LeavesAlone(c.max, later, put.url) && t <= now ==> StaleFree(c, put, later, now)
  }

  /** What is stored for u, if anything, is e or has expired before t. */
  predicate HoldsOrExpired(c: Cache, u: Url, e: Option<Entry>, t: int) {
    u in c.store ==> Some(c.store[u]) == e || c.store[u].expires < t
  }

  lemma ApplyKeepsEntry(c: Cache, op: Op, u: Url, e: Option<Entry>, t: int)
    requires Valid(c) && HoldsOrExpired(c, u, e, t) && !(IsPut(c.max, op) && op.url == u)
    ensures HoldsOrExpired(Apply(c, op), u, e, t)
  {
    if IsPut(c.max, op) {
      PutParts(c, op.url, op.raw, op.expires);
    }
  }

  lemma {:induction false} ContinueKeepsEntry(c: Cache, ops: seq<Op>, u: Url, e: Option<Entry>, t: int)
    requires Valid(c) && HoldsOrExpired(c, u, e, t) && LeavesAlone(c.max, ops, u)
    ensures HoldsOrExpired(Continue(c, ops), u, e, t)
    decreases |ops|
  {
    hide HoldsOrExpired, Apply, IsPut;
    if ops != [] {
      ApplyKeepsEntry(c, ops[0], u, e, t);
      ContinueKeepsEntry(Apply(c, ops[0]), ops[1..], u, e, t);
    }
  }

  lemma FreshFromEntry(c: Cache, put: Op, e: Option<Entry>, t: int, later: seq<Op>, now: int)
    requires Valid(c) && put.PutOp? && (e == None || e == Some(Entry(put.raw, put.expires)))
    requires HoldsOrExpired(Apply(c, put), put.url, e, t) && LeavesAlone(c.max, later, put.url) && t <= now
    ensures StaleFree(c, put, later, now)
  {
    ContinueKeepsEntry(Apply(c, put), later, put.url, e, t);
  }

  /**
   * After any history and a put at time t, nothing older is ever returned for its url until the next accepted put of
   * it, exactly when the put is accepted, or its url is not stored, or what is stored has expired by then.
   */
  lemma NeverStaleIff(max: nat, ops: seq<Op>, put: Op, t: int)
    requires put.PutOp?
    ensures var c := Replay(max, ops);
      NeverStale(c, put, t) <==> Accepted(max, put.raw) || put.url !in c.store || c.store[put.url].expires < t
  {
    var c := Replay(max, ops);
    HistoryInvariant(max, ops);
    if Accepted(max, put.raw) {
      PutParts(c, put.url, put.raw, put.expires);
      forall later: seq<Op>, now: int | LeavesAlone(max, later, put.url) && t <= now
        ensures StaleFree(c, put, later, now)
      {
        FreshFromEntry(c, put, Some(Entry(put.raw, put.expires)), t, later, now);
      }
    } else if put.url !in c.store || c.store[put.url].expires < t {
      forall later: seq<Op>, now: int | LeavesAlone(max, later, put.url) && t <= now
        ensures StaleFree(c, put, later, now)
      {
        FreshFromEntry(c, put, None, t, later, now);
      }
    } else {
      assert !StaleFree(c, put, [], c.store[put.url].expires);
    }
  }

  const MB: nat := 1024 * 1024

  /** A response of n bytes. */
  function Fill(n: nat): (raw: Raw)
    ensures |raw| == n
  {
    seq(n, _ => 'x')
  }

  /** In a cache of any size, a response that is too large leaves the one before it in place. */
  lemma RefusedPutIsStale(maxMB: nat)
    requires maxMB >= 1
    ensures var max := maxMB * MB;
      !NeverStale(Replay(max, [PutOp("a", "1", 5)]), PutOp("a", Fill(max / 4 + 1), 9), 3)
  {
    var max := maxMB * MB;
    assert max >= 4;
    ReplayFits(max, [], PutOp("a", "1", 5));
    assert [] + [PutOp("a", "1", 5)] == [PutOp("a", "1", 5)];
    NeverStaleIff(max, [PutOp("a", "1", 5)], PutOp("a", Fill(max / 4 + 1), 9), 3);
  }

  lemma PutFits(c: Cache, u: Url, raw: Raw, expires: int)
    requires Valid(c) && Accepted(c.max, raw) && c.size + |raw| <= c.max && u !in c.store
    ensures Put(c, u, raw, expires) == Insert(c, u, Entry(raw, expires))
  {
  }

  lemma ReplayFits(max: nat, ops: seq<Op>, op: Op)
    requires IsPut(max, op) && op.url !in Replay(max, ops).store && Replay(max, ops).size + |op.raw| <= max
    ensures Replay(max, ops + [op]) == Insert(Replay(max, ops), op.url, Entry(op.raw, op.expires))
  {
    assert (ops + [op])[..|ops|] == ops;
    PutFits(Replay(max, ops), op.url, op.raw, op.expires);
  }

  /** A put of q bytes that expires at 9. */
  function QuarterPut(u: Url, q: nat): Op {
    PutOp(u, Fill(q), 9)
  }

  function FourPuts(q: nat): seq<Op> {
    [QuarterPut("a", q), QuarterPut("b", q), QuarterPut("c", q), QuarterPut("d", q)]
  }

  lemma QuarterFits(q: nat, ops: seq<Op>, u: Url)
    requires q >= 1 && u !in Replay(4 * q, ops).store && Replay(4 * q, ops).size <= 3 * q
    ensures Replay(4 * q, ops + [QuarterPut(u, q)]) == Insert(Replay(4 * q, ops), u, Entry(Fill(q), 9))
  {
    assert Accepted(4 * q, Fill(q)) by {
      assert 4 * q / 4 == q;
    }
    hide Replay, Insert;
    ReplayFits(4 * q, ops, QuarterPut(u, q));
  }

  lemma TwoPutsFill(q: nat)
    requires q >= 1
    ensures var e := Entry(Fill(q), 9);
      Replay(4 * q, FourPuts(q)[..2]) == Cache(map["a" := e, "b" := e], ["a", "b"], 2 * q, 4 * q)
  {
    QuarterFits(q, [], "a");
    QuarterFits(q, [QuarterPut("a", q)], "b");
    assert FourPuts(q)[..2] == [QuarterPut("a", q)] + [QuarterPut("b", q)];
    assert [] + [QuarterPut("a", q)] == [QuarterPut("a", q)];
  }

  lemma FourPutsFill(q: nat)
    requires q >= 1
    ensures var c := Replay(4 * q, FourPuts(q));
      && c.order == ["a", "b", "c", "d"] && c.size == 4 * q && "e" !in c.store
      && "a" in c.store && c.store["a"] == Entry(Fill(q), 9)
  {
    hide Replay;
    TwoPutsFill(q);
    QuarterFits(q, FourPuts(q)[..2], "c");
    assert FourPuts(q)[..2] + [QuarterPut("c", q)] == FourPuts(q)[..3];
    QuarterFits(q, FourPuts(q)[..3], "d");
    assert FourPuts(q)[..3] + [QuarterPut("d", q)] == FourPuts(q);
  }

  /** A full cache evicts exactly the head of its order for a put that is not larger than that. */
  lemma OneOut(c: Cache, u: Url, raw: Raw, expires: int)
    requires Valid(c) && c.size == c.max && Accepted(c.max, raw) && u !in c.store
    requires c.order != [] && c.order[0] in c.store && |raw| <= |c.store[c.order[0]].raw|
    ensures Put(c, u, raw, expires).order == c.order[1..] + [u]
  {
    PutParts(c, u, raw, expires);
    DropHeadKeeps(c);
    assert Evicted(c, |raw|) == 1;
    assert u !in c.order[1..];
  }

  /**
   * Serving a response does not protect it: in a full cache of any size, filled by four puts, a get of "a" does not
   * save it from the fifth put.
   */
  lemma EvictsRecentlyUsed(maxMB: nat)
    requires maxMB >= 1
    ensures var max := maxMB * MB;
      var c := Replay(max, FourPuts(max / 4));
      && Get(c, "a", 5) == (c, Some(Fill(max / 4)))
      && "a" !in Put(c, "e", "5", 9).store && "b" in Put(c, "e", "5", 9).store
  {
    hide Replay, FourPuts, Put;
    FullCacheEvictsFirst(maxMB * 262144);
    assert maxMB * MB == 4 * (maxMB * 262144) && maxMB * MB / 4 == maxMB * 262144;
  }

  lemma FullCacheEvictsFirst(q: nat)
    requires q >= 1
    ensures var c := Replay(4 * q, FourPuts(q));
      && Get(c, "a", 5) == (c, Some(Fill(q)))
      && "a" !in Put(c, "e", "5", 9).store && "b" in Put(c, "e", "5", 9).store
  {
    hide Replay, FourPuts, Bytes, Evict;
    FourPutsFill(q);
    var c := Replay(4 * q, FourPuts(q));
    OneOut(c, "e", "5", 9);
    PutKeepsValid(c, "e", "5", 9);
    var d := Put(c, "e", "5", 9);
    assert d.order == ["b", "c", "d", "e"];
    assert d.order[0] == "b";
  }
}
