// proxy/config.go: normalizeDomainsForKey. Two domain lists get the same key when they name the same domains.
module MergeKeys {
  import opened Sequences
  import opened Strings

  // ---------------------------------------------------------------------------
  // Sorting strings
  // ---------------------------------------------------------------------------

  /** Lexicographic order, character by character. */
  predicate Leq(a: string, b: string) {
    a == "" || (b != "" && (a[0] < b[0] || (a[0] == b[0] && Leq(a[1..], b[1..]))))
  }

  lemma {:induction false} LeqTotal(a: string, b: string)
    ensures Leq(a, b) || Leq(b, a)
    ensures Leq(a, b) && Leq(b, a) ==> a == b
  {
    if a != "" && b != "" && a[0] == b[0] {
      LeqTotal(a[1..], b[1..]);
      assert a == [a[0]] + a[1..] && b == [b[0]] + b[1..];
    }
  }

  lemma {:induction false} LeqTransitive(a: string, b: string, c: string)
    requires Leq(a, b) && Leq(b, c)
    ensures Leq(a, c)
  {
    if a != "" && a[0] == b[0] == c[0] {
      LeqTransitive(a[1..], b[1..], c[1..]);
    }
  }

  predicate Sorted(xs: seq<string>) {
    forall i, j :: 0 <= i < j < |xs| ==> Leq(xs[i], xs[j])
  }

  function Elements(xs: seq<string>): set<string> {
    set x | x in xs
  }

  function Insert(xs: seq<string>, x: string): (r: seq<string>)
    ensures |r| == |xs| + 1
  {
    if xs == [] || Leq(x, xs[0]) then [x] + xs else [xs[0]] + Insert(xs[1..], x)
  }

  lemma {:induction false} InsertElements(xs: seq<string>, x: string)
    ensures forall y :: y in Insert(xs, x) <==> y == x || y in xs
    ensures Distinct(xs) && x !in xs ==> Distinct(Insert(xs, x))
  {
    hide Leq;
    if xs != [] && !Leq(x, xs[0]) {
      InsertElements(xs[1..], x);
      assert xs == [xs[0]] + xs[1..];
      var r := Insert(xs[1..], x);
      assert forall j :: 0 <= j < |r| ==> r[j] in r;
    }
  }

  lemma {:induction false} InsertSorts(xs: seq<string>, x: string)
    requires Sorted(xs)
    ensures Sorted(Insert(xs, x))
  {
    if xs == [] {
    } else if Leq(x, xs[0]) {
      forall j | 0 <= j < |xs| ensures Leq(x, xs[j]) {
        if j > 0 { LeqTransitive(x, xs[0], xs[j]); }
      }
    } else {
      InsertSorts(xs[1..], x);
      InsertElements(xs[1..], x);
      LeqTotal(x, xs[0]);
      var r := Insert(xs[1..], x);
      forall j | 0 <= j < |r| ensures Leq(xs[0], r[j]) {
        assert r[j] in r;
        if r[j] != x {
          var k :| 0 <= k < |xs[1..]| && xs[1..][k] == r[j];
          assert xs[k + 1] == r[j];
        }
      }
    }
  }

  /** What sort.Strings leaves in the slice. */
  function SortStrings(xs: seq<string>): seq<string> {
    if xs == [] then [] else Insert(SortStrings(xs[..|xs| - 1]), xs[|xs| - 1])
  }

  lemma {:induction false} SortSorts(xs: seq<string>)
    ensures Sorted(SortStrings(xs)) && Elements(SortStrings(xs)) == Elements(xs)
    ensures Distinct(xs) ==> Distinct(SortStrings(xs))
  {
    if xs != [] {
      var n := |xs| - 1;
      SortSorts(xs[..n]);
      InsertSorts(SortStrings(xs[..n]), xs[n]);
      InsertElements(SortStrings(xs[..n]), xs[n]);
      assert xs == xs[..n] + [xs[n]];
      assert forall y :: y in SortStrings(xs[..n]) <==> y in Elements(xs[..n]);
      assert Distinct(xs) ==> xs[n] !in Elements(xs[..n]);
    }
  }

  /** A set has only one strictly sorted listing. */
  lemma {:induction false} SortedUnique(xs: seq<string>, ys: seq<string>)
    requires Sorted(xs) && Sorted(ys) && Distinct(xs) && Distinct(ys) && Elements(xs) == Elements(ys)
    ensures xs == ys
  {
    if ys != [] { assert ys[0] in Elements(ys); }
    if xs != [] {
      assert xs[0] in Elements(ys);
      assert ys[0] in Elements(xs);
      LeqTotal(xs[0], ys[0]);
      assert xs[0] == ys[0];
      TailElements(xs);
      TailElements(ys);
      SortedUnique(xs[1..], ys[1..]);
      assert xs == [xs[0]] + xs[1..] && ys == [ys[0]] + ys[1..];
    }
  }

  lemma TailElements(xs: seq<string>)
    requires xs != [] && Distinct(xs)
    ensures Elements(xs[1..]) == Elements(xs) - {xs[0]}
  {
    assert xs == [xs[0]] + xs[1..];
  }

  // ---------------------------------------------------------------------------
  // The key of a domain list
  // ---------------------------------------------------------------------------

  /** The domains of a list: trimmed, in lower case, without the empty ones. */
  function NormSet(domains: seq<string>): set<string> {
    set d | d in domains && Normal(d) != "" :: Normal(d)
  }

  /** The same as a list, each at its first occurrence. */
  function Dedup(domains: seq<string>): (r: seq<string>)
    ensures Distinct(r) && Elements(r) == NormSet(domains)
  {
    if domains == [] then [] else
    var n := |domains| - 1;
    var before := Dedup(domains[..n]);
    var x := Normal(domains[n]);
    assert domains == domains[..n] + [domains[n]];
    if x == "" || x in before then
      assert x in before ==> x in Elements(before);
      before
    else
      assert x !in Elements(before);
      assert Elements(before + [x]) == Elements(before) + {x};
      before + [x]
  }

  function DomainKey(domains: seq<string>): string {
    Join(SortStrings(Dedup(domains)), ',')
  }

  method NormalizeDomainsForKey(domains: seq<string>) returns (key: string)
    ensures key == DomainKey(domains)
  {
    if |domains| == 0 {
      return "";
    }
    var seen: set<string> := {};
    var out: seq<string> := [];
    for i := 0 to |domains|
      invariant out == Dedup(domains[..i]) && seen == Elements(out)
    {
      assert domains[..i + 1][..i] == domains[..i];
      var n := Normal(domains[i]);
      if n != "" && n !in seen {
        assert n !in out;
        seen := seen + {n};
        out := out + [n];
      } else {
        assert n == "" || n in out;
      }
    }
    assert domains[..|domains|] == domains;
    var sorted := SortStrings(out);
    return Join(sorted, ',');
  }

  predicate CommaFree(domains: seq<string>) {
    forall n <- NormSet(domains) :: ',' !in n
  }

  lemma {:induction false} JoinEmpty(parts: seq<string>)
    requires forall p <- parts :: p != ""
    ensures Join(parts, ',') == "" <==> parts == []
  {
    if parts != [] {
      assert parts[0] in parts;
    }
  }

  lemma JoinInjective(a: seq<string>, b: seq<string>)
    requires forall p <- a + b :: p != "" && ',' !in p
    requires Join(a, ',') == Join(b, ',')
    ensures a == b
  {
    assert forall p <- a :: p in a + b;
    assert forall p <- b :: p in a + b;
    JoinEmpty(a);
    JoinEmpty(b);
    if a != [] {
      SplitJoin(a, ',');
      SplitJoin(b, ',');
    }
  }

  /** The key is canonical: comma-free lists share a key exactly when they name the same domains. */
  lemma KeyIsCanonical(a: seq<string>, b: seq<string>)
    requires CommaFree(a) && CommaFree(b)
    ensures DomainKey(a) == DomainKey(b) <==> NormSet(a) == NormSet(b)
  {
    var x, y := SortStrings(Dedup(a)), SortStrings(Dedup(b));
    SortSorts(Dedup(a));
    SortSorts(Dedup(b));
    if NormSet(a) == NormSet(b) {
      SortedUnique(x, y);
    }
    if DomainKey(a) == DomainKey(b) {
      forall p | p in x + y ensures p != "" && ',' !in p {
        assert p in Elements(x) || p in Elements(y);
      }
      JoinInjective(x, y);
    }
  }

  lemma OneDomain(d: string)
    requires Normal(d) == d && d != ""
    ensures Dedup([d]) == [d] && SortStrings([d]) == [d] && DomainKey([d]) == d && NormSet([d]) == {d}
  {
    assert [d][..0] == [];
    assert SortStrings([d]) == Insert([], d);
  }

  lemma TwoDomains(a: string, b: string)
    requires Normal(a) == a && Normal(b) == b && a != "" && b != "" && a != b && Leq(a, b)
    ensures Dedup([a, b]) == [a, b] && SortStrings([a, b]) == [a, b] && NormSet([a, b]) == {a, b}
  {
    OneDomain(a);
    LeqTotal(a, b);
    assert [a, b][..1] == [a];
    SortTwo(a, b);
  }

  lemma KeyOfTwo(a: string, b: string)
    requires Normal(a) == a && Normal(b) == b && a != "" && b != "" && a != b && Leq(a, b)
    ensures DomainKey([a, b]) == a + [','] + b && NormSet([a, b]) == {a, b}
  {
    hide Dedup, SortStrings, NormSet, Leq, Normal;
    TwoDomains(a, b);
    assert [a, b][1..] == [b] && Join([b], ',') == b;
    assert Join([a, b], ',') == a + [','] + Join([a, b][1..], ',');
  }

  lemma SortTwo(a: string, b: string)
    requires Leq(a, b) && a != b
    ensures SortStrings([a, b]) == [a, b]
  {
    LeqTotal(a, b);
    assert [a, b][..1] == [a] && [a][..0] == [];
    assert SortStrings([a]) == Insert([], a) == [a];
    assert [a][1..] == [];
    assert Insert([a], b) == [a] + Insert([], b);
  }

  // ---------------------------------------------------------------------------
  // Which lists can be told from their key
  // ---------------------------------------------------------------------------

  lemma {:induction false} LeqExtend(a: string, b: string, c: string)
    requires Leq(a, b)
    ensures Leq(a, b + c)
  {
    if a != "" && a[0] == b[0] {
      LeqExtend(a[1..], b[1..], c);
      assert (b + c)[1..] == b[1..] + c;
    }
  }

  predicate Parts(y: seq<string>) {
    Sorted(y) && Distinct(y) && forall p <- y :: p != "" && Tidy(p)
  }

  /** The sorted domains that a key joins. */
  lemma KeyParts(a: seq<string>) returns (y: seq<string>)
    ensures DomainKey(a) == Join(y, ',') && Parts(y) && Elements(y) == NormSet(a)
  {
    y := SortStrings(Dedup(a));
    SortSorts(Dedup(a));
    forall p | p in y ensures p != "" && Tidy(p) {
      assert p in Elements(y);
      var d :| d in a && Normal(d) != "" && Normal(d) == p;
      NormalIsTidy(d);
    }
  }

  lemma JoinedTidy(u: string, v: string)
    requires u != "" && v != "" && Tidy(u) && Tidy(v)
    ensures u + [','] + v != "" && Tidy(u + [','] + v)
  {
  }

  lemma {:induction false} JoinTidy(y: seq<string>)
    requires y != [] && forall p <- y :: p != "" && Tidy(p)
    ensures Join(y, ',') != "" && Tidy(Join(y, ','))
  {
    assert y[0] in y;
    if |y| > 1 {
      assert forall p <- y[1..] :: p in y;
      JoinTidy(y[1..]);
      JoinedTidy(y[0], Join(y[1..], ','));
    }
  }

  /** The comma at i parts d into two domains in their order. */
  predicate SplitsInTwo(d: string, i: nat) {
    && i < |d| && d[i] == ','
    && var u, v := d[..i], d[i + 1..];
       u != "" && v != "" && Tidy(u) && Tidy(v) && u != v && Leq(u, v)
  }

  lemma FirstIsLess(u: string, p: string, w: string)
    requires Leq(u, p) && u != p
    ensures Leq(u, p + w) && u != p + w
  {
    LeqExtend(u, p, w);
    LeqTotal(p, p);
    LeqExtend(p, p, w);
    LeqTotal(u, p);
  }

  lemma SplitsBetween(u: string, v: string)
    requires u != "" && v != "" && Tidy(u) && Tidy(v) && u != v && Leq(u, v)
    ensures SplitsInTwo(u + [','] + v, |u|) && |u| < |u + [','] + v|
  {
    hide Tidy, Leq;
    var d := u + [','] + v;
    assert d[..|u|] == u && d[|u| + 1..] == v;
  }

  /** A key of several domains can be parted behind the first. */
  lemma SeveralSplit(y: seq<string>)
    requires Parts(y) && |y| >= 2
    ensures |y[0]| < |Join(y, ',')| && SplitsInTwo(Join(y, ','), |y[0]|)
  {
    hide Tidy, Leq, SplitsInTwo;
    var u, v := y[0], Join(y[1..], ',');
    assert y[0] in y;
    assert forall p <- y[1..] :: p in y;
    JoinTidy(y[1..]);
    assert Leq(y[0], y[1]);
    if |y| > 2 {
      assert v == y[1] + ([','] + Join(y[1..][1..], ','));
      FirstIsLess(u, y[1], [','] + Join(y[1..][1..], ','));
    }
    SplitsBetween(u, v);
  }

  /** At most one domain, and none of its commas parts it into two domains in their order. */
  predicate Unambiguous(names: set<string>) {
    |names| <= 1 && forall d <- names :: forall i :: 0 <= i < |d| ==> !SplitsInTwo(d, i)
  }

  /** The key of a list is the key of no list of other domains. */
  ghost predicate KeyIdentifies(a: seq<string>) {
    forall b: seq<string> :: DomainKey(b) == DomainKey(a) ==> NormSet(b) == NormSet(a)
  }

  lemma {:induction false} SizeOfElements(y: seq<string>)
    requires Distinct(y)
    ensures |Elements(y)| == |y|
  {
    if y == [] {
      assert Elements(y) == {};
    } else {
      SizeOfElements(y[1..]);
      TailElements(y);
      assert y[0] in Elements(y);
    }
  }

  lemma OnlyElement(y: seq<string>, d: string)
    requires |y| <= 1 && Distinct(y) && d in Elements(y)
    ensures y == [d] && Elements(y) == {d} && Join(y, ',') == d
  {
  }

  /** The one domain that spells the key of several. */
  lemma JoinCollides(y: seq<string>)
    requires Parts(y) && |y| >= 2
    ensures DomainKey([Join(y, ',')]) == Join(y, ',') && |NormSet([Join(y, ',')])| == 1
  {
    JoinTidy(y);
    TidyIff(Join(y, ','));
    OneDomain(Join(y, ','));
  }

  /** The two domains that a comma parts one into. */
  lemma CommaCollides(d: string, i: nat)
    requires SplitsInTwo(d, i)
    ensures DomainKey([d[..i], d[i + 1..]]) == d && d !in NormSet([d[..i], d[i + 1..]])
  {
    hide DomainKey, NormSet, Tidy, Normal, Leq;
    var u, v := d[..i], d[i + 1..];
    TidyIff(u);
    TidyIff(v);
    KeyOfTwo(u, v);
    assert d == u + [','] + v && d != u && d != v;
  }

  /** Another list with the key of a. */
  lemma Collision(a: seq<string>) returns (b: seq<string>)
    requires !Unambiguous(NormSet(a))
    ensures DomainKey(b) == DomainKey(a) && NormSet(b) != NormSet(a)
  {
    hide DomainKey, NormSet, Parts, SplitsInTwo, Join;
    var y := KeyParts(a);
    SizeOfElements(y);
    if |y| >= 2 {
      b := [Join(y, ',')];
      JoinCollides(y);
    } else {
      var d, i :| d in NormSet(a) && 0 <= i < |d| && SplitsInTwo(d, i);
      OnlyElement(y, d);
      b := [d[..i], d[i + 1..]];
      CommaCollides(d, i);
    }
  }

  lemma NoCollision(a: seq<string>, b: seq<string>)
    requires Unambiguous(NormSet(a)) && DomainKey(b) == DomainKey(a)
    ensures NormSet(b) == NormSet(a)
  {
    hide Join, NormSet, DomainKey, SplitsInTwo, Tidy, Leq;
    var x := KeyParts(a);
    var y := KeyParts(b);
    SizeOfElements(x);
    JoinEmpty(x);
    JoinEmpty(y);
    if |x| == 1 {
      OnlyElement(x, x[0]);
      if |y| >= 2 {
        SeveralSplit(y);
      } else if |y| == 1 {
        OnlyElement(y, y[0]);
      }
    }
  }

  /**
   * A list of domains can be told from its key exactly when it names at most one domain, and no comma in that one
   * parts it into two.
   */
  lemma KeyIdentifiesIff(a: seq<string>)
    ensures KeyIdentifies(a) <==> Unambiguous(NormSet(a))
  {
    if Unambiguous(NormSet(a)) {
      forall b: seq<string> | DomainKey(b) == DomainKey(a) ensures NormSet(b) == NormSet(a) {
        NoCollision(a, b);
      }
    } else {
      var b := Collision(a);
    }
  }

  /** With a comma in a domain, two different lists can share a key. */
  lemma CommaCollision()
    ensures DomainKey(["a,b"]) == DomainKey(["a", "b"]) && NormSet(["a,b"]) != NormSet(["a", "b"])
  {
    assert Lower("a,b") == "a,b" && Lower("a") == "a" && Lower("b") == "b";
    OneDomain("a,b");
    TwoDomains("a", "b");
    assert ["a", "b"][1..] == ["b"];
    assert "a,b" !in {"a", "b"};
  }
}
