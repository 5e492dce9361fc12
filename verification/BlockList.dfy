// proxy/gfwlist.go: the list of blocked domains.
module BlockList {
  import opened Strings

  /** Lines that LoadFromReader takes as a domain. */
  predicate Keeps(line: string) {
    var l := Trim(line);
    && l != "" && !HasPrefix(l, "#") && !HasPrefix(l, "!")
    && !HasPrefix(l, "Source:") && !HasPrefix(l, "---")
  }

  function Domains(lines: seq<string>): (r: set<string>)
    ensures "" !in r
  {
    set l | l in lines && Keeps(l) :: Normal(l)
  }

  function CountKept(lines: seq<string>): nat {
    if lines == [] then 0 else CountKept(lines[..|lines| - 1]) + if Keeps(lines[|lines| - 1]) then 1 else 0
  }

  /** A line with a domain, white space around it allowed, is taken, and the domain in small letters is what it adds. */
  lemma DomainLine(front: string, d: string, back: string)
    requires AllSpace(front) && AllSpace(back) && d != "" && Bare(d)
    requires d[0] != '#' && d[0] != '!' && d[0] != '-' && d[0] != 'S'
    ensures Keeps(front + d + back) && Normal(front + d + back) == Lower(d)
  {
    TrimStrips(front, d, back);
  }

  /** Blank lines and the four kinds of comment are not taken, whatever follows. */
  lemma CommentLines(front: string, rest: string)
    requires AllSpace(front)
    ensures !Keeps(front)
    ensures !Keeps(front + "#" + rest) && !Keeps(front + "!" + rest)
    ensures !Keeps(front + "Source:" + rest) && !Keeps(front + "---" + rest)
  {
    TrimOfSpace(front);
    TrimKeepsStart(front, "#", rest);
    TrimKeepsStart(front, "!", rest);
    TrimKeepsStart(front, "Source:", rest);
    TrimKeepsStart(front, "---", rest);
  }

  predicate PlainLine(line: string) {
    line != "" && Tidy(line) && line[0] != '#' && line[0] != '!' && line[0] != '-'
  }

  /** From lines that hold nothing but domains, all of them are loaded, and all lines are counted. */
  lemma {:induction false} PlainLinesLoad(lines: seq<string>)
    requires forall l <- lines :: PlainLine(l)
    ensures CountKept(lines) == |lines| && forall d :: d in Domains(lines) <==> d in lines
  {
    hide Keeps, Normal, PlainLine;
    forall l | l in lines ensures Keeps(l) && Normal(l) == l {
      PlainLineKept(l);
    }
    PlainLinesCount(lines);
    forall d ensures d in Domains(lines) <==> d in lines {
      if d in lines {
        assert Keeps(d) && Normal(d) == d;
      }
    }
  }

  lemma PlainLineKept(l: string)
    requires PlainLine(l)
    ensures Keeps(l) && Normal(l) == l
  {
    TidyIff(l);
    assert "" + l + "" == l;
    hide Keeps, Normal;
    DomainLine("", l, "");
  }

  /** Lines of which none is taken load nothing and count for nothing. */
  lemma {:induction false} OtherLinesDoNotCount(lines: seq<string>)
    requires forall l <- lines :: !Keeps(l)
    ensures CountKept(lines) == 0 && Domains(lines) == {}
  {
    hide Keeps, Normal;
    if lines != [] {
      OtherLinesDoNotCount(lines[..|lines| - 1]);
    }
  }

  lemma {:induction false} PlainLinesCount(lines: seq<string>)
    requires forall l <- lines :: Keeps(l)
    ensures CountKept(lines) == |lines|
  {
    if lines != [] {
      hide Keeps;
      PlainLinesCount(lines[..|lines| - 1]);
    }
  }

  class GFWList {
    var domains: set<string>
    var count: nat

    predicate Valid()
      reads this
    {
      "" !in domains
    }

    constructor ()
      ensures Valid() && domains == {} && count == 0
    {
      domains, count := {}, 0;
    }

    /** `failed` is a read error after the given lines: the list then stays as it was. */
    method LoadFromReader(lines: seq<string>, failed: bool) returns (n: nat)
      requires Valid()
      modifies this
      ensures Valid()
      ensures failed ==> n == 0 && domains == old(domains) && count == old(count)
      ensures !failed ==> domains == Domains(lines) && count == n == CountKept(lines)
    {
      var loaded: set<string> := {};
      n := 0;
      for i := 0 to |lines|
        invariant loaded == Domains(lines[..i]) && n == CountKept(lines[..i])
      {
        assert lines[..i + 1] == lines[..i] + [lines[i]];
        assert lines[..i + 1][..i] == lines[..i];
        if Keeps(lines[i]) {
          loaded := loaded + {Normal(lines[i])};
          n := n + 1;
        }
      }
      assert lines[..|lines|] == lines;
      if failed { return 0; }
      domains, count := loaded, n;
    }

    /** The walk over the parents of the host finds exactly the hosts below a listed domain. */
    method IsBlocked(host: string) returns (blocked: bool)
      requires Valid()
      ensures blocked <==> exists d <- domains :: Covers(d, Normal(host))
    {
      var h := Normal(host);
      if h == "" {
        return false;
      }
      if domains == {} {
        return false;
      }
      if h in domains {
        assert Covers(h, h);
        return true;
      }
      var parts := Split(h, '.');
      var i := 1;
      while i < |parts|
        invariant 1 <= i <= |parts|
        invariant forall j :: 1 <= j < i ==> Join(parts[j..], '.') !in domains
      {
        var parent := Join(parts[i..], '.');
        if parent in domains {
          ParentIsSuffix(h, i);
          assert Covers(parent, h);
          return true;
        }
        i := i + 1;
      }
      forall d | d in domains ensures !Covers(d, h) {
        if HasSuffix(h, "." + d) {
          var j := SuffixIsParent(h, d);
        }
      }
      return false;
    }
  }
}
