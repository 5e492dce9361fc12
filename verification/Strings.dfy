// The few string operations of the source's standard library that routing and import rely on.
// Case folding and white space are those of ASCII.
module Strings {

  function LowerChar(c: char): char {
    if 'A' <= c <= 'Z' then c + ('a' - 'A') else c
  }

  function Lower(s: string): (r: string)
    ensures |r| == |s|
  {
    seq(|s|, i requires 0 <= i < |s| => LowerChar(s[i]))
  }

  predicate IsSpace(c: char) {
    c == ' ' || '\t' <= c <= '\r'
  }

  function TrimLeft(s: string): string {
    if s != "" && IsSpace(s[0]) then TrimLeft(s[1..]) else s
  }

  function TrimRight(s: string): string {
    if s != "" && IsSpace(s[|s| - 1]) then TrimRight(s[..|s| - 1]) else s
  }

  function Trim(s: string): string {
    TrimRight(TrimLeft(s))
  }

  function Normal(s: string): string {
    Lower(Trim(s))
  }

  /** s is the word w, written in small or capital letters. */
  predicate EqualFold(s: string, w: string) {
    && |s| == |w|
    && forall i :: 0 <= i < |s| ==> s[i] == w[i] || ('a' <= w[i] <= 'z' && s[i] == w[i] - ('a' - 'A'))
  }

  /** No capital letter of ASCII. */
  predicate Small(w: string) {
    forall i :: 0 <= i < |w| ==> !('A' <= w[i] <= 'Z')
  }

  /** Exactly the spellings of a word in small letters are lowered to it. */
  lemma LowerIff(s: string, w: string)
    requires Small(w)
    ensures Lower(s) == w <==> EqualFold(s, w)
  {
    if EqualFold(s, w) {
      forall i | 0 <= i < |s| ensures Lower(s)[i] == w[i] {
        assert LowerChar(s[i]) == w[i];
      }
    }
    if Lower(s) == w {
      forall i | 0 <= i < |s| ensures s[i] == w[i] || ('a' <= w[i] <= 'z' && s[i] == w[i] - ('a' - 'A')) {
        assert Lower(s)[i] == LowerChar(s[i]);
      }
    }
  }

  lemma LowerSlice(s: string, i: nat, j: nat)
    requires i <= j <= |s|
    ensures Lower(s)[i..j] == Lower(s[i..j])
  {
  }

  /** The word w, however written, at the beginning. */
  predicate StartsFold(s: string, w: string) {
    |w| <= |s| && EqualFold(s[..|w|], w)
  }

  lemma LowerStartsIff(s: string, w: string)
    requires Small(w)
    ensures HasPrefix(Lower(s), w) <==> StartsFold(s, w)
  {
    if |w| <= |s| {
      LowerSlice(s, 0, |w|);
      LowerIff(s[..|w|], w);
      assert HasPrefix(Lower(s), w) <==> Lower(s)[..|w|] == w;
    }
  }

  /** The word w, however written, somewhere. */
  predicate HasFold(s: string, w: string) {
    exists k: nat :: k <= |s| && FoldAt(s, w, k)
  }

  predicate FoldAt(s: string, w: string, k: nat) {
    k + |w| <= |s| && EqualFold(s[k..k + |w|], w)
  }

  lemma LowerContainsIff(s: string, w: string)
    requires Small(w)
    ensures Contains(Lower(s), w) <==> HasFold(s, w)
  {
    forall k: nat ensures OccursAt(Lower(s), w, k) <==> FoldAt(s, w, k) {
      if k + |w| <= |s| {
        LowerSlice(s, k, k + |w|);
        LowerIff(s[k..k + |w|], w);
      }
    }
  }

  predicate AllSpace(s: string) {
    forall i :: 0 <= i < |s| ==> IsSpace(s[i])
  }

  /** Text without white space at its ends. */
  predicate Bare(s: string) {
    s != "" ==> !IsSpace(s[0]) && !IsSpace(s[|s| - 1])
  }

  lemma {:induction false} TrimLeftStrips(front: string, s: string)
    requires AllSpace(front) && (s != "" ==> !IsSpace(s[0]))
    ensures TrimLeft(front + s) == s
  {
    if front == "" {
      assert front + s == s;
    } else {
      assert (front + s)[1..] == front[1..] + s;
      TrimLeftStrips(front[1..], s);
    }
  }

  lemma {:induction false} TrimRightStrips(s: string, back: string)
    requires AllSpace(back) && (s != "" ==> !IsSpace(s[|s| - 1]))
    ensures TrimRight(s + back) == s
  {
    if back == "" {
      assert s + back == s;
    } else {
      var n := |back| - 1;
      assert (s + back)[..|s| + n] == s + back[..n];
      TrimRightStrips(s, back[..n]);
    }
  }

  /** Trimming takes off the white space around a text, and nothing of the text. */
  lemma TrimStrips(front: string, s: string, back: string)
    requires AllSpace(front) && AllSpace(back) && Bare(s) && s != ""
    ensures Trim(front + s + back) == s
  {
    assert front + s + back == front + (s + back);
    TrimLeftStrips(front, s + back);
    TrimRightStrips(s, back);
  }

  /** A beginning without white space at its ends stays, without what was before it. */
  lemma TrimKeepsStart(front: string, p: string, rest: string)
    requires AllSpace(front) && p != "" && Bare(p)
    ensures HasPrefix(Trim(front + p + rest), p)
  {
    assert front + p + rest == front + (p + rest);
    TrimLeftStrips(front, p + rest);
    TrimRightKeepsStart(p, rest);
  }

  lemma TrimOfSpace(s: string)
    requires AllSpace(s)
    ensures Trim(s) == ""
  {
    assert s + "" == s;
    TrimLeftStrips(s, "");
  }

  lemma {:induction false} TrimRightKeepsStart(p: string, rest: string)
    requires p != "" && !IsSpace(p[|p| - 1])
    ensures HasPrefix(TrimRight(p + rest), p)
  {
    if rest == "" {
      assert p + rest == p;
    } else {
      var n := |rest| - 1;
      assert (p + rest)[..|p| + n] == p + rest[..n];
      TrimRightKeepsStart(p, rest[..n]);
    }
  }

  lemma {:induction false} TrimLeftKeeps(s: string, p: string)
    requires p != "" && !IsSpace(p[0])
    ensures Contains(TrimLeft(s), p) <==> Contains(s, p)
  {
    if s != "" && IsSpace(s[0]) {
      TrimLeftKeeps(s[1..], p);
      DropFirst(s, p);
    }
  }

  lemma DropFirst(s: string, p: string)
    requires s != "" && p != "" && s[0] != p[0]
    ensures Contains(s[1..], p) <==> Contains(s, p)
  {
    if k: nat :| k <= |s| && OccursAt(s, p, k) {
      assert s[k..k + |p|][0] == s[k];
      assert s[1..][k - 1..k - 1 + |p|] == p;
      assert OccursAt(s[1..], p, k - 1);
    }
    if k: nat :| k <= |s[1..]| && OccursAt(s[1..], p, k) {
      assert s[k + 1..k + 1 + |p|] == s[1..][k..k + |p|];
      assert OccursAt(s, p, k + 1);
    }
  }

  lemma {:induction false} TrimRightKeeps(s: string, p: string)
    requires p != "" && !IsSpace(p[|p| - 1])
    ensures Contains(TrimRight(s), p) <==> Contains(s, p)
  {
    if s != "" && IsSpace(s[|s| - 1]) {
      TrimRightKeeps(s[..|s| - 1], p);
      DropLast(s, p);
    }
  }

  lemma DropLast(s: string, p: string)
    requires s != "" && p != "" && s[|s| - 1] != p[|p| - 1]
    ensures Contains(s[..|s| - 1], p) <==> Contains(s, p)
  {
    var n := |s| - 1;
    if k: nat :| k <= |s| && OccursAt(s, p, k) {
      assert s[k..k + |p|][|p| - 1] == s[k + |p| - 1];
      assert s[..n][k..k + |p|] == p;
      assert OccursAt(s[..n], p, k);
    }
    if k: nat :| k <= n && OccursAt(s[..n], p, k) {
      assert s[k..k + |p|] == s[..n][k..k + |p|];
      assert OccursAt(s, p, k);
    }
  }

  /** Trimming takes away no word without white space at its ends, and brings none. */
  lemma TrimKeeps(s: string, p: string)
    requires p != "" && Bare(p)
    ensures Contains(Trim(s), p) <==> Contains(s, p)
  {
    TrimLeftKeeps(s, p);
    TrimRightKeeps(TrimLeft(s), p);
  }

  /** No capital letter, and no white space at either end. */
  predicate Tidy(s: string) {
    && (s != "" ==> !IsSpace(s[0]) && !IsSpace(s[|s| - 1]))
    && forall i :: 0 <= i < |s| ==> LowerChar(s[i]) == s[i]
  }

  lemma {:induction false} TrimLeftEnds(s: string)
    ensures var t := TrimLeft(s); t != "" ==> !IsSpace(t[0])
  {
    if s != "" {
      TrimLeftEnds(s[1..]);
    }
  }

  lemma {:induction false} TrimRightEnds(s: string)
    ensures var t := TrimRight(s);
      t != "" ==> !IsSpace(t[|t| - 1]) && s != "" && t[0] == s[0]
  {
    if s != "" {
      TrimRightEnds(s[..|s| - 1]);
    }
  }

  lemma NormalIsTidy(s: string)
    ensures Tidy(Normal(s))
  {
    TrimLeftEnds(s);
    TrimRightEnds(TrimLeft(s));
  }

  /** Exactly the tidy texts are what they normalise to. */
  lemma TidyIff(s: string)
    ensures Tidy(s) <==> Normal(s) == s
  {
    NormalIsTidy(s);
    if Tidy(s) {
      assert Trim(s) == s;
      assert Lower(s) == s;
    }
  }

  lemma TidyIsTrimmed(s: string)
    requires Tidy(s)
    ensures Trim(s) == s
  {
  }

  predicate HasPrefix(s: string, p: string) {
    p <= s
  }

  predicate HasSuffix(s: string, p: string) {
    |p| <= |s| && s[|s| - |p|..] == p
  }

  /** p occurs in s at offset k. */
  predicate OccursAt(s: string, p: string, k: nat) {
    k + |p| <= |s| && s[k..k + |p|] == p
  }

  predicate Contains(s: string, p: string) {
    exists k: nat :: k <= |s| && OccursAt(s, p, k)
  }

  function TrimPrefix(s: string, p: string): string {
    if HasPrefix(s, p) then s[|p|..] else s
  }

  function TrimSuffix(s: string, p: string): string {
    if HasSuffix(s, p) then s[..|s| - |p|] else s
  }

  // ---------------------------------------------------------------------------
  // Split and join on one character
  // ---------------------------------------------------------------------------

  /** One character in front of pieces that are already split. */
  function Push(p: char, c: char, r: seq<string>): (t: seq<string>)
    requires |r| >= 1
    ensures |t| >= 1
  {
    if p == c then [""] + r else [[p] + r[0]] + r[1..]
  }

  function Split(s: string, c: char): (r: seq<string>)
    ensures |r| >= 1
  {
    if s == "" then [""] else Push(s[0], c, Split(s[1..], c))
  }

  function Join(parts: seq<string>, c: char): string {
    if parts == [] then "" else if |parts| == 1 then parts[0] else parts[0] + [c] + Join(parts[1..], c)
  }

  lemma JoinPush(p: char, c: char, r: seq<string>)
    requires |r| >= 1
    ensures Join(Push(p, c, r), c) == [p] + Join(r, c)
  {
    if p == c {
      assert ([""] + r)[1..] == r;
    } else {
      var t := [[p] + r[0]] + r[1..];
      assert t[0] == [p] + r[0] && t[1..] == r[1..];
      if |r| > 1 {
        assert ([p] + r[0]) + [c] + Join(r[1..], c) == [p] + (r[0] + [c] + Join(r[1..], c));
      }
    }
  }

  lemma {:induction false} JoinSplit(s: string, c: char)
    ensures Join(Split(s, c), c) == s
  {
    if s != "" {
      hide Push, Join;
      JoinSplit(s[1..], c);
      JoinPush(s[0], c, Split(s[1..], c));
      assert s == [s[0]] + s[1..];
    }
  }

  lemma PushAppend(p: char, c: char, a: seq<string>, b: seq<string>)
    requires |a| >= 1
    ensures Push(p, c, a + b) == Push(p, c, a) + b
  {
    if p == c {
      assert [""] + (a + b) == [""] + a + b;
    } else {
      assert (a + b)[0] == a[0] && (a + b)[1..] == a[1..] + b;
      assert [[p] + a[0]] + (a[1..] + b) == [[p] + a[0]] + a[1..] + b;
    }
  }

  lemma {:induction false} SplitConcat(x: string, y: string, c: char)
    ensures Split(x + [c] + y, c) == Split(x, c) + Split(y, c)
  {
    var s := x + [c] + y;
    if x == "" {
      assert s[1..] == y;
      assert Push(c, c, Split(y, c)) == [""] + Split(y, c);
    } else {
      SplitConcat(x[1..], y, c);
      assert s[1..] == x[1..] + [c] + y;
      PushAppend(x[0], c, Split(x[1..], c), Split(y, c));
    }
  }

  lemma {:induction false} JoinConcat(a: seq<string>, b: seq<string>, c: char)
    requires a != [] && b != []
    ensures Join(a + b, c) == Join(a, c) + [c] + Join(b, c)
  {
    if |a| == 1 {
      assert (a + b)[1..] == b;
    } else {
      JoinConcat(a[1..], b, c);
      assert (a + b)[1..] == a[1..] + b;
    }
  }

  lemma {:induction false} SplitFree(s: string, c: char)
    requires c !in s
    ensures Split(s, c) == [s]
  {
    if s != "" {
      SplitFree(s[1..], c);
      assert s == [s[0]] + s[1..];
    }
  }

  lemma {:induction false} SplitJoin(parts: seq<string>, c: char)
    requires parts != [] && forall p <- parts :: c !in p
    ensures Split(Join(parts, c), c) == parts
  {
    SplitFree(parts[0], c);
    if |parts| > 1 {
      SplitJoin(parts[1..], c);
      SplitConcat(parts[0], Join(parts[1..], c), c);
      assert parts == [parts[0]] + parts[1..];
    }
  }

  // ---------------------------------------------------------------------------
  // Dotted names
  // ---------------------------------------------------------------------------

  /** h is the domain d, or a name below it. */
  predicate Covers(d: string, h: string) {
    h == d || HasSuffix(h, "." + d)
  }

  lemma SuffixIsParent(h: string, d: string) returns (i: nat)
    requires HasSuffix(h, "." + d)
    ensures 1 <= i < |Split(h, '.')| && Join(Split(h, '.')[i..], '.') == d
  {
    var x := h[..|h| - |d| - 1];
    assert h == x + ['.'] + d;
    SplitConcat(x, d, '.');
    i := |Split(x, '.')|;
    assert Split(h, '.')[i..] == Split(d, '.');
    JoinSplit(d, '.');
  }

  lemma ParentIsSuffix(h: string, i: nat)
    requires 1 <= i < |Split(h, '.')|
    ensures HasSuffix(h, "." + Join(Split(h, '.')[i..], '.'))
  {
    hide Split, Join;
    var parts := Split(h, '.');
    JoinSplit(h, '.');
    assert parts == parts[..i] + parts[i..];
    JoinConcat(parts[..i], parts[i..], '.');
    var d := Join(parts[i..], '.');
    var x := Join(parts[..i], '.');
    assert h == x + ("." + d);
  }
}
