// proxy/proxy.go: SetDNSNodePriority, which moves one node of a list in place.
module DnsOrder {

  datatype Node = Node(id: string, rest: string)

  function RemoveAt(s: seq<Node>, i: nat): seq<Node>
    requires i < |s|
  {
    s[..i] + s[i + 1..]
  }

  function InsertAt(s: seq<Node>, i: nat, x: Node): seq<Node>
    requires i <= |s|
  {
    s[..i] + [x] + s[i..]
  }

  /** The first node with the given ID, or the number of nodes. */
  function Find(s: seq<Node>, id: string): (i: nat)
    ensures i <= |s| && (i < |s| ==> s[i].id == id)
    ensures forall j :: 0 <= j < i ==> s[j].id != id
  {
    if s == [] || s[0].id == id then 0 else 1 + Find(s[1..], id)
  }

  function Clamp(target: int, n: nat): nat
    requires n > 0
  {
    if target < 0 then 0 else if target >= n then n - 1 else target
  }

  function Moved(s: seq<Node>, id: string, target: int): seq<Node> {
    var src := Find(s, id);
    if src == |s| then s else InsertAt(RemoveAt(s, src), Clamp(target, |s|), s[src])
  }

  method SetDNSNodePriority(nodes: array<Node>, id: string, targetIndex: int) returns (found: bool)
    modifies nodes
    ensures found <==> exists i :: 0 <= i < nodes.Length && old(nodes[i]).id == id
    ensures nodes[..] == Moved(old(nodes[..]), id, targetIndex)
  {
    ghost var was := nodes[..];
    var n := nodes.Length;
    var src := 0;
    while src < n && nodes[src].id != id
      invariant 0 <= src <= n
      invariant forall j :: 0 <= j < src ==> was[j].id != id
    {
      src := src + 1;
    }
    assert src == Find(was, id);
    if src == n {
      return false;
    }
    var target := Clamp(targetIndex, n);
    if src == target {
      MoveNowhere(was, src);
      return true;
    }
    var node := nodes[src];
    CloseGap(nodes, src);
    OpenGap(nodes, target, node);
    return true;
  }

  /** The nodes behind position src move one to the left. */
  method CloseGap(nodes: array<Node>, src: nat)
    requires src < nodes.Length
    modifies nodes
    ensures nodes[..nodes.Length - 1] == RemoveAt(old(nodes[..]), src)
  {
    ghost var was := nodes[..];
    var n := nodes.Length;
    var i := src;
    while i < n - 1
      invariant src <= i <= n - 1
      invariant forall j :: 0 <= j < src ==> nodes[j] == was[j]
      invariant forall j :: src <= j < i ==> nodes[j] == was[j + 1]
      invariant forall j :: i <= j < n ==> nodes[j] == was[j]
    {
      nodes[i] := nodes[i + 1];
      i := i + 1;
    }
  }

  /** The first n - 1 nodes, with one put in between; their tail is copied first. */
  method OpenGap(nodes: array<Node>, target: nat, node: Node)
    requires target < nodes.Length
    modifies nodes
    ensures nodes[..] == InsertAt(old(nodes[..nodes.Length - 1]), target, node)
  {
    ghost var closed := nodes[..nodes.Length - 1];
    var tail := nodes[target..nodes.Length - 1];
    nodes[target] := node;
    var i := 0;
    while i < |tail|
      invariant 0 <= i <= |tail|
      invariant forall j :: 0 <= j < target ==> nodes[j] == closed[j]
      invariant nodes[target] == node
      invariant forall j :: 0 <= j < i ==> nodes[target + 1 + j] == tail[j]
    {
      nodes[target + 1 + i] := tail[i];
      i := i + 1;
    }
  }

  lemma MoveNowhere(s: seq<Node>, i: nat)
    requires i < |s|
    ensures InsertAt(RemoveAt(s, i), i, s[i]) == s
  {
  }

  lemma RemoveThenInsert(s: seq<Node>, i: nat, t: nat)
    requires i < |s| && t < |s|
    ensures var r := InsertAt(RemoveAt(s, i), t, s[i]);
      |r| == |s| && r[t] == s[i] && RemoveAt(r, t) == RemoveAt(s, i)
  {
  }

  lemma SameNodes(s: seq<Node>, i: nat)
    requires i < |s|
    ensures multiset(s) == multiset(RemoveAt(s, i)) + multiset{s[i]}
  {
    assert s == s[..i] + [s[i]] + s[i + 1..];
  }

  /** The move is a permutation; the node ends up at the target, and the other nodes keep their order. */
  lemma MoveKeepsOthersInOrder(s: seq<Node>, id: string, target: int)
    requires Find(s, id) < |s|
    ensures var src := Find(s, id);
      var t := Clamp(target, |s|);
      var r := Moved(s, id, target);
      && multiset(r) == multiset(s)
      && |r| == |s| && r[t] == s[src]
      && RemoveAt(r, t) == RemoveAt(s, src)
      && (0 <= target < |s| ==> r[target] == s[src])
      && (target < 0 ==> r[0] == s[src])
      && (target >= |s| ==> r[|s| - 1] == s[src])
  {
    var src := Find(s, id);
    var t := Clamp(target, |s|);
    RemoveThenInsert(s, src, t);
    SameNodes(s, src);
    SameNodes(Moved(s, id, target), t);
  }
}
