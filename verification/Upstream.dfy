// proxy/proxy.go: the control skeleton of establishUpstreamConn.
module Upstream {
  import opened Options
  import opened Strings

  /** How one dial with its handshake ends; `refreshed` says whether a new ECH configuration could be fetched. */
  datatype Attempt = DialFails | Connects | EchRejected(refreshed: bool) | HandshakeFails

  /** What the k-th dial meets. */
  type Net = nat -> Attempt

  datatype Rule = Rule(mode: string, fallbackMode: string, echEnabled: bool)

  /** The candidate and why it failed. */
  type Error = (string, Attempt)

  /** `UnknownError` is the branch for a failure without any recorded error. */
  datatype Result = Connected(addr: string) | Failed(errs: seq<Error>) | UnknownError

  function FallbackMode(rule: Rule): string {
    Normal(rule.fallbackMode)
  }

  predicate FallsBack(rule: Rule) {
    (FallbackMode(rule) == "tls-rf" || FallbackMode(rule) == "quic") && FallbackMode(rule) != rule.mode
  }

  function Fallback(rule: Rule): (r: Rule)
    ensures FallsBack(rule) ==> !FallsBack(r)
  {
    rule.(mode := FallbackMode(rule), echEnabled := false)
  }

  /** A rule falls back to its fallback mode, however that is written, if it is one of two and not its own. */
  lemma FallsBackIff(rule: Rule, front: string, mode: string, back: string)
    requires AllSpace(front) && AllSpace(back) && mode != "" && Bare(mode)
    requires rule.fallbackMode == front + mode + back
    ensures FallsBack(rule) <==>
      || (EqualFold(mode, "tls-rf") && rule.mode != "tls-rf")
      || (EqualFold(mode, "quic") && rule.mode != "quic")
  {
    TrimStrips(front, mode, back);
    LowerIff(mode, "tls-rf");
    LowerIff(mode, "quic");
  }

  function Ordered(host: string, candidates: seq<string>): (r: seq<string>)
    ensures |r| >= 1
    ensures |candidates| > 0 ==> r == candidates
    ensures |candidates| == 0 && ':' !in host ==> r == [host + ":443"]
    ensures |candidates| == 0 && ':' in host ==> r == ["[" + host + "]:443"]
  {
    if |candidates| > 0 then candidates else
    [if ':' in host then "[" + host + "]:443" else host + ":443"]
  }

  // ---------------------------------------------------------------------------
  // What a connection attempt comes to
  // ---------------------------------------------------------------------------

  /** Dial number k may be repeated once, when ECH was refused and a new configuration is at hand. */
  predicate Retries(net: Net, ech: bool, k: nat) {
    ech && net(k) == EchRejected(true)
  }

  /** The number of the last dial of a candidate whose first is k. */
  function LastDial(net: Net, ech: bool, k: nat): nat {
    if Retries(net, ech, k) then k + 1 else k
  }

  /** One pass over the candidates, from dial k on: the result and the number of the next dial. */
  function Level(net: Net, ech: bool, addrs: seq<string>, k: nat): (Result, nat)
    decreases |addrs|
  {
    if addrs == [] then (Failed([]), k) else
    var last := LastDial(net, ech, k);
    if net(last) == Connects then (Connected(addrs[0]), last + 1) else
    match Level(net, ech, addrs[1..], last + 1)
    case (Failed(errs), next) => (Failed([(addrs[0], net(last))] + errs), next)
    case other => other
  }

  /** Everything: a pass with the rule, and one more with its fallback when that one fails. */
  function Outcome(net: Net, resolver: bool, rule: Rule, addrs: seq<string>, k: nat): (Result, nat) {
    match Level(net, rule.echEnabled && resolver, addrs, k)
    case (Failed(errs), next) => if FallsBack(rule) then Level(net, false, addrs, next) else (Failed(errs), next)
    case other => other
  }

  class Connector {
    var dials: nat
    const net: Net
    const hasResolver: bool

    constructor (net: Net, hasResolver: bool)
      ensures this.net == net && this.hasResolver == hasResolver && dials == 0
    {
      this.net, this.hasResolver, this.dials := net, hasResolver, 0;
    }

    method Dial() returns (a: Attempt)
      modifies this
      ensures dials == old(dials) + 1 && a == net(old(dials))
    {
      a := net(dials);
      dials := dials + 1;
    }

    /** The two chances of one candidate: at most one retry, and exactly one error when they are used up. */
    method TryCandidate(addr: string, rule: Rule) returns (failure: Option<Error>)
      modifies this
      ensures var last := LastDial(net, rule.echEnabled && hasResolver, old(dials));
        && dials == last + 1
        && failure == if net(last) == Connects then None else Some((addr, net(last)))
      ensures dials == old(dials) + 2 <==> rule.echEnabled && hasResolver && net(old(dials)) == EchRejected(true)
      ensures dials == old(dials) + 1 || dials == old(dials) + 2
    {
      var attempt := 0;
      while attempt < 2
        invariant 0 <= attempt <= 1
        invariant dials == old(dials) + attempt
        invariant attempt == 1 ==> hasResolver && Retries(net, rule.echEnabled, old(dials))
        decreases 2 - attempt
      {
        var a := Dial();
        match a {
          case DialFails =>
            return Some((addr, a));
          case Connects =>
            return None;
          case EchRejected(refreshed) =>
            if attempt == 0 && rule.echEnabled && hasResolver && refreshed {
              attempt := attempt + 1;
              continue;
            }
            return Some((addr, a));
          case HandshakeFails =>
            return Some((addr, a));
        }
      }
      assert false;
    }

    /**
     * Dials the candidates in order and, when all of them fail, starts again with the fallback rule. `level` counts
     * the fallbacks taken so far.
     */
    method EstablishUpstreamConn(host: string, rule: Rule, candidates: seq<string>, ghost level: nat)
      returns (r: Result, ghost deepest: nat)
      modifies this
      ensures r != UnknownError
      ensures (r, dials) == Outcome(net, hasResolver, rule, Ordered(host, candidates), old(dials))
      ensures level <= deepest <= level + 1
      ensures deepest > level ==> FallsBack(rule)
      decreases if FallsBack(rule) then 1 else 0
    {
      hide LastDial, Retries, Normal, Ordered;
      deepest := level;
      var ordered := Ordered(host, candidates);
      var errs: seq<Error> := [];
      var i := 0;
      ghost var ech := rule.echEnabled && hasResolver;
      assert ordered[0..] == ordered;
      AfterNothing(Level(net, ech, ordered, dials));
      while i < |ordered|
        invariant 0 <= i == |errs| <= |ordered|
        invariant Level(net, ech, ordered, old(dials)) == After(errs, Level(net, ech, ordered[i..], dials))
      {
        var failure := TryCandidate(ordered[i], rule);
        assert ordered[i..][1..] == ordered[i + 1..];
        if failure.None? {
          return Connected(ordered[i]), deepest;
        }
        AfterOneMore(errs, failure.value, Level(net, ech, ordered[i + 1..], dials));
        errs := errs + [failure.value];
        i := i + 1;
      }
      assert ordered[i..] == [] && errs + [] == errs;
      if |errs| == 0 {
        return UnknownError, deepest;
      }
      if FallsBack(rule) {
        var fallbackRule := Fallback(rule);
        r, deepest := EstablishUpstreamConn(host, fallbackRule, candidates, level + 1);
        return;
      }
      return Failed(errs), deepest;
    }
  }

  /** Earlier errors in front of a result. */
  function After(errs: seq<Error>, r: (Result, nat)): (Result, nat) {
    match r
    case (Failed(more), next) => (Failed(errs + more), next)
    case other => other
  }

  lemma AfterNothing(r: (Result, nat))
    ensures After([], r) == r
  {
    if r.0.Failed? {
      assert [] + r.0.errs == r.0.errs;
    }
  }

  lemma AfterOneMore(errs: seq<Error>, e: Error, r: (Result, nat))
    ensures After(errs, After([e], r)) == After(errs + [e], r)
  {
    if r.0.Failed? {
      assert errs + ([e] + r.0.errs) == errs + [e] + r.0.errs;
    }
  }

  // ---------------------------------------------------------------------------
  // What the outcome is worth
  // ---------------------------------------------------------------------------

  /** The dials from k on, up to but not including next, all failed. */
  predicate AllFailed(net: Net, k: nat, next: nat) {
    forall j :: k <= j < next ==> net(j) != Connects
  }

  /** The errors name the candidates one by one, in their order. */
  predicate OneErrorEach(errs: seq<Error>, addrs: seq<string>) {
    |errs| == |addrs| && forall i :: 0 <= i < |errs| ==> errs[i].0 == addrs[i] && errs[i].1 != Connects
  }

  lemma LastDialIs(net: Net, ech: bool, k: nat)
    ensures k <= LastDial(net, ech, k) <= k + (if ech then 1 else 0)
    ensures AllFailed(net, k, LastDial(net, ech, k))
  {
  }

  /** A pass that ended in r connects with the last dial it made, or every candidate contributed one error. */
  predicate Accounts(net: Net, addrs: seq<string>, k: nat, r: Result, next: nat) {
    match r
    case Connected(addr) => addr in addrs && next > k && net(next - 1) == Connects && AllFailed(net, k, next - 1)
    case Failed(errs) => next >= k + |addrs| && OneErrorEach(errs, addrs) && AllFailed(net, k, next)
    case UnknownError => false
  }

  lemma {:induction false} LevelTells(net: Net, ech: bool, addrs: seq<string>, k: nat)
    ensures var (r, next) := Level(net, ech, addrs, k);
      next <= k + (if ech then 2 * |addrs| else |addrs|) && Accounts(net, addrs, k, r, next)
    decreases |addrs|
  {
    if addrs != [] {
      hide LastDial, Accounts;
      var last := LastDial(net, ech, k);
      LastDialIs(net, ech, k);
      if net(last) == Connects {
        AccountsFirst(net, addrs, k, last);
      } else {
        LevelTells(net, ech, addrs[1..], last + 1);
        var (r, next) := Level(net, ech, addrs[1..], last + 1);
        AccountsOneMore(net, addrs, k, last, r, next);
      }
    }
  }

  lemma AccountsFirst(net: Net, addrs: seq<string>, k: nat, last: nat)
    requires addrs != [] && k <= last && AllFailed(net, k, last) && net(last) == Connects
    ensures Accounts(net, addrs, k, Connected(addrs[0]), last + 1)
  {
  }

  lemma AccountsOneMore(net: Net, addrs: seq<string>, k: nat, last: nat, r: Result, next: nat)
    requires addrs != [] && k <= last && AllFailed(net, k, last) && net(last) != Connects
    requires Accounts(net, addrs[1..], last + 1, r, next)
    ensures Accounts(net, addrs, k, if r.Failed? then Failed([(addrs[0], net(last))] + r.errs) else r, next)
  {
    assert forall a <- addrs[1..] :: a in addrs;
  }

  /** The first dial of candidate i, when all candidates before it have failed. */
  function FirstDial(net: Net, ech: bool, k: nat, i: nat): nat {
    if i == 0 then k else LastDial(net, ech, FirstDial(net, ech, k, i - 1)) + 1
  }

  function Verdict(net: Net, ech: bool, k: nat, i: nat): nat {
    LastDial(net, ech, FirstDial(net, ech, k, i))
  }

  lemma {:induction false} FirstDialShifts(net: Net, ech: bool, k: nat, i: nat)
    ensures FirstDial(net, ech, LastDial(net, ech, k) + 1, i) == FirstDial(net, ech, k, i + 1)
  {
    if i > 0 {
      FirstDialShifts(net, ech, k, i - 1);
    }
  }

  /** Behind the first candidate, candidate i is candidate i + 1 of all. */
  predicate Shifted(net: Net, ech: bool, k: nat, i: nat) {
    Verdict(net, ech, Verdict(net, ech, k, 0) + 1, i) == Verdict(net, ech, k, i + 1)
  }

  /** The candidate that connected is the first whose last dial did, and each error is what its own candidate met. */
  predicate PerCandidate(net: Net, ech: bool, addrs: seq<string>, k: nat, r: Result, next: nat) {
    match r
    case Connected(addr) =>
      exists i :: 0 <= i < |addrs| && addr == addrs[i] && next == Verdict(net, ech, k, i) + 1 &&
                  net(Verdict(net, ech, k, i)) == Connects &&
                  forall j :: 0 <= j < i ==> net(Verdict(net, ech, k, j)) != Connects
    case Failed(errs) =>
      && |errs| == |addrs|
      && forall i :: 0 <= i < |addrs| ==>
           errs[i] == (addrs[i], net(Verdict(net, ech, k, i))) && net(Verdict(net, ech, k, i)) != Connects
    case UnknownError => false
  }

  lemma {:induction false} LevelPerCandidate(net: Net, ech: bool, addrs: seq<string>, k: nat)
    ensures var (r, next) := Level(net, ech, addrs, k);
      PerCandidate(net, ech, addrs, k, r, next)
    decreases |addrs|
  {
    if addrs != [] {
      hide LastDial;
      var last := LastDial(net, ech, k);
      assert Verdict(net, ech, k, 0) == last;
      if net(last) != Connects {
        LevelPerCandidate(net, ech, addrs[1..], last + 1);
        forall i: nat ensures Shifted(net, ech, k, i) {
          FirstDialShifts(net, ech, k, i);
        }
        var (r, next) := Level(net, ech, addrs[1..], last + 1);
        OneCandidateMore(net, ech, addrs, k, r, next);
      } else {
        assert PerCandidate(net, ech, addrs, k, Connected(addrs[0]), last + 1);
      }
    }
  }

  lemma OneCandidateMore(net: Net, ech: bool, addrs: seq<string>, k: nat, r: Result, next: nat)
    requires addrs != [] && net(Verdict(net, ech, k, 0)) != Connects
    requires forall i: nat :: Shifted(net, ech, k, i)
    requires PerCandidate(net, ech, addrs[1..], Verdict(net, ech, k, 0) + 1, r, next)
    ensures var e := (addrs[0], net(Verdict(net, ech, k, 0)));
      PerCandidate(net, ech, addrs, k, if r.Failed? then Failed([e] + r.errs) else r, next)
  {
    hide Verdict;
    var first := Verdict(net, ech, k, 0) + 1;
    if r.Connected? {
      var i :| 0 <= i < |addrs[1..]| && r.addr == addrs[1..][i] && next == Verdict(net, ech, first, i) + 1 &&
               net(Verdict(net, ech, first, i)) == Connects &&
               forall j :: 0 <= j < i ==> net(Verdict(net, ech, first, j)) != Connects;
      assert Shifted(net, ech, k, i);
      assert addrs[i + 1] == r.addr && next == Verdict(net, ech, k, i + 1) + 1;
      forall j | 0 <= j < i + 1 ensures net(Verdict(net, ech, k, j)) != Connects {
        if j > 0 {
          assert Shifted(net, ech, k, j - 1);
          assert net(Verdict(net, ech, first, j - 1)) != Connects;
        }
      }
    } else {
      forall i | 1 <= i < |addrs|
        ensures r.errs[i - 1] == (addrs[i], net(Verdict(net, ech, k, i))) && net(Verdict(net, ech, k, i)) != Connects
      {
        assert Shifted(net, ech, k, i - 1);
      }
    }
  }

  /**
   * For any outcomes of the dials: at most three dials a candidate are made, the connection that is returned is the
   * last dial and the only one that succeeded, and a failure holds exactly one error of every candidate.
   */
  lemma AtMostThreeEach(net: Net, resolver: bool, rule: Rule, addrs: seq<string>, k: nat)
    ensures var (r, next) := Outcome(net, resolver, rule, addrs, k);
      && next <= k + 3 * |addrs| && Accounts(net, addrs, k, r, next)
      && (r.Failed? && FallsBack(rule) ==> next >= k + 2 * |addrs|)
  {
    hide Level, FallsBack;
    var ech := rule.echEnabled && resolver;
    LevelTells(net, ech, addrs, k);
    LevelTells(net, false, addrs, Level(net, ech, addrs, k).1);
  }

  /** The dials from k on, up to but not including next, all fail, with ECH by a rejection that can be retried. */
  predicate Refuses(net: Net, ech: bool, k: nat, next: nat) {
    forall j :: k <= j < next ==> if ech then net(j) == EchRejected(true) else net(j) != Connects
  }

  function LevelBound(ech: bool, n: nat): nat {
    if ech then 2 * n else n
  }

  lemma {:induction false} RefusedLevel(net: Net, ech: bool, addrs: seq<string>, k: nat)
    requires Refuses(net, ech, k, k + LevelBound(ech, |addrs|))
    ensures Level(net, ech, addrs, k).0.Failed?
    ensures Level(net, ech, addrs, k).1 == k + LevelBound(ech, |addrs|)
    decreases |addrs|
  {
    if addrs != [] {
      RefusedLevel(net, ech, addrs[1..], LastDial(net, ech, k) + 1);
    }
  }

  /**
   * The bound is met: when ECH is rejected in the first pass, each candidate is dialled two times; when the dials of
   * the fallback fail, in whatever way, once more.
   */
  lemma ThreeEachIsReached(net: Net, resolver: bool, rule: Rule, addrs: seq<string>, k: nat)
    requires var ech := rule.echEnabled && resolver;
      var next := k + LevelBound(ech, |addrs|);
      Refuses(net, ech, k, next) && (FallsBack(rule) ==> Refuses(net, false, next, next + |addrs|))
    ensures Outcome(net, resolver, rule, addrs, k).0.Failed?
    ensures Outcome(net, resolver, rule, addrs, k).1 ==
      k + LevelBound(rule.echEnabled && resolver, |addrs|) + if FallsBack(rule) then |addrs| else 0
  {
    hide Level, FallsBack, Refuses;
    var ech := rule.echEnabled && resolver;
    RefusedLevel(net, ech, addrs, k);
    if FallsBack(rule) {
      RefusedLevel(net, false, addrs, k + LevelBound(ech, |addrs|));
    }
  }
}
