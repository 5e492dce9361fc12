// proxy/proxy.go: domainMatchScore, hostMatchesDomain and matchRule.
module Routing {
  import opened Options
  import opened Strings

  /** A compiled regular expression is what it says about a host; None when the pattern does not compile. */
  type Regex = (string, string) -> Option<bool>

  // ---------------------------------------------------------------------------
  // What a pattern means
  // ---------------------------------------------------------------------------

  datatype Match = NoMatch | Exact(len: nat) | Suffix(len: nat) | Base(len: nat) | Star | Regular(len: nat) {
    function Score(): int {
      match this
      case NoMatch => -1
      case Exact(n) => n + 1000
      case Suffix(n) => n
      case Base(n) => n
      case Star => 1
      case Regular(n) => 900 + n
    }
  }

  /** A pattern without a leading "*." and then without a trailing "$". */
  function Strip(domain: string): string {
    TrimSuffix(TrimPrefix(domain, "*."), "$")
  }

  /** The labels of base occur in the host, one after the other and with a label behind them. */
  ghost predicate BaseMatches(h: string, base: string) {
    base != "" && Contains("." + h, "." + base + ".")
  }

  /** The plain patterns: base.*, exact and suffix. */
  ghost function ClassifyPlain(h: string, s: string): Match {
    if HasSuffix(s, ".*") then
      if BaseMatches(h, s[..|s| - 2]) then Base(|s| - 2) else NoMatch
    else if s == "*" then Star
    else if h == s then Exact(|s|)
    else if HasSuffix(h, "." + s) then Suffix(|s|)
    else NoMatch
  }

  ghost function Classify(host: string, domain: string, regex: Regex): Match {
    var h, d := Normal(host), Normal(domain);
    if h == "" || d == "" then NoMatch
    else if HasPrefix(d, "~") then
      var p := Trim(d[1..]);
      if p != "" && regex(p, h) == Some(true) then Regular(|p|) else NoMatch
    else ClassifyPlain(h, Strip(d))
  }

  // ---------------------------------------------------------------------------
  // The label walk
  // ---------------------------------------------------------------------------

  /** The labels bp stand in hp from index i on, with at least one label behind them. */
  predicate Window(hp: seq<string>, bp: seq<string>, i: nat) {
    i + |bp| < |hp| && hp[i..i + |bp|] == bp
  }

  method LabelsAgree(hp: seq<string>, bp: seq<string>, i: nat) returns (ok: bool)
    requires i + |bp| < |hp|
    ensures ok == Window(hp, bp, i)
  {
    var j := 0;
    while j < |bp|
      invariant 0 <= j <= |bp|
      invariant forall k :: 0 <= k < j ==> hp[i + k] == bp[k]
    {
      if hp[i + j] != bp[j] {
        assert hp[i..i + |bp|][j] == hp[i + j];
        return false;
      }
      j := j + 1;
    }
    assert hp[i..i + |bp|] == bp;
    return true;
  }

  method WalkLabels(h: string, base: string) returns (found: bool)
    requires base != ""
    ensures found == BaseMatches(h, base)
  {
    var hostParts := Split(h, '.');
    var baseParts := Split(base, '.');
    WalkIsContainment(h, base);
    if |hostParts| < |baseParts| + 1 {
      return false;
    }
    var i := 0;
    while i + |baseParts| < |hostParts|
      invariant 0 <= i
      invariant forall k :: 0 <= k < i ==> !Window(hostParts, baseParts, k)
    {
      var ok := LabelsAgree(hostParts, baseParts, i);
      if ok {
        return true;
      }
      i := i + 1;
    }
    return false;
  }

  lemma Occurrence(s: string, x: string, p: string, y: string)
    requires s == x + p + y
    ensures OccursAt(s, p, |x|)
  {
  }

  /** A window of labels, given by what is before and behind it. */
  lemma WindowIsInfix(h: string, base: string, i: nat)
    requires Window(Split(h, '.'), Split(base, '.'), i)
    ensures Contains("." + h, "." + base + ".")
  {
    hide Split, Join, Contains;
    var hp, bp := Split(h, '.'), Split(base, '.');
    var n := i + |bp|;
    JoinSplit(h, '.');
    JoinSplit(base, '.');
    var upto, tail := Join(hp[..n], '.'), Join(hp[n..], '.');
    assert hp == hp[..n] + hp[n..];
    JoinConcat(hp[..n], hp[n..], '.');
    assert h == upto + ['.'] + tail;
    if i == 0 {
      assert hp[..n] == bp;
      InfixInMiddle(h, [], base, tail);
    } else {
      assert hp[..n] == hp[..i] + bp;
      JoinConcat(hp[..i], bp, '.');
      InfixInMiddle(h, Join(hp[..i], '.') + ['.'], base, tail);
    }
  }

  lemma InfixInMiddle(h: string, front: string, base: string, tail: string)
    requires h == front + base + ['.'] + tail && (front == "" || front[|front| - 1] == '.')
    ensures Contains("." + h, "." + base + ".")
  {
    var dotted := "." + front;
    assert dotted[|front|] == '.';
    assert dotted == dotted[..|front|] + ".";
    assert "." + h == dotted[..|front|] + ("." + base + ".") + tail;
    Occurrence("." + h, dotted[..|front|], "." + base + ".", tail);
  }

  lemma InfixIsWindow(h: string, base: string, k: nat)
    requires OccursAt("." + h, "." + base + ".", k)
    ensures exists i: nat :: Window(Split(h, '.'), Split(base, '.'), i)
  {
    hide Split;
    var bp := Split(base, '.');
    var y := h[k + |base| + 1..];
    var rest := base + ['.'] + y;
    SplitConcat(base, y, '.');
    RestOf(h, base, k);
    if k == 0 {
      assert h == rest;
      assert Window(bp + Split(y, '.'), bp, 0);
    } else {
      var fp := Split(h[..k - 1], '.');
      SplitConcat(h[..k - 1], rest, '.');
      assert Split(h, '.') == fp + (bp + Split(y, '.'));
      assert Window(fp + (bp + Split(y, '.')), bp, |fp|);
    }
  }

  /** Around an occurrence of "." + base + "." in "." + h. */
  lemma RestOf(h: string, base: string, k: nat)
    requires OccursAt("." + h, "." + base + ".", k)
    ensures k + |base| + 1 <= |h|
    ensures h[k..] == base + ['.'] + h[k + |base| + 1..]
    ensures k > 0 ==> h == h[..k - 1] + ['.'] + h[k..]
  {
    forall j | 0 <= j < |base| + 2 ensures ("." + h)[k + j] == ("." + base + ".")[j] {
      OccurrenceAt("." + h, "." + base + ".", k, j);
    }
    forall j | 0 <= j < |base| ensures h[k + j] == base[j] {
      assert ("." + h)[k + (j + 1)] == ("." + base + ".")[j + 1];
    }
    assert ("." + h)[k + (|base| + 1)] == '.';
    TakeApart(h, base, k);
    if k > 0 {
      assert ("." + h)[k + 0] == '.';
      CutAtDot(h, k - 1);
    }
  }

  lemma OccurrenceAt(s: string, p: string, k: nat, j: nat)
    requires OccursAt(s, p, k) && j < |p|
    ensures s[k + j] == p[j]
  {
    assert s[k..k + |p|][j] == s[k + j];
  }

  lemma TakeApart(h: string, base: string, k: nat)
    requires k + |base| + 1 <= |h| && h[k + |base|] == '.'
    requires forall j :: 0 <= j < |base| ==> h[k + j] == base[j]
    ensures h[k..] == base + ['.'] + h[k + |base| + 1..]
  {
    assert h[k..k + |base|] == base;
    assert h[k..] == h[k..k + |base|] + h[k + |base|..];
    assert h[k + |base|..] == ['.'] + h[k + |base| + 1..];
  }

  lemma CutAtDot(h: string, i: nat)
    requires i < |h| && h[i] == '.'
    ensures h == h[..i] + ['.'] + h[i + 1..]
  {
  }

  /** Walking the labels finds "." + base + "." inside "." + host. */
  lemma WalkIsContainment(h: string, base: string)
    ensures (exists i: nat :: Window(Split(h, '.'), Split(base, '.'), i)) <==> Contains("." + h, "." + base + ".")
  {
    var hp, bp := Split(h, '.'), Split(base, '.');
    if i: nat :| Window(hp, bp, i) {
      WindowIsInfix(h, base, i);
    }
    if k: nat :| OccursAt("." + h, "." + base + ".", k) {
      InfixIsWindow(h, base, k);
    }
  }

  // ---------------------------------------------------------------------------
  // The two matchers
  // ---------------------------------------------------------------------------

  method DomainMatchScore(host: string, domain: string, regex: Regex) returns (score: int)
    ensures score == Classify(host, domain, regex).Score()
  {
    hide Normal, Trim, Contains, Strip;
    var h := Normal(host);
    var d := Normal(domain);
    if h == "" || d == "" {
      return -1;
    }
    if HasPrefix(d, "~") {
      var pattern := Trim(d[1..]);
      if pattern == "" {
        return -1;
      }
      var verdict := regex(pattern, h);
      return if verdict == Some(true) then 900 + |pattern| else -1;
    }
    d := Strip(d);
    if HasSuffix(d, ".*") {
      var base := TrimSuffix(d, ".*");
      if base == "" {
        return -1;
      }
      var found := WalkLabels(h, base);
      return if found then |base| else -1;
    }
    if d == "*" {
      return 1;
    }
    if h == d {
      return |d| + 1000;
    }
    if HasSuffix(h, "." + d) {
      return |d|;
    }
    return -1;
  }

  ghost predicate HostMatches(host: string, domain: string) {
    var h, d := Normal(host), Normal(domain);
    && h != "" && d != ""
    && var s := Strip(d);
       if HasSuffix(s, ".*") then BaseMatches(h, s[..|s| - 2]) else Covers(s, h)
  }

  method HostMatchesDomain(host: string, domain: string) returns (matches: bool)
    ensures matches == HostMatches(host, domain)
  {
    var h := Normal(host);
    var d := Normal(domain);
    if h == "" || d == "" {
      return false;
    }
    d := Strip(d);
    if HasSuffix(d, ".*") {
      var base := TrimSuffix(d, ".*");
      if base == "" {
        return false;
      }
      matches := WalkLabels(h, base);
      return;
    }
    if h == d {
      return true;
    }
    return HasSuffix(h, "." + d);
  }

  lemma PlainMatchersAgreeIff(h: string, s: string)
    ensures ((if HasSuffix(s, ".*") then BaseMatches(h, s[..|s| - 2]) else Covers(s, h)) <==>
             ClassifyPlain(h, s).Score() >= 0)
      <==> (s != "*" || Covers("*", h))
  {
  }

  /**
   * For a pattern that is not a regular expression the two matchers agree, except that only the score knows the
   * wildcard: they differ exactly on a pattern that strips to "*" and a host that is neither "*" nor below it.
   */
  lemma MatchersAgreeIff(host: string, domain: string, regex: Regex)
    requires !HasPrefix(Normal(domain), "~")
    ensures (HostMatches(host, domain) <==> Classify(host, domain, regex).Score() >= 0) <==>
      (Normal(host) == "" || Normal(domain) == "" || Strip(Normal(domain)) != "*" || Covers("*", Normal(host)))
  {
    PlainMatchersAgreeIff(Normal(host), Strip(Normal(domain)));
  }

  // ---------------------------------------------------------------------------
  // The decorations of a pattern
  // ---------------------------------------------------------------------------

  /** A pattern in its plain form: no expression, and without a leading "*." and a trailing "$". */
  predicate Undecorated(s: string) {
    s != "" && Tidy(s) && s[0] != '~' && !HasPrefix(s, "*.") && s[|s| - 1] != '$'
  }

  lemma NoDecoration(s: string)
    requires Undecorated(s)
    ensures s != "" && !HasPrefix(s, "*.") && !HasSuffix(s, "$") && !HasPrefix(s + "$", "*.")
  {
    hide Tidy;
    assert |s| >= 2 ==> (s + "$")[..2] == s[..2];
    assert |s| == 1 ==> (s + "$")[1] == '$';
  }

  lemma StripFront(s: string)
    ensures TrimPrefix("*." + s, "*.") == s
  {
    assert ("*." + s)[2..] == s;
  }

  lemma StripBack(s: string)
    ensures TrimSuffix(s + "$", "$") == s
  {
    assert (s + "$")[|s|..] == "$" && (s + "$")[..|s|] == s;
  }

  lemma StripForms(s: string)
    requires Undecorated(s)
    ensures Strip(s) == Strip("*." + s) == Strip(s + "$") == Strip("*." + s + "$") == s
  {
    NoDecoration(s);
    StripFront(s);
    StripFront(s + "$");
    StripBack(s);
    hide Undecorated, HasPrefix, HasSuffix;
    assert "*." + s + "$" == "*." + (s + "$");
  }

  lemma DecoratedIsTidy(s: string)
    requires Undecorated(s)
    ensures Normal(s) == s && Normal("*." + s) == "*." + s && Normal(s + "$") == s + "$"
    ensures Normal("*." + s + "$") == "*." + s + "$"
    ensures !HasPrefix(s, "~") && !HasPrefix("*." + s, "~") && !HasPrefix(s + "$", "~")
    ensures !HasPrefix("*." + s + "$", "~")
  {
    TidyIff(s);
    TidyIff("*." + s);
    TidyIff(s + "$");
    TidyIff("*." + s + "$");
  }

  /** A leading "*." and a trailing "$" make no difference, neither to the score nor to the other matcher. */
  lemma DecorationsDoNotMatter(host: string, s: string, regex: Regex)
    requires Undecorated(s)
    ensures Classify(host, "*." + s, regex) == Classify(host, s, regex)
    ensures Classify(host, s + "$", regex) == Classify(host, s, regex)
    ensures Classify(host, "*." + s + "$", regex) == Classify(host, s, regex)
    ensures HostMatches(host, "*." + s) <==> HostMatches(host, s)
    ensures HostMatches(host, s + "$") <==> HostMatches(host, s)
    ensures HostMatches(host, "*." + s + "$") <==> HostMatches(host, s)
  {
    hide Normal, Strip, ClassifyPlain, BaseMatches, Covers, HasPrefix, HasSuffix, Undecorated;
    StripForms(s);
    DecoratedIsTidy(s);
    assert "*." + s != "" && s + "$" != "" && "*." + s + "$" != "";
    PlainFormNotEmpty(s);
  }

  lemma PlainFormNotEmpty(s: string)
    requires Undecorated(s)
    ensures s != ""
  {
  }

  /** A name below s scores the length of s on "*." + s, and matches. */
  lemma SubdomainScores(x: string, s: string, regex: Regex)
    requires Undecorated(s) && s != "*" && !HasSuffix(s, ".*") && Tidy(x + "." + s)
    ensures Classify(x + "." + s, "*." + s, regex) == Suffix(|s|)
    ensures Classify(x + "." + s, "*." + s, regex).Score() == |s|
    ensures HostMatches(x + "." + s, "*." + s)
  {
    hide Normal, Tidy, Strip, ClassifyPlain, HostMatches, HasSuffix, Undecorated;
    var h := x + "." + s;
    TidyIff(h);
    DecoratedIsTidy(s);
    StripForms(s);
    PlainSuffix(h, x, s);
    ClassifyTidy(h, "*." + s, regex);
    HostMatchesTidy(h, "*." + s);
  }

  lemma PlainSuffix(h: string, x: string, s: string)
    requires h == x + "." + s && s != "*" && !HasSuffix(s, ".*")
    ensures ClassifyPlain(h, s) == Suffix(|s|) && Covers(s, h)
  {
    hide BaseMatches;
    assert h == x + ("." + s);
    assert h[|x|..] == "." + s;
  }

  lemma ClassifyTidy(h: string, d: string, regex: Regex)
    requires Normal(h) == h != "" && Normal(d) == d != "" && !HasPrefix(d, "~")
    ensures Classify(h, d, regex) == ClassifyPlain(h, Strip(d))
  {
    hide ClassifyPlain, Normal;
  }

  lemma HostMatchesTidy(h: string, d: string)
    requires Normal(h) == h != "" && Normal(d) == d != "" && !HasSuffix(Strip(d), ".*")
    ensures HostMatches(h, d) <==> Covers(Strip(d), h)
  {
    hide Normal, Covers, BaseMatches;
  }

  // ---------------------------------------------------------------------------
  // Precedence
  // ---------------------------------------------------------------------------

  lemma BaseIsShorter(h: string, base: string)
    requires BaseMatches(h, base)
    ensures 1 <= |base| < |h|
  {
    var k: nat :| OccursAt("." + h, "." + base + ".", k);
  }

  lemma PlainLengths(h: string, s: string)
    ensures match ClassifyPlain(h, s)
      case Exact(len) => len == |h|
      case Suffix(len) => len < |h|
      case Base(len) => 1 <= len < |h|
      case Regular(_) => false
      case _ => true
  {
    if HasSuffix(s, ".*") && BaseMatches(h, s[..|s| - 2]) {
      BaseIsShorter(h, s[..|s| - 2]);
    }
  }

  /** What each kind of match says about the lengths of pattern and host. */
  lemma MatchLengths(host: string, domain: string, regex: Regex)
    ensures var n := |Normal(host)|;
      match Classify(host, domain, regex)
      case Exact(len) => len == n
      case Suffix(len) => len < n
      case Base(len) => 1 <= len < n
      case _ => true
  {
    var h, d := Normal(host), Normal(domain);
    if h != "" && d != "" && !HasPrefix(d, "~") {
      PlainLengths(h, Strip(d));
      assert Classify(host, domain, regex) == ClassifyPlain(h, Strip(d));
    } else {
      assert Classify(host, domain, regex) == NoMatch || Classify(host, domain, regex).Regular?;
    }
  }

  /** An exact match outscores every suffix, base.* and wildcard match of the same host. */
  lemma ExactBeatsPlain(host: string, d1: string, d2: string, regex: Regex)
    requires Classify(host, d1, regex).Exact?
    requires !Classify(host, d2, regex).Exact? && !Classify(host, d2, regex).Regular?
    ensures Classify(host, d1, regex).Score() > Classify(host, d2, regex).Score()
  {
    MatchLengths(host, d1, regex);
    MatchLengths(host, d2, regex);
  }

  /** An exact match outscores a regular expression exactly when the expression is short enough. */
  lemma ExactBeatsRegexIff(host: string, d1: string, d2: string, regex: Regex)
    requires Classify(host, d1, regex).Exact? && Classify(host, d2, regex).Regular?
    ensures Classify(host, d1, regex).Score() > Classify(host, d2, regex).Score() <==>
      |Trim(Normal(d2)[1..])| < |Normal(host)| + 100
  {
    hide Classify, Normal;
    MatchLengths(host, d1, regex);
    RegularLength(host, d2, regex);
  }

  lemma RegularLength(host: string, domain: string, regex: Regex)
    requires Classify(host, domain, regex).Regular?
    ensures HasPrefix(Normal(domain), "~") && Classify(host, domain, regex).len == |Trim(Normal(domain)[1..])| >= 1
  {
    var h, d := Normal(host), Normal(domain);
    if !HasPrefix(d, "~") {
      PlainLengths(h, Strip(d));
    }
  }

  /** The number of characters a suffix or base.* pattern is scored by. */
  ghost function InexactLength(m: Match): nat {
    match m
    case Suffix(n) => n
    case Base(n) => n
    case _ => 0
  }

  /**
   * A regular expression outscores a match that is not exact exactly when that pattern is shorter than the expression
   * and 900 characters; in particular whenever the host is not longer than that.
   */
  lemma RegexBeatsInexactIff(host: string, d1: string, d2: string, regex: Regex)
    requires Classify(host, d1, regex).Regular?
    requires !Classify(host, d2, regex).Exact? && !Classify(host, d2, regex).Regular?
    ensures var p := |Trim(Normal(d1)[1..])|;
      && (Classify(host, d1, regex).Score() > Classify(host, d2, regex).Score() <==>
            InexactLength(Classify(host, d2, regex)) < 900 + p)
      && (|Normal(host)| <= 900 + p ==> Classify(host, d1, regex).Score() > Classify(host, d2, regex).Score())
  {
    hide Classify, Normal;
    RegularLength(host, d1, regex);
    MatchLengths(host, d2, regex);
  }

  /** The letter "a" as fifty-one alternatives: a|a|...|a. */
  const MANY_A: string := seq(101, i => if i % 2 == 0 then 'a' else '|')

  lemma ManyATidy()
    ensures |MANY_A| == 101 && Tidy(MANY_A) && Tidy("~" + MANY_A)
  {
  }

  lemma PlainExact(h: string)
    requires !HasSuffix(h, ".*") && h != "*"
    ensures ClassifyPlain(h, h) == Exact(|h|)
  {
  }

  lemma OneLetter(regex: Regex)
    ensures Normal("a") == "a" && Classify("a", "a", regex) == Exact(1)
  {
    assert Undecorated("a");
    assert !HasSuffix("a", ".*");
    hide *;
    DecoratedIsTidy("a");
    StripForms("a");
    ClassifyTidy("a", "a", regex);
    PlainExact("a");
  }

  /** An expression of a hundred and one characters that matches the host "a" scores as much as the exact pattern. */
  lemma LongRegexTies(regex: Regex)
    requires regex(MANY_A, "a") == Some(true)
    ensures Classify("a", "a", regex).Exact? && Classify("a", "~" + MANY_A, regex).Regular?
    ensures Classify("a", "a", regex).Score() == Classify("a", "~" + MANY_A, regex).Score()
  {
    ManyATidy();
    TidyIff("~" + MANY_A);
    TidyIsTrimmed(MANY_A);
    OneLetter(regex);
    hide Normal, Tidy, Trim, MANY_A, ClassifyPlain;
    assert ("~" + MANY_A)[1..] == MANY_A && HasPrefix("~" + MANY_A, "~");
  }

  /** Only the score knows the wildcard. */
  lemma WildcardSeparatesMatchers(regex: Regex)
    ensures !HostMatches("a", "*") && Classify("a", "*", regex).Score() == 1
  {
    TidyIff("a");
    TidyIff("*");
    assert Normal("a") == "a" && Normal("*") == "*";
    hide Normal, Tidy, Contains;
    assert Strip("*") == "*" && !HasSuffix("a", "." + "*") && !HasSuffix("*", ".*");
  }

  // ---------------------------------------------------------------------------
  // Picking a rule
  // ---------------------------------------------------------------------------

  datatype Rule = Rule(domain: string, mode: string, enabled: bool, autoRouted: bool, rest: string)

  /** What the rule scores for the host; a disabled rule never competes. */
  ghost function ScoreOf(rule: Rule, host: string, regex: Regex): int {
    if rule.enabled then Classify(host, rule.domain, regex).Score() else -1
  }

  /** Rule k is the first of those with the highest score, and matches. */
  ghost predicate IsBest(rules: seq<Rule>, host: string, regex: Regex, k: nat) {
    && k < |rules| && ScoreOf(rules[k], host, regex) >= 0
    && (forall j :: 0 <= j < |rules| ==> ScoreOf(rules[j], host, regex) <= ScoreOf(rules[k], host, regex))
    && (forall j :: 0 <= j < k ==> ScoreOf(rules[j], host, regex) < ScoreOf(rules[k], host, regex))
  }

  ghost predicate NoneMatches(rules: seq<Rule>, host: string, regex: Regex) {
    forall j :: 0 <= j < |rules| ==> ScoreOf(rules[j], host, regex) < 0
  }

  function Global(mode: string, autoRouted: bool): Rule {
    Rule("", mode, true, autoRouted, "")
  }

  /** In transparent mode an interception rule is downgraded. */
  function Downgrade(rule: Rule, mode: string): Rule {
    if mode == "transparent" && rule.mode == "mitm" then rule.(mode := "direct") else rule
  }

  class RuleManager {
    var rules: seq<Rule>
    var autoMode: Option<string>  // the auto-routing mode, when there is an auto router

    constructor (rules: seq<Rule>, autoMode: Option<string>)
      ensures this.rules == rules && this.autoMode == autoMode
    {
      this.rules, this.autoMode := rules, autoMode;
    }

    /** The mode every host gets, whatever the rules say. */
    function Override(mode: string): Option<Rule>
      reads this
    {
      if mode == "v2ray" || mode == "gas" then Some(Global(mode, false))
      else if autoMode == Some("v2ray") || autoMode == Some("gas") then Some(Global(autoMode.value, true))
      else None
    }

    /** The first rule of the highest score; the score is negative when no rule matches. */
    method BestRule(host: string, regex: Regex) returns (best: Rule, bestScore: int)
      ensures bestScore < 0 <==> NoneMatches(rules, host, regex)
      ensures bestScore >= 0 ==> exists k: nat :: IsBest(rules, host, regex, k) && best == rules[k]
    {
      hide Classify;
      best, bestScore := Rule("", "", false, false, ""), -1;
      ghost var at: nat := 0;
      var i := 0;
      while i < |rules|
        invariant 0 <= i <= |rules|
        invariant bestScore >= -1
        invariant forall j :: 0 <= j < i ==> ScoreOf(rules[j], host, regex) <= bestScore
        invariant bestScore >= 0 ==> at < i && best == rules[at] && bestScore == ScoreOf(best, host, regex)
        invariant bestScore >= 0 ==> forall j :: 0 <= j < at ==> ScoreOf(rules[j], host, regex) < bestScore
      {
        if rules[i].enabled {
          var score := DomainMatchScore(host, rules[i].domain, regex);
          if score >= 0 && score > bestScore {
            best, bestScore, at := rules[i], score, i;
          }
        }
        i := i + 1;
      }
      if bestScore >= 0 {
        assert IsBest(rules, host, regex, at);
      }
    }

    /** `decide` is the auto router's verdict on a host. */
    method MatchRule(host: string, mode: string, regex: Regex, decide: string -> Rule) returns (r: Rule)
      ensures var m := Normal(mode);
        if Override(m).Some? then r == Override(m).value
        else
          && (NoneMatches(rules, host, regex) ==>
                r == if autoMode.Some? && autoMode.value != "" && decide(host).mode != "direct"
                     then decide(host) else Global("direct", false))
          && (!NoneMatches(rules, host, regex) ==>
                exists k: nat :: IsBest(rules, host, regex, k) && r == Downgrade(rules[k], m))
      ensures Normal(mode) == "v2ray" ==> r == Rule("", "v2ray", true, false, "")
      ensures Normal(mode) == "gas" ==> r == Rule("", "gas", true, false, "")
      ensures Normal(mode) != "v2ray" && Normal(mode) != "gas" && autoMode == Some("v2ray") ==>
        r == Rule("", "v2ray", true, true, "")
      ensures Normal(mode) != "v2ray" && Normal(mode) != "gas" && autoMode == Some("gas") ==>
        r == Rule("", "gas", true, true, "")
      ensures Override(Normal(mode)).Some? <==>
        Normal(mode) == "v2ray" || Normal(mode) == "gas" || autoMode == Some("v2ray") || autoMode == Some("gas")
    {
      hide Normal, Classify, NoneMatches, IsBest;
      var m := Normal(mode);
      if m == "v2ray" { return Global("v2ray", false); }
      if m == "gas" { return Global("gas", false); }
      if autoMode.Some? {
        if autoMode.value == "v2ray" { return Global("v2ray", true); }
        if autoMode.value == "gas" { return Global("gas", true); }
      }
      var best, bestScore := BestRule(host, regex);
      if bestScore >= 0 {
        if m == "transparent" && best.mode == "mitm" {
          best := best.(mode := "direct");
        }
        return best;
      }
      if autoMode.Some? && autoMode.value != "" {
        var autoRule := decide(host);
        if autoRule.mode != "direct" {
          return autoRule;
        }
      }
      return Global("direct", false);
    }
  }

  /** Interception becomes a direct connection in transparent mode, and every other rule stays as it is. */
  lemma DowngradeIff(rule: Rule, mode: string)
    ensures Downgrade(rule, mode).mode ==
      if mode == "transparent" && rule.mode == "mitm" then "direct" else rule.mode
    ensures Downgrade(rule, mode).(mode := rule.mode) == rule
    ensures Downgrade(rule, mode) != rule <==> mode == "transparent" && rule.mode == "mitm"
  {
  }

  /** The rule that is picked is enabled and matches the host. */
  lemma BestMatches(rules: seq<Rule>, host: string, regex: Regex, k: nat)
    requires IsBest(rules, host, regex, k)
    ensures rules[k].enabled && Classify(host, rules[k].domain, regex) != NoMatch
  {
    assert ScoreOf(rules[k], host, regex) >= 0;
  }

  /** The rule that is picked is unique. */
  lemma BestIsUnique(rules: seq<Rule>, host: string, regex: Regex, j: nat, k: nat)
    requires IsBest(rules, host, regex, j) && IsBest(rules, host, regex, k)
    ensures j == k
  {
    assert ScoreOf(rules[j], host, regex) == ScoreOf(rules[k], host, regex);
  }

  /** No enabled regular expression that matches is as long as the host and a hundred characters. */
  ghost predicate ShortExpressions(rules: seq<Rule>, host: string, regex: Regex) {
    forall j :: 0 <= j < |rules| && rules[j].enabled ==>
      var m := Classify(host, rules[j].domain, regex);
      m.Regular? ==> m.len < |Normal(host)| + 100
  }

  /** An enabled exact rule always wins over suffix, base.* and wildcard rules, and over short expressions. */
  lemma ExactRuleWins(rules: seq<Rule>, host: string, regex: Regex, j: nat, k: nat)
    requires j < |rules| && rules[j].enabled && Classify(host, rules[j].domain, regex).Exact?
    requires IsBest(rules, host, regex, k) && ShortExpressions(rules, host, regex)
    ensures Classify(host, rules[k].domain, regex).Exact? && k <= j
  {
    assert ScoreOf(rules[j], host, regex) <= ScoreOf(rules[k], host, regex);
    MatchLengths(host, rules[j].domain, regex);
    MatchLengths(host, rules[k].domain, regex);
  }

  /** When a suffix rule is picked, no enabled suffix rule of the host is longer, and none matches exactly. */
  lemma LongestSuffixWins(rules: seq<Rule>, host: string, regex: Regex, j: nat, k: nat)
    requires IsBest(rules, host, regex, k) && Classify(host, rules[k].domain, regex).Suffix?
    requires j < |rules| && rules[j].enabled
    ensures var m := Classify(host, rules[j].domain, regex);
      && !m.Exact?
      && (m.Suffix? ==> m.len <= Classify(host, rules[k].domain, regex).len)
  {
    assert ScoreOf(rules[j], host, regex) <= ScoreOf(rules[k], host, regex);
    MatchLengths(host, rules[j].domain, regex);
    MatchLengths(host, rules[k].domain, regex);
  }
}
