// proxy/config.go: ImportConfigWithSummary, the merge of imported rule groups into the existing ones.
module ImportMerge {
  import opened Options
  import opened Strings
  import MergeKeys

  datatype SiteGroup = SiteGroup(id: string, mode: string, domains: seq<string>, rest: string)

  const NO_KEY := "|"

  function MergeKey(sg: SiteGroup): string {
    Normal(sg.mode) + "|" + MergeKeys.DomainKey(sg.domains)
  }

  /** Up to a separator that occurs in neither of them, two texts can be read off their concatenation. */
  lemma SeparatedEqual(x: string, y: string, x': string, y': string, c: char)
    requires c !in x && c !in x' && x + [c] + y == x' + [c] + y'
    ensures x == x' && y == y'
  {
    var s := x + [c] + y;
    assert s[|x|] == c && s[|x'|] == c;
    assert forall i :: 0 <= i < |x| ==> s[i] == x[i] && x[i] in x;
    assert forall i :: 0 <= i < |x'| ==> s[i] == x'[i] && x'[i] in x';
    assert x == s[..|x|] && x' == s[..|x'|];
    assert y == s[|x| + 1..] && y' == s[|x'| + 1..];
  }

  /**
   * With modes without a bar, as all known ones are, and comma-free domains, two groups share a key exactly when their
   * modes are the same but for case and white space and their domains are the same set.
   */
  lemma MergeKeyIsCanonical(a: SiteGroup, b: SiteGroup)
    requires '|' !in Normal(a.mode) && '|' !in Normal(b.mode)
    requires MergeKeys.CommaFree(a.domains) && MergeKeys.CommaFree(b.domains)
    ensures MergeKey(a) == MergeKey(b) <==>
      Normal(a.mode) == Normal(b.mode) && MergeKeys.NormSet(a.domains) == MergeKeys.NormSet(b.domains)
  {
    MergeKeys.KeyIsCanonical(a.domains, b.domains);
    if MergeKey(a) == MergeKey(b) {
      SeparatedEqual(Normal(a.mode), MergeKeys.DomainKey(a.domains),
                     Normal(b.mode), MergeKeys.DomainKey(b.domains), '|');
    }
  }

  /** Some list has this key. */
  lemma KeysAreTidy(domains: seq<string>)
    ensures Tidy(MergeKeys.DomainKey(domains))
  {
    var y := MergeKeys.KeyParts(domains);
    if y != [] {
      MergeKeys.JoinTidy(y);
    }
  }

  lemma TidyIsKey(k: string) returns (domains: seq<string>)
    requires Tidy(k)
    ensures MergeKeys.DomainKey(domains) == k
  {
    if k == "" {
      domains := [];
    } else {
      TidyIff(k);
      MergeKeys.OneDomain(k);
      domains := [k];
    }
  }

  /** The key can also be read with its mode ending at p. */
  predicate ReadsAt(key: string, p: nat) {
    p < |key| && key[p] == '|' && Tidy(key[..p]) && Tidy(key[p + 1..])
  }

  /** Only a group without a mode and without any domain has no key. */
  lemma NoKeyIff(sg: SiteGroup)
    ensures MergeKey(sg) == NO_KEY <==> Normal(sg.mode) == "" && MergeKeys.NormSet(sg.domains) == {}
  {
    var y := MergeKeys.KeyParts(sg.domains);
    MergeKeys.JoinEmpty(y);
    assert |MergeKey(sg)| == |Normal(sg.mode)| + 1 + |MergeKeys.DomainKey(sg.domains)|;
    if y != [] {
      assert y[0] in MergeKeys.Elements(y);
    }
  }

  /** No other bar of the key can end a mode, and the domains can be told from theirs. */
  predicate Unambiguous(sg: SiteGroup) {
    && (forall p :: 0 <= p < |MergeKey(sg)| && ReadsAt(MergeKey(sg), p) ==> p == |Normal(sg.mode)|)
    && MergeKeys.Unambiguous(MergeKeys.NormSet(sg.domains))
  }

  predicate SameModeAndDomains(a: SiteGroup, b: SiteGroup) {
    Normal(a.mode) == Normal(b.mode) && MergeKeys.NormSet(a.domains) == MergeKeys.NormSet(b.domains)
  }

  /** The key of a group is the key of no group of another mode or other domains. */
  ghost predicate KeyIdentifies(sg: SiteGroup) {
    forall b: SiteGroup :: MergeKey(b) == MergeKey(sg) ==> SameModeAndDomains(b, sg)
  }

  lemma KeyReadsAtMode(b: SiteGroup)
    ensures var m, k, key := Normal(b.mode), MergeKeys.DomainKey(b.domains), MergeKey(b);
      ReadsAt(key, |m|) && key[..|m|] == m && key[|m| + 1..] == k
  {
    NormalIsTidy(b.mode);
    KeysAreTidy(b.domains);
    var m, k, key := Normal(b.mode), MergeKeys.DomainKey(b.domains), MergeKey(b);
    assert key[..|m|] == m && key[|m| + 1..] == k;
  }

  lemma KeyAt(sg: SiteGroup, key: string, p: nat, mode: string, domains: seq<string>)
    requires p < |key| && key[p] == '|' && mode == key[..p] == Normal(mode)
    requires MergeKeys.DomainKey(domains) == key[p + 1..]
    ensures MergeKey(sg.(mode := mode, domains := domains)) == key
  {
    hide Normal, MergeKeys.DomainKey;
    assert key == key[..p] + "|" + key[p + 1..];
  }

  /** Another group with the key of sg. */
  lemma Collision(sg: SiteGroup) returns (b: SiteGroup)
    requires !Unambiguous(sg)
    ensures MergeKey(b) == MergeKey(sg) && !SameModeAndDomains(b, sg)
  {
    hide Normal, Tidy, MergeKeys.DomainKey, MergeKeys.NormSet;
    var key := MergeKey(sg);
    if p :| 0 <= p < |key| && ReadsAt(key, p) && p != |Normal(sg.mode)| {
      var domains := TidyIsKey(key[p + 1..]);
      b := sg.(mode := key[..p], domains := domains);
      TidyIff(key[..p]);
      KeyAt(sg, key, p, key[..p], domains);
    } else {
      var domains := MergeKeys.Collision(sg.domains);
      b := sg.(domains := domains);
    }
  }

  /**
   * A group can be told from its key exactly when no other bar of the key leaves a mode before it and domains behind
   * it, and its domains can be told from theirs.
   */
  lemma MergeKeyIdentifiesIff(sg: SiteGroup)
    ensures KeyIdentifies(sg) <==> Unambiguous(sg)
  {
    if Unambiguous(sg) {
      forall b: SiteGroup | MergeKey(b) == MergeKey(sg) ensures SameModeAndDomains(b, sg) {
        KeyReadsAtMode(b);
        KeyReadsAtMode(sg);
        MergeKeys.NoCollision(sg.domains, b.domains);
      }
    } else {
      var b := Collision(sg);
    }
  }

  /** The last position of a key, or -1. */
  function LastIndex(groups: seq<SiteGroup>, key: string): (i: int)
    ensures -1 <= i < |groups|
    ensures i >= 0 ==> MergeKey(groups[i]) == key
    ensures forall j :: i < j < |groups| ==> MergeKey(groups[j]) != key
  {
    if groups == [] then -1
    else if MergeKey(groups[|groups| - 1]) == key then |groups| - 1
    else LastIndex(groups[..|groups| - 1], key)
  }

  /** The contract of LastIndex leaves no choice. */
  lemma LastIndexIs(groups: seq<SiteGroup>, key: string, i: int)
    requires -1 <= i < |groups|
    requires i >= 0 ==> MergeKey(groups[i]) == key
    requires forall j :: i < j < |groups| ==> MergeKey(groups[j]) != key
    ensures LastIndex(groups, key) == i
  {
    var l := LastIndex(groups, key);
    assert !(l < i) && !(i < l);
  }

  // ---------------------------------------------------------------------------
  // The naive merge: for every imported group, look for the last group with its key
  // ---------------------------------------------------------------------------

  function MergeOne(groups: seq<SiteGroup>, sg: SiteGroup): seq<SiteGroup> {
    var i := LastIndex(groups, MergeKey(sg));
    if MergeKey(sg) == NO_KEY then groups
    else if i >= 0 then groups[i := sg.(id := groups[i].id)]
    else groups + [sg]
  }

  function Merge(groups: seq<SiteGroup>, imported: seq<SiteGroup>): seq<SiteGroup> {
    if imported == [] then groups
    else MergeOne(Merge(groups, imported[..|imported| - 1]), imported[|imported| - 1])
  }

  // ---------------------------------------------------------------------------
  // The merge as written, with an index
  // ---------------------------------------------------------------------------

  /** The index names the last group of every key. */
  ghost predicate Indexes(index: map<string, nat>, groups: seq<SiteGroup>) {
    forall key: string ::
      && (key in index <==> key != NO_KEY && LastIndex(groups, key) >= 0)
      && (key in index ==> index[key] == LastIndex(groups, key))
  }

  lemma AppendIndex(groups: seq<SiteGroup>, sg: SiteGroup, key: string)
    ensures LastIndex(groups + [sg], key) == if MergeKey(sg) == key then |groups| else LastIndex(groups, key)
  {
    assert (groups + [sg])[..|groups|] == groups;
  }

  lemma ReplaceIndex(groups: seq<SiteGroup>, i: nat, sg: SiteGroup, key: string)
    requires i < |groups| && MergeKey(sg) == MergeKey(groups[i])
    ensures LastIndex(groups[i := sg], key) == LastIndex(groups, key)
  {
    var l := LastIndex(groups, key);
    LastIndexIs(groups[i := sg], key, l);
  }

  method BuildIndex(groups: seq<SiteGroup>) returns (index: map<string, nat>)
    ensures Indexes(index, groups)
  {
    index := map[];
    for i := 0 to |groups|
      invariant Indexes(index, groups[..i])
    {
      assert groups[..i + 1] == groups[..i] + [groups[i]];
      forall key: string {
        AppendIndex(groups[..i], groups[i], key);
      }
      var key := MergeKey(groups[i]);
      if key == NO_KEY { continue; }
      index := index[key := i];
    }
    assert groups[..|groups|] == groups;
  }

  lemma ReplaceKeepsIndex(index: map<string, nat>, groups: seq<SiteGroup>, i: nat, sg: SiteGroup)
    requires Indexes(index, groups) && i < |groups| && MergeKey(sg) == MergeKey(groups[i])
    ensures Indexes(index, groups[i := sg])
  {
    forall k: string {
      ReplaceIndex(groups, i, sg, k);
    }
  }

  lemma AppendExtendsIndex(index: map<string, nat>, groups: seq<SiteGroup>, sg: SiteGroup)
    requires Indexes(index, groups) && MergeKey(sg) != NO_KEY
    ensures Indexes(index[MergeKey(sg) := |groups|], groups + [sg])
  {
    forall k: string {
      AppendIndex(groups, sg, k);
    }
  }

  /** How many groups have no key. */
  function NoKeys(groups: seq<SiteGroup>): nat {
    if groups == [] then 0
    else NoKeys(groups[..|groups| - 1]) + if MergeKey(groups[|groups| - 1]) == NO_KEY then 1 else 0
  }

  method MergeImported(existing: seq<SiteGroup>, imported: seq<SiteGroup>)
    returns (merged: seq<SiteGroup>, added: nat, overwritten: nat, skipped: nat)
    ensures merged == Merge(existing, imported)
    ensures added == |merged| - |existing|
    ensures added + overwritten + skipped == |imported|
    ensures skipped == NoKeys(imported)
  {
    hide MergeKey;
    merged := existing;
    added, overwritten, skipped := 0, 0, 0;
    var index: map<string, nat> := BuildIndex(merged);
    var n := 0;
    while n < |imported|
      invariant 0 <= n <= |imported|
      invariant merged == Merge(existing, imported[..n])
      invariant Indexes(index, merged)
      invariant added == |merged| - |existing| && added + overwritten + skipped == n
      invariant skipped == NoKeys(imported[..n])
    {
      assert imported[..n + 1][..n] == imported[..n];
      var sg := imported[n];
      var key := MergeKey(sg);
      n := n + 1;
      if key == NO_KEY {
        skipped := skipped + 1;
      } else if key in index {
        var idx := index[key];
        KeyIgnoresId(sg, merged[idx].id);
        ReplaceKeepsIndex(index, merged, idx, sg.(id := merged[idx].id));
        merged := merged[idx := sg.(id := merged[idx].id)];
        overwritten := overwritten + 1;
      } else {
        AppendExtendsIndex(index, merged, sg);
        index := index[key := |merged|];
        merged := merged + [sg];
        added := added + 1;
      }
    }
    assert imported[..|imported|] == imported;
  }

  lemma KeyIgnoresId(sg: SiteGroup, id: string)
    ensures MergeKey(sg.(id := id)) == MergeKey(sg)
  {
  }

  // ---------------------------------------------------------------------------
  // What a merge does to the list
  // ---------------------------------------------------------------------------

  /** r still has, at every position of m, the key and the ID that were there. */
  predicate KeepsPositions(m: seq<SiteGroup>, r: seq<SiteGroup>) {
    |m| <= |r| && forall i :: 0 <= i < |m| ==> MergeKey(r[i]) == MergeKey(m[i]) && r[i].id == m[i].id
  }

  /** The groups behind the first n have keys of their own, which none of the first n has. */
  predicate FreshFrom(r: seq<SiteGroup>, n: nat) {
    forall j :: n <= j < |r| ==>
      MergeKey(r[j]) != NO_KEY && forall i :: 0 <= i < j ==> MergeKey(r[i]) != MergeKey(r[j])
  }

  lemma {:induction false} MergeKeepsPositions(m: seq<SiteGroup>, imported: seq<SiteGroup>)
    ensures KeepsPositions(m, Merge(m, imported)) && FreshFrom(Merge(m, imported), |m|)
    decreases |imported|
  {
    if imported != [] {
      var n := |imported| - 1;
      MergeKeepsPositions(m, imported[..n]);
      MergeOneKeeps(Merge(m, imported[..n]), imported[n], |m|);
    }
  }

  lemma MergeOneKeeps(r: seq<SiteGroup>, sg: SiteGroup, n: nat)
    requires n <= |r| && FreshFrom(r, n)
    ensures KeepsPositions(r, MergeOne(r, sg)) && FreshFrom(MergeOne(r, sg), n)
  {
    hide MergeKey;
    var i := LastIndex(r, MergeKey(sg));
    if i >= 0 {
      KeyIgnoresId(sg, r[i].id);
    }
  }

  /** A group that is last of its key in r, which kept the positions of m, was last of its key in m. */
  lemma LastIndexOfPrefix(m: seq<SiteGroup>, r: seq<SiteGroup>, i: nat)
    requires KeepsPositions(m, r) && i < |m|
    ensures LastIndex(r, MergeKey(m[i])) == i ==> LastIndex(m, MergeKey(m[i])) == i
  {
    var key := MergeKey(m[i]);
    if LastIndex(r, key) == i {
      forall j | i < j < |m| ensures MergeKey(m[j]) != key {
        assert MergeKey(r[j]) == MergeKey(m[j]);
      }
      LastIndexIs(m, key, i);
    }
  }

  /** A group is only ever replaced at the last position of its key, and only when that key is imported. */
  lemma {:induction false} MergeLeavesOthers(m: seq<SiteGroup>, imported: seq<SiteGroup>, i: nat)
    requires i < |m|
    requires LastIndex(imported, MergeKey(m[i])) < 0 || LastIndex(m, MergeKey(m[i])) != i
    ensures i < |Merge(m, imported)| && Merge(m, imported)[i] == m[i]
    decreases |imported|
  {
    MergeKeepsPositions(m, imported);
    if imported != [] {
      var n := |imported| - 1;
      var before := imported[..n];
      MergeLeavesOthers(m, before, i);
      MergeKeepsPositions(m, before);
      var r := Merge(m, before);
      LastIndexOfPrefix(m, r, i);
    }
  }

  /** One imported group: its key ends up at it, under the old ID if there was one, and other keys stay. */
  lemma MergeOneIndex(r: seq<SiteGroup>, sg: SiteGroup, key: string)
    requires key != NO_KEY
    ensures var r' := MergeOne(r, sg);
      var i := LastIndex(r', key);
      if MergeKey(sg) == key then i >= 0 && r'[i] == sg.(id := r'[i].id)
      else i == LastIndex(r, key) && (i >= 0 ==> r'[i] == r[i])
  {
    var i := LastIndex(r, MergeKey(sg));
    if i >= 0 {
      KeyIgnoresId(sg, r[i].id);
      ReplaceIndex(r, i, sg.(id := r[i].id), key);
    } else {
      AppendIndex(r, sg, key);
    }
  }

  /** For every imported key, the group that ends up last is the last one imported, under the old ID if any. */
  lemma {:induction false} LastImportedWins(m: seq<SiteGroup>, imported: seq<SiteGroup>, key: string)
    requires key != NO_KEY && LastIndex(imported, key) >= 0
    ensures var r := Merge(m, imported);
      var i := LastIndex(r, key);
      i >= 0 && r[i] == imported[LastIndex(imported, key)].(id := r[i].id)
    decreases |imported|
  {
    var n := |imported| - 1;
    MergeOneIndex(Merge(m, imported[..n]), imported[n], key);
    if MergeKey(imported[n]) != key {
      LastImportedWins(m, imported[..n], key);
    }
  }

  /** The same groups imported again, with new IDs. */
  predicate SameButIds(a: seq<SiteGroup>, b: seq<SiteGroup>) {
    |a| == |b| && forall i :: 0 <= i < |a| ==> a[i] == b[i].(id := a[i].id)
  }

  lemma {:induction false} SameLastIndex(a: seq<SiteGroup>, b: seq<SiteGroup>, key: string)
    requires SameButIds(a, b)
    ensures LastIndex(a, key) == LastIndex(b, key)
  {
    forall i | 0 <= i < |a| ensures MergeKey(a[i]) == MergeKey(b[i]) {
      KeyIgnoresId(b[i], a[i].id);
    }
    LastIndexIs(a, key, LastIndex(b, key));
  }

  lemma {:induction false} NothingAdded(r: seq<SiteGroup>, imported: seq<SiteGroup>)
    requires forall sg <- imported :: MergeKey(sg) == NO_KEY || LastIndex(r, MergeKey(sg)) >= 0
    ensures |Merge(r, imported)| == |r|
    decreases |imported|
  {
    if imported != [] {
      var n := |imported| - 1;
      var sg := imported[n];
      NothingAdded(r, imported[..n]);
      MergeKeepsPositions(r, imported[..n]);
      var i := LastIndex(r, MergeKey(sg));
      if i >= 0 {
        LastIndexAtLeast(Merge(r, imported[..n]), MergeKey(sg), i);
      }
    }
  }

  lemma LastIndexAtLeast(groups: seq<SiteGroup>, key: string, i: nat)
    requires i < |groups| && MergeKey(groups[i]) == key
    ensures LastIndex(groups, key) >= i
  {
  }

  /** Importing the same groups a second time changes nothing at all, and adds nothing. */
  lemma ImportIsIdempotent(m: seq<SiteGroup>, imported: seq<SiteGroup>, again: seq<SiteGroup>)
    requires SameButIds(again, imported)
    ensures Merge(Merge(m, imported), again) == Merge(m, imported)
  {
    var r := Merge(m, imported);
    forall sg | sg in again ensures MergeKey(sg) == NO_KEY || LastIndex(r, MergeKey(sg)) >= 0 {
      var k :| 0 <= k < |again| && again[k] == sg;
      LastIndexAtLeast(again, MergeKey(sg), k);
      SameLastIndex(again, imported, MergeKey(sg));
      if MergeKey(sg) != NO_KEY {
        LastImportedWins(m, imported, MergeKey(sg));
      }
    }
    NothingAdded(r, again);
    var r2 := Merge(r, again);
    forall i | 0 <= i < |r| ensures r2[i] == r[i] {
      SecondImportKeeps(m, imported, again, i);
    }
  }

  lemma SecondImportKeeps(m: seq<SiteGroup>, imported: seq<SiteGroup>, again: seq<SiteGroup>, i: nat)
    requires SameButIds(again, imported) && i < |Merge(m, imported)|
    requires |Merge(Merge(m, imported), again)| == |Merge(m, imported)|
    ensures Merge(Merge(m, imported), again)[i] == Merge(m, imported)[i]
  {
    hide Merge, LastIndex, MergeKey;
    var r := Merge(m, imported);
    var r2 := Merge(r, again);
    var key := MergeKey(r[i]);
    SameLastIndex(again, imported, key);
    if LastIndex(again, key) < 0 || LastIndex(r, key) != i {
      MergeLeavesOthers(r, again, i);
    } else if key == NO_KEY {
      NoKeyUntouched(r, again, i);
    } else {
      LastImportedWins(m, imported, key);
      LastImportedWins(r, again, key);
      MergeKeepsPositions(r, again);
      LastIndexIs(r2, key, i);
    }
  }

  lemma {:induction false} NoKeyUntouched(m: seq<SiteGroup>, imported: seq<SiteGroup>, i: nat)
    requires i < |m| && MergeKey(m[i]) == NO_KEY
    ensures i < |Merge(m, imported)| && Merge(m, imported)[i] == m[i]
    decreases |imported|
  {
    if imported != [] {
      NoKeyUntouched(m, imported[..|imported| - 1], i);
    }
  }

  // ---------------------------------------------------------------------------
  // The whole import
  // ---------------------------------------------------------------------------

  datatype ConfigRule = ConfigRule(mode: string, domains: seq<string>, rest: string)

  const MODES: set<string> := {"mitm", "transparent", "server", "tls-rf", "quic", "warp", "gas", "direct"}

  predicate KnownMode(mode: string) {
    mode in MODES
  }

  /** The eight modes, and only they. */
  lemma EightModes(mode: string)
    ensures KnownMode(mode) <==>
      || mode == "mitm" || mode == "transparent" || mode == "server" || mode == "tls-rf"
      || mode == "quic" || mode == "warp" || mode == "gas" || mode == "direct"
  {
  }

  /** No known mode holds the bar that ends the mode in a key. */
  lemma KnownModeHasNoBar(mode: string)
    requires KnownMode(mode)
    ensures '|' !in Normal(mode)
  {
    assert '|' !in mode;
    hide KnownMode, Trim;
    TrimShrinks(mode);
    forall i | 0 <= i < |Trim(mode)| ensures Lower(Trim(mode))[i] != '|' {
      assert Trim(mode)[i] in Trim(mode);
    }
  }

  lemma {:induction false} TrimLeftShrinks(s: string)
    ensures forall c :: c in TrimLeft(s) ==> c in s
  {
    if s != "" {
      TrimLeftShrinks(s[1..]);
    }
  }

  lemma {:induction false} TrimRightShrinks(s: string)
    ensures forall c :: c in TrimRight(s) ==> c in s
  {
    if s != "" {
      TrimRightShrinks(s[..|s| - 1]);
    }
  }

  lemma TrimShrinks(s: string)
    ensures forall c :: c in Trim(s) ==> c in s
  {
    TrimLeftShrinks(s);
    TrimRightShrinks(TrimLeft(s));
  }

  /** A part of the file that could be decoded: the groups it holds and the number of rules it skipped. */
  datatype Part = Part(groups: seq<SiteGroup>, skipped: nat)

  datatype Summary = Summary(total: int, added: nat, overwritten: nat, skipped: nat)

  /** The mode of a rule, that of its part when it has none. */
  function RuleMode(rule: ConfigRule, partMode: string): (mode: string)
    ensures Normal(rule.mode) != "" ==> mode == Normal(rule.mode)
    ensures Normal(rule.mode) == "" ==> mode == partMode
  {
    if Normal(rule.mode) == "" then partMode else Normal(rule.mode)
  }

  predicate Usable(rule: ConfigRule, partMode: string) {
    rule.domains != [] && KnownMode(RuleMode(rule, partMode))
  }

  /** One group for every usable rule, in their order. */
  function Groups(rules: seq<ConfigRule>, partMode: string, ids: nat -> string): seq<SiteGroup> {
    if rules == [] then [] else
    var n := |rules| - 1;
    Groups(rules[..n], partMode, ids) +
    if Usable(rules[n], partMode)
    then [SiteGroup(ids(n), RuleMode(rules[n], partMode), rules[n].domains, rules[n].rest)] else []
  }

  /** The groups belong to the rules numbered js, in their order: those with domains and one of the eight modes. */
  ghost predicate Belong(groups: seq<SiteGroup>, rules: seq<ConfigRule>, partMode: string, ids: nat -> string,
                         js: seq<nat>)
  {
    && |js| == |groups|
    && (forall i, k :: 0 <= i < k < |js| ==> js[i] < js[k])
    && (forall i :: 0 <= i < |js| ==> js[i] < |rules| && BelongsTo(groups[i], rules[js[i]], partMode, ids(js[i])))
    && (forall j: nat :: j in js <==> j < |rules| && rules[j].domains != [] && RuleMode(rules[j], partMode) in MODES)
  }

  /** The group has the domains of the rule, and the rule's own mode or, when it has none, that of the part. */
  predicate BelongsTo(sg: SiteGroup, rule: ConfigRule, partMode: string, id: string) {
    && sg.id == id && sg.domains == rule.domains && sg.rest == rule.rest
    && (Normal(rule.mode) != "" ==> sg.mode == Normal(rule.mode))
    && (Normal(rule.mode) == "" ==> sg.mode == partMode)
  }

  lemma BelongMore(groups: seq<SiteGroup>, rules: seq<ConfigRule>, partMode: string, ids: nat -> string, js: seq<nat>,
                   n: nat)
    requires n < |rules| && Belong(groups, rules[..n], partMode, ids, js)
    ensures var rule := rules[n];
      if rule.domains != [] && RuleMode(rule, partMode) in MODES
      then forall sg: SiteGroup :: BelongsTo(sg, rule, partMode, ids(n)) ==>
             Belong(groups + [sg], rules[..n + 1], partMode, ids, js + [n])
      else Belong(groups, rules[..n + 1], partMode, ids, js)
  {
    hide BelongsTo, RuleMode, MODES;
    assert forall j :: 0 <= j < n ==> rules[..n][j] == rules[j] == rules[..n + 1][j];
    assert forall i :: 0 <= i < |js| ==> js[i] in js;
    assert n !in js;
    if rules[n].domains != [] && RuleMode(rules[n], partMode) in MODES {
      forall sg: SiteGroup | BelongsTo(sg, rules[n], partMode, ids(n))
        ensures Belong(groups + [sg], rules[..n + 1], partMode, ids, js + [n])
      {
        forall j: nat ensures j in js + [n] <==>
          j < n + 1 && rules[..n + 1][j].domains != [] && RuleMode(rules[..n + 1][j], partMode) in MODES
        {
          assert j in js + [n] <==> j in js || j == n;
        }
      }
    }
  }

  /**
   * The rules of one part with a known type; `ids` supplies the generated identifiers, and `js` says which rules have
   * become groups.
   */
  method ParseRules(rules: seq<ConfigRule>, partMode: string, ids: nat -> string)
    returns (part: Part, ghost js: seq<nat>)
    requires KnownType(partMode)
    ensures part.groups == Groups(rules, partMode, ids) && part.skipped == |rules| - |part.groups|
    ensures Belong(part.groups, rules, partMode, ids, js)
    ensures forall sg <- part.groups :: MergeKey(sg) != NO_KEY && KnownMode(sg.mode)
  {
    hide MergeKey, Normal, Belong;
    var out: seq<SiteGroup> := [];
    var skipped := 0;
    js := [];
    NothingBelongs(partMode, ids);
    assert rules[..0] == [];
    for i := 0 to |rules|
      invariant |out| + skipped == i
      invariant out == Groups(rules[..i], partMode, ids)
      invariant Belong(out, rules[..i], partMode, ids, js)
      invariant forall sg <- out :: MergeKey(sg) != NO_KEY && KnownMode(sg.mode)
    {
      assert rules[..i + 1][..i] == rules[..i];
      BelongMore(out, rules, partMode, ids, js, i);
      if |rules[i].domains| == 0 {
        skipped := skipped + 1;
        continue;
      }
      var ruleMode := Normal(rules[i].mode);
      if ruleMode == "" {
        ruleMode := partMode;
      }
      if !KnownMode(ruleMode) {
        skipped := skipped + 1;
        continue;
      }
      var sg := SiteGroup(ids(i), ruleMode, rules[i].domains, rules[i].rest);
      KnownModeHasKey(sg);
      assert BelongsTo(sg, rules[i], partMode, ids(i));
      out := out + [sg];
      js := js + [i];
    }
    assert rules[..|rules|] == rules;
    part := Part(out, skipped);
  }

  lemma NothingBelongs(partMode: string, ids: nat -> string)
    ensures Belong([], [], partMode, ids, [])
  {
  }

  /** The type a part declares, or the one of the place it was found at. */
  function PartMode(cfgType: string, forcedType: string): (mode: string)
    ensures Normal(cfgType) != "" ==> mode == Normal(cfgType)
    ensures Normal(cfgType) == "" ==> mode == Normal(forcedType)
  {
    if Normal(cfgType) == "" then Normal(forcedType) else Normal(cfgType)
  }

  predicate KnownType(mode: string) {
    mode == "mitm" || mode == "transparent"
  }

  /** A part that was decoded; one of an unknown type is an error. */
  method ParsePayload(cfgType: string, rules: seq<ConfigRule>, forcedType: string, ids: nat -> string)
    returns (part: Option<Part>, ghost js: seq<nat>)
    ensures part.Some? <==> PartMode(cfgType, forcedType) == "mitm" || PartMode(cfgType, forcedType) == "transparent"
    ensures part.Some? ==>
      && Belong(part.value.groups, rules, PartMode(cfgType, forcedType), ids, js)
      && part.value.skipped == |rules| - |js|
    ensures var mode := PartMode(cfgType, forcedType);
      if !KnownType(mode) then part.None?
      else
        && part.Some? && part.value.groups == Groups(rules, mode, ids)
        && part.value.skipped == |rules| - |part.value.groups|
    ensures part.Some? ==> forall sg <- part.value.groups :: MergeKey(sg) != NO_KEY
  {
    var mode := Normal(cfgType);
    if mode == "" {
      mode := Normal(forcedType);
    }
    if mode != "mitm" && mode != "transparent" {
      return None, [];
    }
    var p, chosen := ParseRules(rules, mode, ids);
    return Some(p), chosen;
  }

  lemma KnownModeHasKey(sg: SiteGroup)
    requires KnownMode(sg.mode)
    ensures MergeKey(sg) != NO_KEY
  {
    assert sg.mode[0] != ' ' && sg.mode[|sg.mode| - 1] != ' ';
    assert !IsSpace(sg.mode[0]) && !IsSpace(sg.mode[|sg.mode| - 1]);
    assert Trim(sg.mode) == sg.mode;
    assert |Normal(sg.mode)| >= 3;
  }

  function GroupsOf(p: Option<Part>): seq<SiteGroup> {
    if p.Some? then p.value.groups else []
  }

  /** The single configuration is only looked at when the two parts hold no group. */
  function Imported(mitm: Option<Part>, transparent: Option<Part>, whole: Option<Part>): seq<SiteGroup> {
    var parts := GroupsOf(mitm) + GroupsOf(transparent);
    if parts == [] then GroupsOf(whole) else parts
  }

  function SkippedOf(p: Option<Part>): nat {
    if p.Some? then p.value.skipped else 0
  }

  /** The rules skipped in the parts that were looked at. */
  function SkippedIn(mitm: Option<Part>, transparent: Option<Part>, whole: Option<Part>): nat {
    SkippedOf(mitm) + SkippedOf(transparent) +
    if GroupsOf(mitm) + GroupsOf(transparent) == [] then SkippedOf(whole) else 0
  }

  /** Adds up the parts of a file. */
  method Collect(mitm: Option<Part>, transparent: Option<Part>, whole: Option<Part>)
    returns (imported: seq<SiteGroup>, total: nat, skipped: nat)
    ensures imported == Imported(mitm, transparent, whole)
    ensures total == |imported| + skipped
    ensures skipped == SkippedIn(mitm, transparent, whole)
    ensures total ==
      (if mitm.Some? then |mitm.value.groups| + mitm.value.skipped else 0)
      + (if transparent.Some? then |transparent.value.groups| + transparent.value.skipped else 0)
      + (if GroupsOf(mitm) + GroupsOf(transparent) == [] && whole.Some?
         then |whole.value.groups| + whole.value.skipped else 0)
  {
    imported, total, skipped := [], 0, 0;
    if mitm.Some? {
      total := total + |mitm.value.groups| + mitm.value.skipped;
      skipped := skipped + mitm.value.skipped;
      imported := imported + mitm.value.groups;
    }
    if transparent.Some? {
      total := total + |transparent.value.groups| + transparent.value.skipped;
      skipped := skipped + transparent.value.skipped;
      imported := imported + transparent.value.groups;
    }
    if |imported| == 0 && whole.Some? {
      total := total + |whole.value.groups| + whole.value.skipped;
      skipped := skipped + whole.value.skipped;
      imported := imported + whole.value.groups;
    }
  }

  lemma {:induction false} MergeAppend(m: seq<SiteGroup>, a: seq<SiteGroup>, b: seq<SiteGroup>)
    ensures Merge(m, a + b) == Merge(Merge(m, a), b)
    decreases |b|
  {
    hide Merge, MergeOne;
    if b == [] {
      assert a + b == a;
      MergeNothing(Merge(m, a));
    } else {
      var n := |b| - 1;
      MergeAppend(m, a, b[..n]);
      MergeLast(m, a + b[..n], b[n]);
      MergeLast(Merge(m, a), b[..n], b[n]);
      assert a + b == a + b[..n] + [b[n]] && b == b[..n] + [b[n]];
    }
  }

  lemma MergeNothing(m: seq<SiteGroup>)
    ensures Merge(m, []) == m
  {
  }

  lemma MergeLast(m: seq<SiteGroup>, front: seq<SiteGroup>, sg: SiteGroup)
    ensures Merge(m, front + [sg]) == MergeOne(Merge(m, front), sg)
  {
    hide MergeOne;
    assert (front + [sg])[..|front|] == front;
  }

  class RuleManager {
    var siteGroups: seq<SiteGroup>

    constructor (groups: seq<SiteGroup>)
      ensures siteGroups == groups
    {
      siteGroups := groups;
    }

    /** The parts of the file under "mitm" and "transparent", and the file read as a single configuration. */
    method ImportConfigWithSummary(mitm: Option<Part>, transparent: Option<Part>, whole: Option<Part>)
      returns (summary: Option<Summary>)
      modifies this
      ensures summary.None? <==> Imported(mitm, transparent, whole) == []
      ensures siteGroups == Merge(old(siteGroups), Imported(mitm, transparent, whole))
      ensures GroupsOf(mitm) + GroupsOf(transparent) != [] ==>
        siteGroups == Merge(Merge(old(siteGroups), GroupsOf(mitm)), GroupsOf(transparent))
      ensures GroupsOf(mitm) + GroupsOf(transparent) == [] ==> siteGroups == Merge(old(siteGroups), GroupsOf(whole))
      ensures summary.Some? ==>
        && summary.value.total == summary.value.added + summary.value.overwritten + summary.value.skipped
        && summary.value.added == |siteGroups| - |old(siteGroups)|
        && summary.value.total ==
             (if mitm.Some? then |mitm.value.groups| + mitm.value.skipped else 0)
             + (if transparent.Some? then |transparent.value.groups| + transparent.value.skipped else 0)
             + (if GroupsOf(mitm) + GroupsOf(transparent) == [] && whole.Some?
                then |whole.value.groups| + whole.value.skipped else 0)
        && summary.value.skipped ==
             SkippedIn(mitm, transparent, whole) + NoKeys(Imported(mitm, transparent, whole))
    {
      var imported, total, skipped := Collect(mitm, transparent, whole);
      MergeAppend(siteGroups, GroupsOf(mitm), GroupsOf(transparent));
      if |imported| == 0 {
        return None;
      }
      var merged, added, overwritten, noKey := MergeImported(siteGroups, imported);
      siteGroups := merged;
      skipped := skipped + noKey;
      if total == 0 {
        total := |imported| + skipped;
      }
      return Some(Summary(total, added, overwritten, skipped));
    }
  }
}
