/** What the identities of policies and decisions rely on: one decision for an action, whatever the
    order of the source rules, and when normalising twice is the same as once. */
module PolicyLaws {
  import opened Outcomes
  import opened Effects
  import opened Actions
  import opened Sorting
  import opened Rotations
  import opened Paths
  import opened Policy

  // ---------- one decision ----------

  lemma PrecedesOneWay(r: Rule, s: Rule)
    ensures !(Precedes(r, s) && Precedes(s, r))
  {
    StringAtMostIsTotal();
    hide StringAtMost;
  }

  /** The specification of `evaluate_action` leaves no choice. */
  lemma DecisionIsUnique(a: Action, q: Policy, endpoint: Endpoint, d: Decision, e: Decision)
    requires IsDecision(a, q, endpoint, d) && IsDecision(a, q, endpoint, e)
    ensures d == e
  {
    hide Matches, Crosses, StringAtMost, Precedes;
    StringsAreOrdered();
    SortedSetUnique(d.matched, e.matched, StringAtMost);
    if exists r :: Crosses(a, q.boundaries, endpoint, r) {
      assert d.reasons == e.reasons;
    } else if exists r :: r in q.rules && Matches(r, a) {
      var r :| IsChosen(q.rules, a, r)
        && d.effect == r.effect && d.selected == Some(r.ruleId) && d.reasons == {ByRule(r.effect)};
      var s :| IsChosen(q.rules, a, s)
        && e.effect == s.effect && e.selected == Some(s.ruleId) && e.reasons == {ByRule(s.effect)};
      PrecedesOneWay(r, s);
    }
  }

  // ---------- the order of the source rules ----------

  lemma NormalRulesHave(rules: seq<Rule>, x: Rule)
    ensures x in NormalRules(rules) <==> exists r :: r in rules && x == NormalRule(r)
  {
    hide NormalRule;
    if x in NormalRules(rules) {
      var i :| 0 <= i < |rules| && NormalRules(rules)[i] == x;
      assert rules[i] in rules;
    }
    if r :| r in rules && x == NormalRule(r) {
      var i :| 0 <= i < |rules| && rules[i] == r;
      assert NormalRules(rules)[i] == x;
    }
  }

  lemma SortedRules(p: Policy)
    requires IsPolicy(p)
    ensures var rules := NormalPolicy(p).rules;
      && SortedBy(rules, IdAtMost) && HasDistinctIds(rules)
      && forall x :: x in rules <==> exists r :: r in p.rules && x == NormalRule(r)
  {
    hide IsBoundaries, IsRule, Sort, NormalBoundaries, NormalRule, StringAtMost;
    RuleOrder();
    hide IdAtMost;
    SortSorts(NormalRules(p.rules), IdAtMost);
    DistinctIdsMove(NormalRules(p.rules), NormalPolicy(p).rules) by {
      NormalIdsStay(p.rules);
    }
    forall x ensures x in NormalPolicy(p).rules <==> exists r :: r in p.rules && x == NormalRule(r) {
      NormalRulesHave(p.rules, x);
    }
  }

  lemma NormalIdsStay(rules: seq<Rule>)
    requires HasDistinctIds(rules)
    ensures HasDistinctIds(NormalRules(rules))
  {
  }

  lemma RuleOrder()
    ensures IsTotalPreorder(IdAtMost)
  {
    StringAtMostIsTotal();
    hide StringAtMost;
  }

  /** Distinct identifiers let the order of identifiers tell the rules apart. */
  lemma IdsSeparate(rules: seq<Rule>)
    requires HasDistinctIds(rules)
    ensures Separates(IdAtMost, rules)
  {
    StringAtMostIsTotal();
    hide StringAtMost;
    forall x, y | x in multiset(rules) && y in multiset(rules) && IdAtMost(x, y) && IdAtMost(y, x) ensures x == y {
      var i :| 0 <= i < |rules| && rules[i] == x;
      var j :| 0 <= j < |rules| && rules[j] == y;
    }
  }

  lemma {:induction false} RulesAnyOrder(a: seq<Rule>, b: seq<Rule>)
    requires multiset(a) == multiset(b)
    ensures |a| == |b|
    ensures HasDistinctIds(a) ==> HasDistinctIds(b)
    ensures (forall i :: 0 <= i < |a| ==> IsRule(a[i])) ==> forall i :: 0 <= i < |b| ==> IsRule(b[i])
  {
    hide IsRule;
    assert |multiset(a)| == |a| && |multiset(b)| == |b|;
    if HasDistinctIds(a) {
      DistinctIdsMove(a, b);
    }
    forall i | 0 <= i < |b| ensures exists j :: 0 <= j < |a| && a[j] == b[i] {
      assert b[i] in multiset(a);
    }
  }

  /** Any permutation of the source rules has the same normal form, so the same identity and the
      same decisions. */
  lemma SourceOrderIsIrrelevant(p: Policy, s: Policy)
    requires p.defaultEffect == s.defaultEffect && p.boundaries == s.boundaries && multiset(p.rules) == multiset(s.rules)
    ensures Normalize(p) == Normalize(s)
  {
    hide IsBoundaries, IsRule, NormalBoundaries, Sort, HasDistinctIds, IdAtMost, SortedBy, NormalRule;
    RulesAnyOrder(p.rules, s.rules);
    RulesAnyOrder(s.rules, p.rules);
    assert IsPolicy(p) <==> IsPolicy(s);
    if IsPolicy(p) {
      SortedRules(p);
      SortedRules(s);
      var a, b := NormalPolicy(p).rules, NormalPolicy(s).rules;
      SameElements(p.rules, s.rules);
      RuleOrder();
      IdsSeparate(a);
      IdsAreApart(a);
      IdsAreApart(b);
      hide NormalPolicy, IsPolicy;
      SortedSetUnique(a, b, IdAtMost);
      SamePolicy(p, s);
    }
  }

  lemma SamePolicy(p: Policy, s: Policy)
    requires p.defaultEffect == s.defaultEffect && p.boundaries == s.boundaries
    requires NormalPolicy(p).rules == NormalPolicy(s).rules
    ensures NormalPolicy(p) == NormalPolicy(s)
  {
    hide NormalBoundaries, Sort;
  }

  lemma IdsAreApart(rules: seq<Rule>)
    requires HasDistinctIds(rules)
    ensures forall i, j :: 0 <= i < j < |rules| ==> rules[i] != rules[j]
  {
  }

  // ---------- rules before and after normalisation ----------

  lemma SameMembers(items: seq<string>)
    ensures forall x :: x in SortStrings(items) <==> x in items
  {
    hide Sort;
    SameElements(SortStrings(items), items);
  }

  lemma NormalRuleMatches(r: Rule, a: Action)
    ensures Matches(NormalRule(r), a) <==> Matches(r, a)
  {
    hide PrefixMatch, SortStrings;
    SameMembers(r.services);
    SameMembers(r.operations);
    SameMembers(r.targetPrefixes);
    SameMembers(r.agentIds);
    SameMembers(r.authorities);
  }

  /** Normalisation keeps what the choice between rules depends on. */
  lemma NormalRuleRanks(rules: seq<Rule>, r: Rule, s: Rule, a: Action)
    requires HasDistinctIds(rules) && r in rules && s in rules
    ensures Matches(NormalRule(s), a) <==> Matches(s, a)
    ensures Precedes(NormalRule(r), NormalRule(s)) <==> Precedes(r, s)
    ensures s != r <==> NormalRule(s) != NormalRule(r)
  {
    NormalRuleMatches(s, a);
    hide Matches, StringAtMost, Sort, HasDistinctIds;
    RulesApart(rules, r, s);
  }

  /** The rule that decides is the least of the matching source rules, by descending priority, then
      stricter effect, then identifier. */
  lemma ChosenAmongSource(p: Policy, a: Action, r: Rule)
    requires IsPolicy(p) && r in p.rules
    ensures IsChosen(NormalPolicy(p).rules, a, NormalRule(r)) <==> IsChosen(p.rules, a, r)
  {
    SortedRules(p);
    assert HasDistinctIds(p.rules);
    hide Matches, IsPolicy, NormalPolicy, HasDistinctIds, NormalRule, Precedes, IdAtMost, SortedBy;
    var rules := NormalPolicy(p).rules;
    NormalRuleRanks(p.rules, r, r, a);
    assert NormalRule(r) in rules;
    if IsChosen(p.rules, a, r) {
      forall x | x in rules && Matches(x, a) && x != NormalRule(r) ensures Precedes(NormalRule(r), x) {
        var s :| s in p.rules && x == NormalRule(s);
        NormalRuleRanks(p.rules, r, s, a);
      }
    }
    if IsChosen(rules, a, NormalRule(r)) {
      forall s | s in p.rules && Matches(s, a) && s != r ensures Precedes(r, s) {
        NormalRuleRanks(p.rules, r, s, a);
        assert NormalRule(s) in rules;
      }
    }
  }

  // ---------- which policies are legal ----------

  const UPPER := "ABCDEFGHIJKLMNOPQRSTUVWXYZ"
  const LOWER := "abcdefghijklmnopqrstuvwxyz"
  const DIGITS := "0123456789"

  ghost predicate IsAlphanumeric(c: char) {
    c in UPPER || c in LOWER || c in DIGITS
  }

  lemma IdentifierMeans(s: string)
    ensures IsIdentifier(s) <==>
      (1 <= |s| <= 256 && IsAlphanumeric(s[0])
        && forall i :: 0 <= i < |s| ==> IsAlphanumeric(s[i]) || s[i] in "._:/@+-")
  {
    hide IsAlphanumeric;
    if s != [] {
      LetterIs(s[0]);
    }
    forall i | 0 <= i < |s| ensures IsIdentifierChar(s[i]) <==> IsAlphanumeric(s[i]) || s[i] in "._:/@+-" {
      LetterIs(s[i]);
    }
  }

  lemma LetterIs(c: char)
    ensures IsAlphanumeric(c) <==> 'a' <= c <= 'z' || 'A' <= c <= 'Z' || '0' <= c <= '9'
  {
    UpperIs(c);
    LowerIs(c);
    DigitIs(c);
    hide UPPER, LOWER, DIGITS;
  }

  lemma UpperIs(c: char)
    ensures c in UPPER <==> 'A' <= c <= 'Z'
  {
    if 'A' <= c <= 'Z' {
      assert UPPER[c as int - 'A' as int] == c;
    }
  }

  lemma LowerIs(c: char)
    ensures c in LOWER <==> 'a' <= c <= 'z'
  {
    if 'a' <= c <= 'z' {
      assert LOWER[c as int - 'a' as int] == c;
    }
  }

  lemma DigitIs(c: char)
    ensures c in DIGITS <==> '0' <= c <= '9'
  {
    if '0' <= c <= '9' {
      assert DIGITS[c as int - '0' as int] == c;
    }
  }

  /** A set of one to 256 strings of one to 2048 characters, none of them twice. */
  ghost predicate IsLegalSet(items: seq<string>) {
    && items != [] && |items| <= 256 && |set x | x in items| == |items|
    && forall x :: x in items ==> x != "" && |x| <= 2048
  }

  lemma {:induction false} DistinctCounts(items: seq<string>)
    ensures AreDistinct(items) <==> |set x | x in items| == |items|
    ensures |set x | x in items| <= |items|
  {
    if items != [] {
      var k := |items| - 1;
      var rest, last := items[..k], items[k];
      DistinctCounts(rest);
      assert items == rest + [last];
      assert (set x | x in items) == (set x | x in rest) + {last};
      if last in rest {
        var i :| 0 <= i < k && items[i] == last;
        assert (set x | x in items) == (set x | x in rest);
        assert !AreDistinct(items);
      } else {
        assert forall i :: 0 <= i < k ==> items[i] == rest[i];
      }
    }
  }

  lemma StringSetMeans(items: seq<string>)
    ensures IsStringSet(items) <==> IsLegalSet(items)
  {
    DistinctCounts(items);
    forall i | 0 <= i < |items| ensures items[i] in items {
    }
  }

  /** What `normalize_policy` accepts. */
  lemma PolicyMeans(p: Policy)
    ensures IsPolicy(p) <==> (
      && |p.rules| <= 4096 && |set x | x in IdsOf(p.rules)| == |p.rules|
      && (forall r :: r in p.rules ==> IsIdentifier(r.ruleId))
      && (forall r, items :: r in p.rules && items in [r.services, r.operations, r.targetPrefixes, r.agentIds, r.authorities] ==>
        IsLegalSet(items))
      && (forall items :: items in [p.boundaries.allowedAuthorities, p.boundaries.schemes, p.boundaries.filePrefixes] ==>
        IsLegalSet(items))
      && (forall items :: items in [p.boundaries.hosts, p.boundaries.processes] ==> items == [] || IsLegalSet(items))
      && forall prefix :: prefix in p.boundaries.filePrefixes ==> RelativePrefix(prefix).Success?)
  {
    hide IsStringSet, IsLegalSet, RelativePrefix, IsIdentifier;
    forall items ensures IsStringSet(items) <==> IsLegalSet(items) {
      StringSetMeans(items);
    }
    DistinctCounts(IdsOf(p.rules));
    assert HasDistinctIds(p.rules) <==> AreDistinct(IdsOf(p.rules));
  }

  // ---------- the decision in terms of the policy as it was given ----------

  lemma AuthorityNames(a: Authority)
    ensures AuthorityName(a) == "SIM_ONLY" <==> a == SimOnly
    ensures AuthorityName(a) == "READ_ONLY_EXTERNAL" <==> a == ReadOnlyExternal
    ensures AuthorityName(a) == "WORKSPACE_WRITE" <==> a == WorkspaceWrite
    ensures AuthorityName(a) == "NETWORK" <==> a == Network
    ensures AuthorityName(a) == "CONTROLLED_EXECUTION" <==> a == ControlledExecution
  {
  }

  ghost predicate Covers(items: seq<string>, item: string) {
    "*" in items || item in items
  }

  /** The target is the prefix or lies below it; a prefix with a slash matches only below. */
  ghost predicate LiesUnder(target: string, prefix: string) {
    prefix == "*"
    || (if prefix != [] && prefix[|prefix| - 1] == '/' then prefix <= target
        else target == prefix || prefix + "/" <= target)
  }

  ghost predicate Applies(r: Rule, a: Action) {
    && Covers(r.services, a.service) && Covers(r.operations, a.operation)
    && Covers(r.agentIds, a.producer.agentId) && Covers(r.authorities, AuthorityName(a.authority))
    && exists prefix :: prefix in r.targetPrefixes && LiesUnder(a.target, prefix)
  }

  /** The higher priority wins, then the stricter effect, then the smaller identifier. */
  ghost predicate Beats(r: Rule, s: Rule) {
    || r.priority > s.priority
    || (r.priority == s.priority
      && ((r.effect == Deny && s.effect != Deny) || (r.effect == Review && s.effect == Allow)
        || (r.effect == s.effect && r.ruleId != s.ruleId && StringAtMost(r.ruleId, s.ruleId))))
  }

  ghost predicate IsBlocked(a: Action, b: Boundaries, endpoint: Endpoint) {
    || AuthorityName(a.authority) !in b.allowedAuthorities
    || a.parameterLength > b.maxParameterBytes
    || (a.service == "network" && (!b.networkEnabled || endpoint(a.target) == Option.None
        || endpoint(a.target).value.0 !in b.schemes || endpoint(a.target).value.1 !in b.hosts))
    || (a.service == "process" && (!b.processEnabled || a.target !in b.processes))
    || (a.service == "file" && (!IsSafeTarget(a.target)
        || forall prefix :: prefix in b.filePrefixes ==> prefix != "*" && !(Strip(prefix) + "/" <= a.target)))
    || (a.service == "ipc" && !exists slot: nat :: slot < b.maxIpcSlots && a.slot == Some(slot))
  }

  lemma UnderMeans(target: string, prefix: string)
    ensures PrefixMatch(target, prefix) <==> LiesUnder(target, prefix)
  {
    if prefix == [] || prefix[|prefix| - 1] != '/' {
      StripOnce(prefix);
    }
    hide Strip;
  }

  lemma AppliesMeans(r: Rule, a: Action)
    ensures Matches(r, a) <==> Applies(r, a)
  {
    forall prefix ensures PrefixMatch(a.target, prefix) <==> LiesUnder(a.target, prefix) {
      UnderMeans(a.target, prefix);
    }
    hide PrefixMatch, LiesUnder, AuthorityName;
  }

  lemma BlockedMeans(a: Action, b: Boundaries, endpoint: Endpoint)
    ensures IsBlocked(a, b, endpoint) <==> exists r :: Crosses(a, NormalBoundaries(b), endpoint, r)
  {
    var n := NormalBoundaries(b);
    SameMembers(b.allowedAuthorities);
    SameMembers(b.schemes);
    SameMembers(b.hosts);
    SameMembers(b.processes);
    OutsideMeans(a.target, b.filePrefixes);
    hide SortStrings, CleanPrefixes, PrefixMatch, IsSafeTarget, AuthorityName, Strip;
    if IsBlocked(a, b, endpoint) {
      var r := FirstCrossed(a, b, endpoint);
      assert Crosses(a, n, endpoint, r);
    }
  }

  /** A boundary that a blocked action crosses. */
  ghost function FirstCrossed(a: Action, b: Boundaries, endpoint: Endpoint): Reason
    requires IsBlocked(a, b, endpoint)
  {
    if AuthorityName(a.authority) !in b.allowedAuthorities then AuthorityNotGranted
    else if a.parameterLength > b.maxParameterBytes then ParametersTooLarge
    else if a.service == "network" then
      if !b.networkEnabled then NetworkDisabled
      else if endpoint(a.target) == Option.None then NetworkTargetInvalid
      else if endpoint(a.target).value.0 !in b.schemes then NetworkSchemeNotAllowed
      else NetworkHostNotAllowed
    else if a.service == "process" then if !b.processEnabled then ProcessDisabled else ProcessNotAllowed
    else if a.service == "file" then if !IsSafeTarget(a.target) then FileTargetInvalid else FileTargetOutsidePrefix
    else IpcSlotInvalid
  }

  /** Cleaning the prefixes leaves the targets below them. */
  lemma OutsideMeans(target: string, prefixes: seq<string>)
    ensures (exists prefix :: prefix in SortStrings(CleanPrefixes(SortStrings(prefixes))) && PrefixMatch(target, prefix)) <==>
      exists prefix :: prefix in prefixes && (prefix == "*" || Strip(prefix) + "/" <= target)
  {
    hide SortStrings, CleanPrefixes, PrefixMatch, Clean, Strip;
    var sorted := SortStrings(prefixes);
    SameMembers(prefixes);
    SameMembers(CleanPrefixes(sorted));
    CleanHas(sorted);
    if prefix :| prefix in SortStrings(CleanPrefixes(sorted)) && PrefixMatch(target, prefix) {
      var c :| c in sorted && prefix == Clean(c);
      CleanedMatch(target, c);
    }
    if prefix :| prefix in prefixes && (prefix == "*" || Strip(prefix) + "/" <= target) {
      CleanedMatch(target, prefix);
      assert Clean(prefix) in SortStrings(CleanPrefixes(sorted));
    }
  }

  lemma CleanedMatch(target: string, prefix: string)
    ensures PrefixMatch(target, Clean(prefix)) <==> prefix == "*" || Strip(prefix) + "/" <= target
  {
    hide Strip;
    if prefix != "*" {
      var directory := Strip(prefix) + "/";
      assert directory[|directory| - 1] == '/';
    }
  }

  lemma MatchedMeans(a: Action, p: Policy, id: string)
    requires IsPolicy(p)
    ensures (exists r :: r in NormalPolicy(p).rules && Matches(r, a) && r.ruleId == id) <==>
      exists r :: r in p.rules && Applies(r, a) && r.ruleId == id
  {
    SortedRules(p);
    hide Matches, NormalPolicy, IsPolicy, Applies, NormalRule;
    forall r ensures Matches(NormalRule(r), a) <==> Applies(r, a) ensures NormalRule(r).ruleId == r.ruleId {
      NormalRuleMatches(r, a);
      AppliesMeans(r, a);
      SameId(r);
    }
    if r :| r in NormalPolicy(p).rules && Matches(r, a) && r.ruleId == id {
      var s :| s in p.rules && r == NormalRule(s);
    }
    if r :| r in p.rules && Applies(r, a) && r.ruleId == id {
      assert NormalRule(r) in NormalPolicy(p).rules;
    }
  }

  lemma SameId(r: Rule)
    ensures NormalRule(r).ruleId == r.ruleId && NormalRule(r).effect == r.effect
  {
  }

  /** What `evaluate_action` decides under a policy as it was given, before any sorting or cleaning:
      a crossed boundary denies, else the rule that beats all others that apply, else the default. */
  lemma DecisionMeans(a: Action, p: Policy, endpoint: Endpoint, d: Decision)
    requires IsPolicy(p) && IsDecision(a, NormalPolicy(p), endpoint, d)
    ensures forall id :: id in d.matched <==> exists r :: r in p.rules && Applies(r, a) && r.ruleId == id
    ensures IsBlocked(a, p.boundaries, endpoint) ==> d.effect == Deny && d.selected == Option.None
    ensures !IsBlocked(a, p.boundaries, endpoint) && (exists r :: r in p.rules && Applies(r, a)) ==>
      exists r :: r in p.rules && Applies(r, a) && d.selected == Some(r.ruleId) && d.effect == r.effect
        && forall s :: s in p.rules && Applies(s, a) && s.ruleId != r.ruleId ==> Beats(r, s)
    ensures !IsBlocked(a, p.boundaries, endpoint) && !(exists r :: r in p.rules && Applies(r, a)) ==>
      d.effect == p.defaultEffect && d.selected == Option.None
  {
    hide IsPolicy, Matches, Crosses, NormalRules, NormalBoundaries, Sort, IsBlocked, Applies, StringAtMost, Precedes, Beats;
    var q := NormalPolicy(p);
    BlockedMeans(a, p.boundaries, endpoint);
    forall id ensures id in d.matched <==> exists r :: r in p.rules && Applies(r, a) && r.ruleId == id {
      MatchedMeans(a, p, id);
    }
    if r :| r in p.rules && Applies(r, a) {
      MatchedMeans(a, p, r.ruleId);
    }
    if r :| r in q.rules && Matches(r, a) {
      MatchedMeans(a, p, r.ruleId);
    }
    if x :| IsChosen(q.rules, a, x) && d.effect == x.effect && d.selected == Some(x.ruleId) {
      var r := ChosenSource(a, p, x);
    }
  }

  lemma ChosenSource(a: Action, p: Policy, x: Rule) returns (r: Rule)
    requires IsPolicy(p) && IsChosen(NormalPolicy(p).rules, a, x)
    ensures r in p.rules && Applies(r, a) && x.ruleId == r.ruleId && x.effect == r.effect
    ensures forall s :: s in p.rules && Applies(s, a) && s.ruleId != r.ruleId ==> Beats(r, s)
  {
    hide Matches, NormalPolicy, NormalRule, StringAtMost, Applies;
    r := SourceRule(p, x);
    SameId(r);
    ChosenAmongSource(p, a, r);
    AppliesMeans(r, a);
    forall s | s in p.rules && Applies(s, a) && s.ruleId != r.ruleId ensures Beats(r, s) {
      AppliesMeans(s, a);
      assert Precedes(r, s);
    }
  }

  lemma RulesApart(rules: seq<Rule>, r: Rule, s: Rule)
    requires HasDistinctIds(rules) && r in rules && s in rules
    ensures s != r <==> s.ruleId != r.ruleId
  {
    var i :| 0 <= i < |rules| && rules[i] == r;
    var j :| 0 <= j < |rules| && rules[j] == s;
  }

  // ---------- normalising twice ----------

  /** No two prefixes agree once their last slashes are off, and none is too long to take one. */
  predicate PrefixesStay(prefixes: seq<string>) {
    && AreDistinct(CleanPrefixes(prefixes))
    && forall i :: 0 <= i < |prefixes| ==> |Clean(prefixes[i])| <= MAX_STRING
  }

  lemma NormalRuleStays(r: Rule)
    requires IsRule(r)
    ensures IsRule(NormalRule(r)) && NormalRule(NormalRule(r)) == NormalRule(r)
  {
    hide Sort, IsStringSet;
    SortedSetStays(r.services);
    SortedSetStays(r.operations);
    SortedSetStays(r.targetPrefixes);
    SortedSetStays(r.agentIds);
    SortedSetStays(r.authorities);
  }

  lemma SortedSetStays(items: seq<string>)
    ensures IsStringSet(SortStrings(items)) <==> IsStringSet(items)
    ensures SortStrings(SortStrings(items)) == SortStrings(items)
  {
    StringSetMoves(items, SortStrings(items));
    SortedStringsStay(items);
  }

  lemma RulesStay(p: Policy)
    requires IsPolicy(p)
    ensures var rules := NormalPolicy(p).rules;
      && |rules| <= MAX_RULES && HasDistinctIds(rules)
      && (forall i :: 0 <= i < |rules| ==> IsRule(rules[i]))
      && Sort(NormalRules(rules), IdAtMost) == rules
  {
    hide Sort, IsBoundaries, NormalBoundaries, IdAtMost, SortedBy, HasDistinctIds, NormalRule, IsRule;
    SortedRules(p);
    var rules := NormalPolicy(p).rules;
    forall i | 0 <= i < |rules| ensures IsRule(rules[i]) && NormalRule(rules[i]) == rules[i] {
      assert rules[i] in rules;
      var r :| r in p.rules && rules[i] == NormalRule(r);
      var j :| 0 <= j < |p.rules| && p.rules[j] == r;
      NormalRuleStays(r);
    }
    assert NormalRules(rules) == rules;
    RuleOrder();
    IdsSeparate(rules);
    SortOfSorted(rules, IdAtMost);
  }

  lemma CleanStays(prefix: string)
    requires RelativePrefix(prefix).Success?
    ensures RelativePrefix(prefix) == Success(Clean(prefix))
    ensures RelativePrefix(Clean(prefix)) == Success(Clean(prefix)) && Clean(Clean(prefix)) == Clean(prefix)
    ensures Clean(prefix) != []
  {
    PrefixIsStable(prefix);
    hide Split, HasBadPart, Strip;
  }

  lemma CleanHas(prefixes: seq<string>)
    ensures forall i :: 0 <= i < |prefixes| ==> Clean(prefixes[i]) in CleanPrefixes(prefixes)
    ensures forall x :: x in CleanPrefixes(prefixes) <==> exists c :: c in prefixes && x == Clean(c)
  {
    hide Clean;
    var cleaned := CleanPrefixes(prefixes);
    forall i | 0 <= i < |prefixes| ensures Clean(prefixes[i]) in cleaned {
      assert cleaned[i] == Clean(prefixes[i]);
    }
    forall x ensures x in cleaned <==> exists c :: c in prefixes && x == Clean(c) {
      if x in cleaned {
        var i :| 0 <= i < |prefixes| && cleaned[i] == x;
        assert prefixes[i] in prefixes;
      }
      if c :| c in prefixes && x == Clean(c) {
        var i :| 0 <= i < |prefixes| && prefixes[i] == c;
      }
    }
  }

  lemma CleaningMoves(a: seq<string>, b: seq<string>)
    requires multiset(a) == multiset(b)
    ensures multiset(CleanPrefixes(a)) == multiset(CleanPrefixes(b))
  {
    CleanCounts(a, b);
  }

  lemma CleanWithout(b: seq<string>, j: nat)
    requires j < |b|
    ensures multiset(CleanPrefixes(b)) == multiset(CleanPrefixes(b[..j] + b[j + 1..])) + multiset{Clean(b[j])}
    ensures multiset(b) == multiset(b[..j] + b[j + 1..]) + multiset{b[j]}
  {
    hide Clean;
    var front, back := b[..j], b[j + 1..];
    var x, y := CleanPrefixes(front), CleanPrefixes(back);
    assert b == front + [b[j]] + back;
    assert CleanPrefixes(b) == x + [Clean(b[j])] + y;
    assert CleanPrefixes(front + back) == x + y;
  }

  lemma {:induction false} CleanCounts(a: seq<string>, b: seq<string>)
    requires multiset(a) == multiset(b)
    ensures multiset(CleanPrefixes(a)) == multiset(CleanPrefixes(b))
  {
    hide CleanPrefixes, Clean;
    assert |multiset(a)| == |a| && |multiset(b)| == |b|;
    if a != [] {
      assert a[0] in multiset(b);
      var j :| 0 <= j < |b| && b[j] == a[0];
      CleanWithout(a, 0);
      CleanWithout(b, j);
      var c, d := a[..0] + a[1..], b[..j] + b[j + 1..];
      assert multiset(c) == multiset(a) - multiset{a[0]} && multiset(d) == multiset(b) - multiset{b[j]};
      CleanCounts(c, d);
    } else {
      assert b == [];
    }
  }

  /** The normalised prefixes are again a legal set just when `PrefixesStay`. */
  lemma PrefixesStayMeans(prefixes: seq<string>)
    requires IsStringSet(prefixes) && forall i :: 0 <= i < |prefixes| ==> RelativePrefix(prefixes[i]).Success?
    ensures var normal := SortStrings(CleanPrefixes(SortStrings(prefixes)));
      && (IsStringSet(normal) <==> PrefixesStay(prefixes))
      && (forall i :: 0 <= i < |normal| ==> RelativePrefix(normal[i]).Success?)
      && SortStrings(CleanPrefixes(SortStrings(normal))) == normal
  {
    hide Sort, RelativePrefix, Clean;
    var sorted := SortStrings(prefixes);
    var normal := SortStrings(CleanPrefixes(sorted));
    CleaningMoves(sorted, prefixes);
    StringSetMoves(CleanPrefixes(prefixes), normal);
    CleanedSet(prefixes);
    SameElements(normal, CleanPrefixes(prefixes));
    CleanHas(prefixes);
    forall i | 0 <= i < |normal| ensures RelativePrefix(normal[i]).Success? && Clean(normal[i]) == normal[i] {
      assert normal[i] in normal;
      var c :| c in prefixes && normal[i] == Clean(c);
      var j :| 0 <= j < |prefixes| && prefixes[j] == c;
      CleanStays(c);
    }
    assert CleanPrefixes(normal) == normal;
    SortedStringsStay(CleanPrefixes(sorted));
  }

  lemma CleanedSet(prefixes: seq<string>)
    requires IsStringSet(prefixes) && forall i :: 0 <= i < |prefixes| ==> RelativePrefix(prefixes[i]).Success?
    ensures IsStringSet(CleanPrefixes(prefixes)) <==> PrefixesStay(prefixes)
  {
    hide RelativePrefix, Clean, AreDistinct;
    forall i | 0 <= i < |prefixes| ensures CleanPrefixes(prefixes)[i] == Clean(prefixes[i]) && |Clean(prefixes[i])| >= 1 {
      CleanStays(prefixes[i]);
    }
  }

  lemma BoundariesStay(b: Boundaries)
    requires IsBoundaries(b)
    ensures IsBoundaries(NormalBoundaries(b)) <==> PrefixesStay(b.filePrefixes)
    ensures NormalBoundaries(NormalBoundaries(b)) == NormalBoundaries(b)
  {
    hide IsStringSet, SortStrings, RelativePrefix, PrefixesStay, CleanPrefixes;
    SortedSetStays(b.allowedAuthorities);
    SortedSetStays(b.schemes);
    SortedSetStays(b.hosts);
    SortedSetStays(b.processes);
    PrefixesStayMeans(b.filePrefixes);
  }

  /** Normalising a normalised policy is accepted just when the cleaned prefixes are distinct and
      short enough, and then it changes nothing. */
  lemma NormalizingTwice(p: Policy)
    requires IsPolicy(p)
    ensures Normalize(NormalPolicy(p))
         == if PrefixesStay(p.boundaries.filePrefixes) then Success(NormalPolicy(p)) else Failure(ContractInvalid)
  {
    hide IsRule, IsBoundaries, NormalBoundaries, Sort, NormalRules, HasDistinctIds, PrefixesStay;
    RulesStay(p);
    BoundariesStay(p.boundaries);
  }

  function Bounded(prefixes: seq<string>): Policy {
    Policy(Allow, Boundaries(["SIM_ONLY"], 16384, 32, false, ["https"], [], false, [], prefixes), [])
  }

  lemma BoundedIsLegal(prefixes: seq<string>)
    requires IsStringSet(prefixes) && forall i :: 0 <= i < |prefixes| ==> RelativePrefix(prefixes[i]).Success?
    ensures IsPolicy(Bounded(prefixes))
  {
    hide IsStringSet, RelativePrefix;
    SingleSet("SIM_ONLY");
    SingleSet("https");
  }

  lemma SingleSet(s: string)
    requires 1 <= |s| <= MAX_STRING
    ensures IsStringSet([s])
  {
  }

  /** A legal policy that cannot be normalised again: two prefixes for one directory. */
  lemma TwoPrefixesOneDirectory(directory: string)
    requires 1 <= |directory| < MAX_STRING && directory != "*" && IsName(directory)
    requires '/' !in directory && '\\' !in directory && NUL !in directory
    ensures var p := Bounded([directory, directory + "/"]);
      IsPolicy(p) && Normalize(NormalPolicy(p)) == Failure(ContractInvalid)
  {
    hide RelativePrefix, IsPolicy, Clean, IsName, NormalPolicy, Normalize;
    var prefixes := [directory, directory + "/"];
    SlashIsAccepted(directory);
    BoundedIsLegal(prefixes);
    assert CleanPrefixes(prefixes)[0] == CleanPrefixes(prefixes)[1];
    NormalizingTwice(Bounded(prefixes));
  }

  /** A name is accepted with and without its slash, and both are the same directory. */
  lemma SlashIsAccepted(directory: string)
    requires 1 <= |directory| < MAX_STRING && directory != "*" && IsName(directory)
    requires '/' !in directory && '\\' !in directory && NUL !in directory
    ensures RelativePrefix(directory).Success? && RelativePrefix(directory + "/").Success?
    ensures Clean(directory) == Clean(directory + "/")
  {
    var other := directory + "/";
    PlainName(directory);
    StripOnce(directory);
    hide Split, HasBadPart, Strip, RelativePrefix;
    assert directory[0] in directory && other[0] == directory[0];
    assert directory[..1] == [directory[0]] && other[..1] == [directory[0]];
    assert other[|other| - 1] == '/';
    assert other != "*";
    PrefixIsAccepted(directory);
    PrefixIsAccepted(other);
  }

  function Letters(n: nat): (s: string)
    ensures |s| == n && forall i :: 0 <= i < n ==> s[i] == 'a'
  {
    seq(n, i => 'a')
  }

  /** Another one: a prefix of the greatest length, which the added slash makes too long. */
  lemma LongestPrefix()
    ensures var p := Bounded([Letters(MAX_STRING)]);
      IsPolicy(p) && Normalize(NormalPolicy(p)) == Failure(ContractInvalid)
  {
    var name := Letters(MAX_STRING);
    var prefixes := [name];
    hide Letters;
    assert '/' !in name && '\\' !in name && NUL !in name;
    PlainName(name);
    StripOnce(name);
    hide Split, HasBadPart, Strip;
    assert name[..1] == [name[0]];
    PrefixIsAccepted(name);
    hide RelativePrefix;
    SingleSet(name);
    BoundedIsLegal(prefixes);
    assert prefixes[0] == name && |Clean(prefixes[0])| == MAX_STRING + 1;
    hide IsPolicy;
    NormalizingTwice(Bounded(prefixes));
  }

  // ---------- what a decision lists ----------

  lemma RuleIdsAreIdentifiers(p: Policy, r: Rule)
    requires IsPolicy(p) && r in NormalPolicy(p).rules
    ensures IsIdentifier(r.ruleId)
  {
    hide NormalPolicy, IsStringSet, IsBoundaries, HasDistinctIds, SortStrings, IsIdentifier;
    var s := SourceRule(p, r);
    var j :| 0 <= j < |p.rules| && p.rules[j] == s;
  }

  lemma SourceRule(p: Policy, r: Rule) returns (s: Rule)
    requires IsPolicy(p) && r in NormalPolicy(p).rules
    ensures s in p.rules && r == NormalRule(s)
  {
    hide NormalPolicy, IsPolicy, IdAtMost, SortedBy, HasDistinctIds, NormalRule;
    SortedRules(p);
    s :| s in p.rules && r == NormalRule(s);
  }

  /** The matched identifiers of a decision are identifiers, each once, in order, with the selected
      one among them. */
  lemma MatchedAreRules(a: Action, p: Policy, endpoint: Endpoint, d: Decision)
    requires IsPolicy(p) && IsDecision(a, NormalPolicy(p), endpoint, d)
    ensures AreIdentifiers(d.matched)
    ensures SortStrings(d.matched) == d.matched
    ensures d.selected.Some? ==> d.selected.value in d.matched
    ensures AreDistinct(d.matched)
  {
    hide Matches, Crosses, NormalPolicy, StringAtMost, Sort, IsPolicy, Precedes, IsIdentifier;
    var rules := NormalPolicy(p).rules;
    forall i | 0 <= i < |d.matched| ensures IsIdentifier(d.matched[i]) {
      assert d.matched[i] in d.matched;
      var r :| r in rules && Matches(r, a) && r.ruleId == d.matched[i];
      RuleIdsAreIdentifiers(p, r);
    }
    StringsAreOrdered();
    SortOfSorted(d.matched, StringAtMost);
  }

  function Name(i: nat): string
    requires i < 676
  {
    [('a' as int + i / 26) as char, ('a' as int + i % 26) as char]
  }

  lemma NameIsIdentifier(i: nat)
    requires i < 676
    ensures IsIdentifier(Name(i))
  {
    assert 'a' <= Name(i)[0] <= 'z' && 'a' <= Name(i)[1] <= 'z';
  }

  lemma NamesDiffer(i: nat, j: nat)
    requires i < j < 676
    ensures Name(i) != Name(j)
  {
    if i / 26 == j / 26 {
      assert i % 26 != j % 26;
    }
    assert Name(i)[0] == Name(j)[0] ==> i / 26 == j / 26;
    assert Name(i)[1] == Name(j)[1] ==> i % 26 == j % 26;
  }

  function AnyRule(i: nat): Rule
    requires i < 676
  {
    Rule(Name(i), 0, Allow, ["*"], ["*"], ["*"], ["*"], ["*"])
  }

  function Crowd(n: nat): Policy
    requires n <= 676
  {
    Bounded(["*"]).(rules := seq(n, i requires 0 <= i < n => AnyRule(i)))
  }

  /** A legal policy whose decisions list 257 rules: more than a set may hold. */
  lemma CrowdIsTooLarge(a: Action, endpoint: Endpoint, d: Decision)
    requires IsDecision(a, NormalPolicy(Crowd(257)), endpoint, d)
    ensures IsPolicy(Crowd(257)) && |d.matched| > MAX_SET
  {
    hide IsDecision, NormalPolicy;
    var p := Crowd(257);
    CrowdIsLegal();
    var ids := seq(257, i requires 0 <= i < 257 => Name(i));
    forall i | 0 <= i < 257 ensures ids[i] in d.matched {
      CrowdMatches(a, endpoint, d, i);
    }
    forall i, j | 0 <= i < j < 257 ensures ids[i] != ids[j] {
      NamesDiffer(i, j);
    }
    hide Name;
    ManyInside(ids, d.matched);
  }

  lemma CrowdIsLegal()
    ensures IsPolicy(Crowd(257))
  {
    var p := Crowd(257);
    forall i, j | 0 <= i < j < 257 ensures p.rules[i].ruleId != p.rules[j].ruleId {
      NamesDiffer(i, j);
    }
    SingleSet("*");
    forall i | 0 <= i < 257 ensures IsIdentifier(p.rules[i].ruleId) {
      NameIsIdentifier(i);
    }
    hide Name, IsIdentifier;
    BoundedIsLegal(["*"]);
  }

  lemma CrowdMatches(a: Action, endpoint: Endpoint, d: Decision, i: nat)
    requires i < 257 && IsDecision(a, NormalPolicy(Crowd(257)), endpoint, d)
    ensures Name(i) in d.matched
  {
    CrowdIsLegal();
    var p := Crowd(257);
    SortedRules(p);
    hide NormalPolicy, Crosses, IsChosen, Name;
    assert p.rules[i] in p.rules;
    var r := NormalRule(AnyRule(i));
    assert r in NormalPolicy(p).rules;
    NormalRuleMatches(AnyRule(i), a);
    assert "*" in ["*"] && PrefixMatch(a.target, "*");
  }

  /** Distinct elements of b are at most as many as b has places. */
  lemma {:induction false} ManyInside(a: seq<string>, b: seq<string>)
    requires forall i, j :: 0 <= i < j < |a| ==> a[i] != a[j]
    requires forall i :: 0 <= i < |a| ==> a[i] in b
    ensures |a| <= |b|
  {
    if a != [] {
      var n := |a| - 1;
      var j :| 0 <= j < |b| && b[j] == a[n];
      var rest := b[..j] + b[j + 1..];
      forall i | 0 <= i < n ensures a[..n][i] in rest {
        var k :| 0 <= k < |b| && b[k] == a[i];
        if k < j {
          assert rest[k] == a[i];
        } else {
          assert rest[k - 1] == a[i];
        }
      }
      ManyInside(a[..n], rest);
    }
  }
}
