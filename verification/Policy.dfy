/** Policies and their evaluation: `normalize_policy`, `normalize_decision` (contracts.py) and
    `evaluate_action` (policy.py). */
module Policy {
  import opened Outcomes
  import opened Effects
  import opened Actions
  import opened Sorting
  import opened Rotations
  import opened Paths

  const MAX_STRING := 2048
  const MAX_SET := 256
  const MAX_RULES := 4096

  datatype Rule = Rule(ruleId: string, priority: int, effect: Effect, services: seq<string>, operations: seq<string>,
    targetPrefixes: seq<string>, agentIds: seq<string>, authorities: seq<string>)

  datatype Boundaries = Boundaries(allowedAuthorities: seq<string>, maxParameterBytes: nat, maxIpcSlots: nat,
    networkEnabled: bool, schemes: seq<string>, hosts: seq<string>, processEnabled: bool, processes: seq<string>,
    filePrefixes: seq<string>)

  datatype Policy = Policy(defaultEffect: Effect, boundaries: Boundaries, rules: seq<Rule>)

  // ---------- normalisation ----------

  predicate AreDistinct(items: seq<string>) {
    forall i, j :: 0 <= i < j < |items| ==> items[i] != items[j]
  }

  /** What `_string_set` accepts. */
  predicate IsStringSet(items: seq<string>) {
    && 1 <= |items| <= MAX_SET
    && (forall i :: 0 <= i < |items| ==> 1 <= |items[i]| <= MAX_STRING)
    && AreDistinct(items)
  }

  function SortStrings(items: seq<string>): (r: seq<string>)
    ensures |r| == |items| && multiset(r) == multiset(items)
  {
    Sort(items, StringAtMost)
  }

  predicate IsIdentifierChar(c: char) {
    'a' <= c <= 'z' || 'A' <= c <= 'Z' || '0' <= c <= '9' || c in "._:/@+-"
  }

  /** `IDENTIFIER_RE` */
  predicate IsIdentifier(s: string) {
    && 1 <= |s| <= 256
    && ('a' <= s[0] <= 'z' || 'A' <= s[0] <= 'Z' || '0' <= s[0] <= '9')
    && forall i :: 0 <= i < |s| ==> IsIdentifierChar(s[i])
  }

  predicate AreIdentifiers(items: seq<string>) {
    forall i :: 0 <= i < |items| ==> IsIdentifier(items[i])
  }

  predicate IsRule(r: Rule) {
    && IsIdentifier(r.ruleId)
    && IsStringSet(r.services) && IsStringSet(r.operations) && IsStringSet(r.targetPrefixes)
    && IsStringSet(r.agentIds) && IsStringSet(r.authorities)
  }

  function NormalRule(r: Rule): Rule {
    r.(services := SortStrings(r.services), operations := SortStrings(r.operations),
      targetPrefixes := SortStrings(r.targetPrefixes), agentIds := SortStrings(r.agentIds),
      authorities := SortStrings(r.authorities))
  }

  /** `_string_set` unless the list is empty. */
  predicate IsOptionalSet(items: seq<string>) {
    items != [] ==> IsStringSet(items)
  }

  predicate IsBoundaries(b: Boundaries) {
    && IsStringSet(b.allowedAuthorities) && IsStringSet(b.schemes)
    && IsOptionalSet(b.hosts) && IsOptionalSet(b.processes)
    && IsStringSet(b.filePrefixes)
    && forall i :: 0 <= i < |b.filePrefixes| ==> RelativePrefix(b.filePrefixes[i]).Success?
  }

  function CleanPrefixes(prefixes: seq<string>): (r: seq<string>)
    ensures |r| == |prefixes|
  {
    seq(|prefixes|, i requires 0 <= i < |prefixes| => Clean(prefixes[i]))
  }

  function Clean(prefix: string): string {
    if prefix == "*" then prefix else Strip(prefix) + "/"
  }

  function NormalBoundaries(b: Boundaries): Boundaries {
    b.(allowedAuthorities := SortStrings(b.allowedAuthorities), schemes := SortStrings(b.schemes),
      hosts := SortStrings(b.hosts), processes := SortStrings(b.processes),
      filePrefixes := SortStrings(CleanPrefixes(SortStrings(b.filePrefixes))))
  }

  predicate IdAtMost(a: Rule, b: Rule) {
    StringAtMost(a.ruleId, b.ruleId)
  }

  predicate HasDistinctIds(rules: seq<Rule>) {
    forall i, j :: 0 <= i < j < |rules| ==> rules[i].ruleId != rules[j].ruleId
  }

  function NormalRules(rules: seq<Rule>): (r: seq<Rule>)
    ensures |r| == |rules|
  {
    seq(|rules|, i requires 0 <= i < |rules| => NormalRule(rules[i]))
  }

  predicate IsPolicy(p: Policy) {
    && |p.rules| <= MAX_RULES
    && (forall i :: 0 <= i < |p.rules| ==> IsRule(p.rules[i]))
    && HasDistinctIds(p.rules)
    && IsBoundaries(p.boundaries)
  }

  function NormalPolicy(p: Policy): Policy {
    Policy(p.defaultEffect, NormalBoundaries(p.boundaries), Sort(NormalRules(p.rules), IdAtMost))
  }

  /** `normalize_policy` */
  function Normalize(p: Policy): Result<Policy> {
    if IsPolicy(p) then Success(NormalPolicy(p)) else Failure(ContractInvalid)
  }

  // ---------- sorted strings ----------

  lemma StringsAreOrdered()
    ensures IsTotalPreorder(StringAtMost)
    ensures forall items: seq<string> :: Separates(StringAtMost, items)
  {
    StringAtMostIsTotal();
    hide StringAtMost;
  }

  lemma SameStrings(a: seq<string>, b: seq<string>)
    requires multiset(a) == multiset(b)
    ensures SortStrings(a) == SortStrings(b)
  {
    hide Sort, StringAtMost;
    StringsAreOrdered();
    SortForgetsOrder(a, b, StringAtMost);
  }

  lemma SortedStringsStay(a: seq<string>)
    ensures SortStrings(SortStrings(a)) == SortStrings(a)
  {
    SameStrings(SortStrings(a), a);
  }

  lemma SameElements<T>(a: seq<T>, b: seq<T>)
    requires multiset(a) == multiset(b)
    ensures forall x :: x in a <==> x in b
  {
    forall x ensures x in a <==> x in b {
      assert x in a <==> x in multiset(a);
      assert x in b <==> x in multiset(b);
    }
  }

  /** Distinctness does not depend on the order. */
  lemma {:induction false} DistinctMeans(a: seq<string>)
    ensures AreDistinct(a) <==> forall x :: multiset(a)[x] <= 1
  {
    if a != [] {
      var n := |a| - 1;
      DistinctMeans(a[..n]);
      assert a == a[..n] + [a[n]];
      if AreDistinct(a) {
        assert a[n] !in a[..n];
      }
      if forall x :: multiset(a)[x] <= 1 {
        assert multiset(a)[a[n]] <= 1;
        assert a[n] !in multiset(a[..n]);
        forall x ensures multiset(a[..n])[x] <= 1 {
          assert multiset(a)[x] <= 1;
        }
        forall i | 0 <= i < n ensures a[i] != a[n] {
          assert a[..n][i] in a[..n];
        }
        assert forall i :: 0 <= i < n ==> a[..n][i] == a[i];
      }
    }
  }

  lemma StringSetMoves(a: seq<string>, b: seq<string>)
    requires multiset(a) == multiset(b)
    ensures IsStringSet(a) <==> IsStringSet(b)
  {
    hide AreDistinct;
    DistinctMeans(a);
    DistinctMeans(b);
    SameElements(a, b);
    assert |multiset(a)| == |a| && |multiset(b)| == |b|;
    forall i | 0 <= i < |a| ensures a[i] in b {
    }
    forall i | 0 <= i < |b| ensures b[i] in a {
    }
  }

  // ---------- evaluation ----------

  function AuthorityName(a: Authority): string {
    match a
    case SimOnly => "SIM_ONLY"
    case ReadOnlyExternal => "READ_ONLY_EXTERNAL"
    case WorkspaceWrite => "WORKSPACE_WRITE"
    case Network => "NETWORK"
    case ControlledExecution => "CONTROLLED_EXECUTION"
  }

  /** `_rule_matches` */
  predicate Matches(r: Rule, a: Action) {
    && ("*" in r.services || a.service in r.services)
    && ("*" in r.operations || a.operation in r.operations)
    && (exists prefix :: prefix in r.targetPrefixes && PrefixMatch(a.target, prefix))
    && ("*" in r.agentIds || a.producer.agentId in r.agentIds)
    && ("*" in r.authorities || AuthorityName(a.authority) in r.authorities)
  }

  datatype Reason =
    | AuthorityNotGranted | ParametersTooLarge
    | NetworkDisabled | NetworkTargetInvalid | NetworkSchemeNotAllowed | NetworkHostNotAllowed
    | ProcessDisabled | ProcessNotAllowed
    | FileTargetInvalid | FileTargetOutsidePrefix
    | IpcSlotInvalid
    | ByRule(effect: Effect) | ByDefault(effect: Effect)

  /** Scheme and host of a network target, or nothing: `_network_endpoint`, which is `Network.EndpointOf`. */
  type Endpoint = string -> Option<(string, string)>

  /** When each boundary is crossed, one by one. */
  predicate Crosses(a: Action, b: Boundaries, endpoint: Endpoint, r: Reason) {
    match r
    case AuthorityNotGranted => AuthorityName(a.authority) !in b.allowedAuthorities
    case ParametersTooLarge => a.parameterLength > b.maxParameterBytes
    case NetworkDisabled => a.service == "network" && !b.networkEnabled
    case NetworkTargetInvalid => a.service == "network" && endpoint(a.target).None?
    case NetworkSchemeNotAllowed =>
      a.service == "network" && endpoint(a.target).Some? && endpoint(a.target).value.0 !in b.schemes
    case NetworkHostNotAllowed =>
      a.service == "network" && endpoint(a.target).Some? && endpoint(a.target).value.1 !in b.hosts
    case ProcessDisabled => a.service == "process" && !b.processEnabled
    case ProcessNotAllowed => a.service == "process" && a.target !in b.processes
    case FileTargetInvalid => a.service == "file" && !IsSafeTarget(a.target)
    case FileTargetOutsidePrefix =>
      a.service == "file" && IsSafeTarget(a.target)
      && !exists prefix :: prefix in b.filePrefixes && PrefixMatch(a.target, prefix)
    case IpcSlotInvalid => a.service == "ipc" && (a.slot.None? || a.slot.value >= b.maxIpcSlots)
    case _ => false
  }

  /** `any(_prefix_match(target, prefix) for prefix in prefixes)` */
  predicate AnyPrefix(target: string, prefixes: seq<string>) {
    exists prefix :: prefix in prefixes && PrefixMatch(target, prefix)
  }

  /** `_boundary_reasons`: the boundaries that are crossed, and no other. */
  method BoundaryReasons(a: Action, b: Boundaries, endpoint: Endpoint) returns (reasons: seq<Reason>)
    ensures forall r :: r in reasons <==> Crosses(a, b, endpoint, r)
  {
    hide IsSafeTarget, PrefixMatch, AuthorityName;
    reasons := [];
    if AuthorityName(a.authority) !in b.allowedAuthorities {
      reasons := reasons + [AuthorityNotGranted];
    }
    if a.parameterLength > b.maxParameterBytes {
      reasons := reasons + [ParametersTooLarge];
    }
    if a.service == "network" {
      if !b.networkEnabled {
        reasons := reasons + [NetworkDisabled];
      }
      match endpoint(a.target)
      case None =>
        reasons := reasons + [NetworkTargetInvalid];
      case Some((scheme, host)) =>
        if scheme !in b.schemes {
          reasons := reasons + [NetworkSchemeNotAllowed];
        }
        if host !in b.hosts {
          reasons := reasons + [NetworkHostNotAllowed];
        }
    } else if a.service == "process" {
      if !b.processEnabled {
        reasons := reasons + [ProcessDisabled];
      }
      if a.target !in b.processes {
        reasons := reasons + [ProcessNotAllowed];
      }
    } else if a.service == "file" {
      if !IsSafeTarget(a.target) {
        reasons := reasons + [FileTargetInvalid];
      } else if !AnyPrefix(a.target, b.filePrefixes) {
        reasons := reasons + [FileTargetOutsidePrefix];
      }
    } else if a.service == "ipc" {
      if a.slot.None? || a.slot.value >= b.maxIpcSlots {
        reasons := reasons + [IpcSlotInvalid];
      }
    }
  }

  datatype Decision = Decision(effect: Effect, reasons: set<Reason>, matched: seq<string>, selected: Option<string>)

  /** Strictly earlier in the order of decision: higher priority, then the stricter effect, then the
      smaller identifier. */
  predicate Precedes(a: Rule, b: Rule) {
    a.priority > b.priority
    || (a.priority == b.priority
      && (Rank(a.effect) < Rank(b.effect)
        || (a.effect == b.effect && a.ruleId != b.ruleId && StringAtMost(a.ruleId, b.ruleId))))
  }

  /** The sort key of `evaluate_action`, compared. */
  predicate KeyAtMost(a: Rule, b: Rule) {
    a.priority > b.priority
    || (a.priority == b.priority
      && (Rank(a.effect) < Rank(b.effect) || (Rank(a.effect) == Rank(b.effect) && StringAtMost(a.ruleId, b.ruleId))))
  }

  /** r matches and comes before every other rule that matches. */
  ghost predicate IsChosen(rules: seq<Rule>, a: Action, r: Rule) {
    && r in rules && Matches(r, a)
    && forall s :: s in rules && Matches(s, a) && s != r ==> Precedes(r, s)
  }

  function Matching(rules: seq<Rule>, a: Action): (m: seq<Rule>)
    ensures forall r :: r in m <==> r in rules && Matches(r, a)
  {
    if rules == [] then []
    else
      var k := |rules| - 1;
      assert rules == rules[..k] + [rules[k]];
      Matching(rules[..k], a) + if Matches(rules[k], a) then [rules[k]] else []
  }

  function IdsOf(rules: seq<Rule>): (ids: seq<string>)
    ensures |ids| == |rules| && forall i :: 0 <= i < |rules| ==> ids[i] == rules[i].ruleId
  {
    seq(|rules|, i requires 0 <= i < |rules| => rules[i].ruleId)
  }

  /** The decision for an action under a normalised policy. */
  ghost predicate IsDecision(a: Action, q: Policy, endpoint: Endpoint, d: Decision) {
    // the matched identifiers, each once, in order
    && SortedBy(d.matched, StringAtMost) && AreDistinct(d.matched)
    && (forall id :: id in d.matched <==> exists r :: r in q.rules && Matches(r, a) && r.ruleId == id)
    && if exists r :: Crosses(a, q.boundaries, endpoint, r) then
        // a crossed boundary denies, whatever the rules say
        d.effect == Deny && d.selected == None && (forall r :: r in d.reasons <==> Crosses(a, q.boundaries, endpoint, r))
      else if exists r :: r in q.rules && Matches(r, a) then
        exists r :: IsChosen(q.rules, a, r)
          && d.effect == r.effect && d.selected == Some(r.ruleId) && d.reasons == {ByRule(r.effect)}
      else
        d.effect == q.defaultEffect && d.selected == None && d.reasons == {ByDefault(q.defaultEffect)}
  }

  lemma KeysAreOrdered()
    ensures IsTotalPreorder(KeyAtMost)
  {
    StringAtMostIsTotal();
    hide StringAtMost;
  }

  lemma FirstIsChosen(rules: seq<Rule>, a: Action, sorted: seq<Rule>)
    requires HasDistinctIds(rules) && sorted != []
    requires multiset(sorted) == multiset(Matching(rules, a)) && SortedBy(sorted, KeyAtMost)
    ensures IsChosen(rules, a, sorted[0])
  {
    hide Matches, StringAtMost, Matching;
    SameElements(sorted, Matching(rules, a));
    assert sorted[0] in sorted;
    forall s | s in rules && Matches(s, a) && s != sorted[0] ensures Precedes(sorted[0], s) {
      assert s in sorted;
      var i :| 0 <= i < |sorted| && sorted[i] == s;
      assert KeyAtMost(sorted[0], sorted[i]);
      var j :| 0 <= j < |rules| && rules[j] == s;
      var k :| 0 <= k < |rules| && rules[k] == sorted[0];
      assert rules[j].ruleId != rules[k].ruleId;
    }
  }

  /** `evaluate_action` */
  method EvaluateAction(a: Action, p: Policy, endpoint: Endpoint) returns (result: Result<Decision>)
    ensures result.Success? <==> IsPolicy(p)
    ensures result.Success? ==> IsDecision(a, NormalPolicy(p), endpoint, result.value)
    ensures result.Failure? ==> result.error == ContractInvalid
  {
    hide IsPolicy, NormalPolicy, Matches, Crosses, KeyAtMost, Sort, SortStrings, Matching, IsChosen,
      HasDistinctIds, StringAtMost, AreDistinct, SortedBy;
    var normalized := Normalize(p);
    if normalized.Failure? {
      return Failure(normalized.error);
    }
    var q := normalized.value;
    var matching := Matching(q.rules, a);
    var sorted := Sort(matching, KeyAtMost);
    KeysAreOrdered();
    SortSorts(matching, KeyAtMost);
    SameElements(sorted, matching);
    NormalIdsAreDistinct(p);
    var matched := SortStrings(IdsOf(sorted));
    MatchedIds(q.rules, a, sorted, matched);
    var reasons := BoundaryReasons(a, q.boundaries, endpoint);
    if reasons != [] {
      assert reasons[0] in reasons;
      return Success(Decision(Deny, (set r | r in reasons), matched, None));
    }
    assert forall r :: !Crosses(a, q.boundaries, endpoint, r) by {
      forall r ensures !Crosses(a, q.boundaries, endpoint, r) {
        assert r !in reasons;
      }
    }
    if sorted != [] {
      var selected := sorted[0];
      FirstIsChosen(q.rules, a, sorted);
      assert selected in matching;
      result := Success(Decision(selected.effect, {ByRule(selected.effect)}, matched, Some(selected.ruleId)));
    } else {
      assert forall r :: r !in matching;
      result := Success(Decision(q.defaultEffect, {ByDefault(q.defaultEffect)}, matched, None));
    }
  }

  lemma {:induction false} MatchingIsDistinct(rules: seq<Rule>, a: Action)
    requires HasDistinctIds(rules)
    ensures HasDistinctIds(Matching(rules, a))
  {
    hide Matches;
    if rules != [] {
      var k := |rules| - 1;
      var front := Matching(rules[..k], a);
      MatchingIsDistinct(rules[..k], a);
      forall i | 0 <= i < |front| ensures front[i].ruleId != rules[k].ruleId {
        assert front[i] in front;
        assert front[i] in rules[..k];
      }
    }
  }

  /** Rules with distinct identifiers still have them in another order. */
  lemma DistinctIdsMove(a: seq<Rule>, b: seq<Rule>)
    requires HasDistinctIds(a) && multiset(a) == multiset(b)
    ensures HasDistinctIds(b) && forall r :: r in a <==> r in b
  {
    NoRepeats(a, b);
    forall i, j | 0 <= i < j < |b| ensures b[i].ruleId != b[j].ruleId {
      assert b[i] in a && b[j] in a;
    }
  }

  /** `matched_rule_ids` */
  lemma MatchedIds(rules: seq<Rule>, a: Action, sorted: seq<Rule>, matched: seq<string>)
    requires HasDistinctIds(rules) && multiset(sorted) == multiset(Matching(rules, a))
    requires matched == SortStrings(IdsOf(sorted))
    ensures SortedBy(matched, StringAtMost) && AreDistinct(matched)
    ensures forall id :: id in matched <==> exists r :: r in rules && Matches(r, a) && r.ruleId == id
  {
    hide Matches, StringAtMost, Sort;
    MatchingIsDistinct(rules, a);
    DistinctIdsMove(Matching(rules, a), sorted);
    StringsAreOrdered();
    SortSorts(IdsOf(sorted), StringAtMost);
    NoRepeats(IdsOf(sorted), matched);
    forall id ensures id in IdsOf(sorted) <==> exists r :: r in rules && Matches(r, a) && r.ruleId == id {
      if id in IdsOf(sorted) {
        var i :| 0 <= i < |sorted| && IdsOf(sorted)[i] == id;
        assert sorted[i] in sorted;
      }
      if r :| r in rules && Matches(r, a) && r.ruleId == id {
        assert r in sorted;
        var i :| 0 <= i < |sorted| && sorted[i] == r;
        assert IdsOf(sorted)[i] == id;
      }
    }
  }

  lemma NormalIdsAreDistinct(p: Policy)
    requires IsPolicy(p)
    ensures HasDistinctIds(NormalPolicy(p).rules)
  {
    hide IsBoundaries, IsRule, Sort;
    DistinctIdsMove(NormalRules(p.rules), NormalPolicy(p).rules);
  }

  // ---------- the decision as a function ----------

  const ALL_REASONS: seq<Reason> := [AuthorityNotGranted, ParametersTooLarge, NetworkDisabled, NetworkTargetInvalid,
    NetworkSchemeNotAllowed, NetworkHostNotAllowed, ProcessDisabled, ProcessNotAllowed, FileTargetInvalid,
    FileTargetOutsidePrefix, IpcSlotInvalid, ByRule(Deny), ByRule(Review), ByRule(Allow), ByDefault(Deny),
    ByDefault(Review), ByDefault(Allow)]

  lemma ReasonIsListed(r: Reason)
    ensures r in ALL_REASONS
  {
    match r
    case ByRule(e) => match e { case Deny => assert ALL_REASONS[11] == r; case Review => assert ALL_REASONS[12] == r; case Allow => assert ALL_REASONS[13] == r; }
    case ByDefault(e) => match e { case Deny => assert ALL_REASONS[14] == r; case Review => assert ALL_REASONS[15] == r; case Allow => assert ALL_REASONS[16] == r; }
    case _ =>
  }

  /** The listed boundaries that are crossed. */
  function Crossed(a: Action, b: Boundaries, endpoint: Endpoint, listed: seq<Reason>): (reasons: seq<Reason>)
    ensures forall r :: r in reasons <==> r in listed && Crosses(a, b, endpoint, r)
  {
    if listed == [] then []
    else
      var k := |listed| - 1;
      assert listed == listed[..k] + [listed[k]];
      Crossed(a, b, endpoint, listed[..k]) + if Crosses(a, b, endpoint, listed[k]) then [listed[k]] else []
  }

  /** The matching rules, the deciding one first. */
  function Ranked(a: Action, q: Policy): (ranked: seq<Rule>)
    ensures multiset(ranked) == multiset(Matching(q.rules, a))
  {
    Sort(Matching(q.rules, a), KeyAtMost)
  }

  function ReasonsFor(a: Action, q: Policy, endpoint: Endpoint): seq<Reason> {
    var crossed := Crossed(a, q.boundaries, endpoint, ALL_REASONS);
    if crossed != [] then crossed
    else if Ranked(a, q) != [] then [ByRule(Ranked(a, q)[0].effect)]
    else [ByDefault(q.defaultEffect)]
  }

  /** What `evaluate_action` returns for normalised arguments. */
  function Decide(a: Action, q: Policy, endpoint: Endpoint): Decision {
    var reasons := set r | r in ReasonsFor(a, q, endpoint);
    var matched := SortStrings(IdsOf(Ranked(a, q)));
    if Crossed(a, q.boundaries, endpoint, ALL_REASONS) != [] then Decision(Deny, reasons, matched, None)
    else if Ranked(a, q) != [] then Decision(Ranked(a, q)[0].effect, reasons, matched, Some(Ranked(a, q)[0].ruleId))
    else Decision(q.defaultEffect, reasons, matched, None)
  }

  predicate AreApart(reasons: seq<Reason>) {
    forall i, j :: 0 <= i < j < |reasons| ==> reasons[i] != reasons[j]
  }

  lemma {:induction false} CrossedAreDistinct(a: Action, b: Boundaries, endpoint: Endpoint, listed: seq<Reason>)
    requires AreApart(listed)
    ensures AreApart(Crossed(a, b, endpoint, listed))
  {
    hide Crosses;
    if listed != [] {
      var k := |listed| - 1;
      CrossedAreDistinct(a, b, endpoint, listed[..k]);
      var front := Crossed(a, b, endpoint, listed[..k]);
      forall i | 0 <= i < |front| ensures front[i] != listed[k] {
        assert front[i] in front;
        assert front[i] in listed[..k];
      }
    }
  }

  lemma ReasonsAreDistinct(a: Action, q: Policy, endpoint: Endpoint)
    ensures AreApart(ReasonsFor(a, q, endpoint))
  {
    hide Crosses, Crossed, Matching, Ranked;
    assert AreApart(ALL_REASONS);
    CrossedAreDistinct(a, q.boundaries, endpoint, ALL_REASONS);
  }

  lemma CrossedMeans(a: Action, b: Boundaries, endpoint: Endpoint)
    ensures var crossed := Crossed(a, b, endpoint, ALL_REASONS);
      && (forall r :: r in crossed <==> Crosses(a, b, endpoint, r))
      && (crossed != [] <==> exists r :: Crosses(a, b, endpoint, r))
  {
    var crossed := Crossed(a, b, endpoint, ALL_REASONS);
    hide Crosses, Crossed;
    forall r ensures r in crossed <==> Crosses(a, b, endpoint, r) {
      ReasonIsListed(r);
    }
    if crossed != [] {
      assert crossed[0] in crossed;
    }
  }

  /** The function decides as `IsDecision` says. */
  lemma DecideIsDecision(a: Action, q: Policy, endpoint: Endpoint)
    requires HasDistinctIds(q.rules)
    ensures IsDecision(a, q, endpoint, Decide(a, q, endpoint))
  {
    hide Matches, Crosses, KeyAtMost, Sort, SortStrings, Matching, Crossed, IsChosen, HasDistinctIds, StringAtMost,
      AreDistinct, SortedBy;
    var ranked := Ranked(a, q);
    assert SortedBy(ranked, KeyAtMost) by {
      KeysAreOrdered();
      SortSorts(Matching(q.rules, a), KeyAtMost);
    }
    SameElements(ranked, Matching(q.rules, a));
    MatchedIds(q.rules, a, ranked, SortStrings(IdsOf(ranked)));
    CrossedMeans(a, q.boundaries, endpoint);
    if ranked != [] {
      FirstIsChosen(q.rules, a, ranked);
      assert ranked[0] in ranked;
    } else {
      assert forall r :: r !in ranked;
    }
  }
}
