/** Policies as they are read: `normalize_rule`, `normalize_boundaries` and `normalize_policy`
    (contracts.py), as readers into the typed policies of `Policy` and writers back.

    Arguments are dictionaries in sorted form, and so are the results. */
module PolicyContract {
  import opened Outcomes
  import opened Effects
  import opened Actions
  import opened Json
  import opened Fields
  import opened PolicyModel = Policy
  import opened PolicyLaws
  import Sorting
  import Paths
  import Records
  import AC = ActionContract
  import GC = GeometryContract

  // ---------- rules ----------

  const RULE_REQUIRED: seq<string> := ["schema", "rule_id", "priority", "effect"]
  const RULE_OPTIONAL: seq<string> := ["services", "operations", "target_prefixes", "agent_ids", "authorities"]
  const RULE_KEYS: seq<string> := ["schema", "rule_id", "priority", "effect", "services", "operations",
    "target_prefixes", "agent_ids", "authorities"]

  const RULE_SCHEMA: Value := Str("heresy-sec.rule/v1")

  /** Every item is one of the choices, or the wildcard. */
  predicate AreChoices(items: seq<string>, choices: seq<string>, wildcard: bool) {
    forall i :: 0 <= i < |items| ==> items[i] in choices || (wildcard && items[i] == "*")
  }

  /** A list of strings that may be missing. */
  function ListField(v: Value, key: string): Option<seq<string>> {
    StringsOf(AC.FieldOr(v, key, Arr([Str("*")])))
  }

  predicate IsRuleText(v: Value) {
    && AC.IsIdentifierValue(Field(v, "rule_id")) && AC.IsIntegerIn(Field(v, "priority"), -1_000_000, 1_000_000)
    && Records.EffectOfName(Field(v, "effect")).Some?
    && ListField(v, "services").Some? && ListField(v, "operations").Some? && ListField(v, "target_prefixes").Some?
    && ListField(v, "agent_ids").Some? && ListField(v, "authorities").Some?
    && AreChoices(ListField(v, "services").value, AC.SERVICES, true)
    && AreChoices(ListField(v, "authorities").value, AC.AUTHORITIES, true)
  }

  function ReadRule(v: Value): Result<Rule> {
    var keys :- AC.CheckKeys(v, RULE_REQUIRED, RULE_OPTIONAL);
    if Field(v, "schema") != RULE_SCHEMA then Failure(SchemaUnsupported)
    else if !IsRuleText(v) then Failure(ContractInvalid)
    else Success(Rule(Field(v, "rule_id").s, Field(v, "priority").n, Records.EffectOfName(Field(v, "effect")).value,
      ListField(v, "services").value, ListField(v, "operations").value, ListField(v, "target_prefixes").value,
      ListField(v, "agent_ids").value, ListField(v, "authorities").value))
  }

  function RuleValues(r: Rule): seq<Value> {
    [RULE_SCHEMA, Str(r.ruleId), Int(r.priority), Str(Records.EffectName(r.effect)), Arr(Strs(r.services)),
      Arr(Strs(r.operations)), Arr(Strs(r.targetPrefixes)), Arr(Strs(r.agentIds)), Arr(Strs(r.authorities))]
  }

  function RuleValue(r: Rule): Value {
    RecordOf(RULE_KEYS, RuleValues(r))
  }

  /** What the reader has checked of a rule. */
  predicate IsVocal(r: Rule) {
    && IsIdentifier(r.ruleId) && -1_000_000 <= r.priority <= 1_000_000
    && AreChoices(r.services, AC.SERVICES, true) && AreChoices(r.authorities, AC.AUTHORITIES, true)
  }

  lemma RuleKeysDiffer()
    ensures AreDistinctKeys(RULE_KEYS) && |RULE_KEYS| == 9
    ensures RULE_KEYS[0] == "schema" && RULE_KEYS[1] == "rule_id" && RULE_KEYS[2] == "priority" && RULE_KEYS[3] == "effect"
    ensures RULE_KEYS[4] == "services" && RULE_KEYS[5] == "operations" && RULE_KEYS[6] == "target_prefixes"
    ensures RULE_KEYS[7] == "agent_ids" && RULE_KEYS[8] == "authorities"
  {
    TaggedTextsDiffer(RULE_KEYS, ['s', 'r', 'p', 'e', 's', 'o', 't', 'a', 'a'], [6, 7, 8, 6, 8, 10, 15, 9, 11]);
  }

  lemma RuleKeySets()
    ensures KeySet(RULE_REQUIRED) <= KeySet(RULE_KEYS) <= KeySet(RULE_REQUIRED) + KeySet(RULE_OPTIONAL)
  {
  }

  lemma ListIsPlain(items: seq<string>, levels: nat)
    requires levels >= 1
    ensures GC.IsPlain(Arr(Strs(items)), levels) && StringsOf(Arr(Strs(items))) == Some(items)
  {
    StringsRoundTrip(items);
  }

  lemma RuleFields(r: Rule)
    requires IsVocal(r)
    ensures var v := RuleValue(r);
      && GC.IsPlain(v, 2) && GC.HasKeys(v, RULE_KEYS)
      && Field(v, "schema") == RULE_SCHEMA && Field(v, "rule_id") == Str(r.ruleId) && Field(v, "priority") == Int(r.priority)
      && Field(v, "effect") == Str(Records.EffectName(r.effect)) && Field(v, "services") == Arr(Strs(r.services))
      && Field(v, "operations") == Arr(Strs(r.operations)) && Field(v, "target_prefixes") == Arr(Strs(r.targetPrefixes))
      && Field(v, "agent_ids") == Arr(Strs(r.agentIds)) && Field(v, "authorities") == Arr(Strs(r.authorities))
  {
    hide GC.IsPlain, RecordOf, Field, GC.HasKeys, AreDistinctKeys, Strs, Records.EffectName, StringsOf;
    var values := RuleValues(r);
    ListIsPlain(r.services, 1);
    ListIsPlain(r.operations, 1);
    ListIsPlain(r.targetPrefixes, 1);
    ListIsPlain(r.agentIds, 1);
    ListIsPlain(r.authorities, 1);
    forall i | 0 <= i < 9 ensures GC.IsPlain(values[i], 1) {
      if i < 4 {
        GC.ScalarIsPlain(values[i], 1);
      }
    }
    RuleKeysDiffer();
    GC.PlainRecord(RULE_KEYS, values, 1);
    hide RULE_KEYS;
  }

  lemma RuleHasKeys(v: Value, key: string)
    requires GC.HasKeys(v, RULE_KEYS) && WellFormed(v) && key in RULE_KEYS
    ensures ListField(v, key) == StringsOf(Field(v, key))
  {
    hide AC.FieldOr, StringsOf, Field, RULE_KEYS, WellFormed;
    AC.FieldIsFieldOr(v, key, Arr([Str("*")]));
  }

  lemma EffectIsKnown(e: Effect)
    ensures Records.EffectOfName(Str(Records.EffectName(e))) == Some(e)
  {
    assert "DENY" != "REVIEW" && "ALLOW" != "REVIEW" && "DENY"[0] != "ALLOW"[0];
  }

  lemma RuleLists(r: Rule)
    requires IsVocal(r)
    ensures var v := RuleValue(r);
      && ListField(v, "services") == Some(r.services) && ListField(v, "operations") == Some(r.operations)
      && ListField(v, "target_prefixes") == Some(r.targetPrefixes) && ListField(v, "agent_ids") == Some(r.agentIds)
      && ListField(v, "authorities") == Some(r.authorities)
  {
    hide IsVocal, GC.IsPlain, RecordOf, Field, GC.HasKeys, Strs, Records.EffectName, StringsOf, RuleValue, ListField,
      WellFormed, Sorted, IsCanonizable;
    var v := RuleValue(r);
    RuleFields(r);
    PlainParts(v, 2);
    RuleKeysDiffer();
    assert forall i :: 0 <= i < 9 ==> RULE_KEYS[i] in RULE_KEYS;
    hide RULE_KEYS;
    RuleHasKeys(v, "services");
    RuleHasKeys(v, "operations");
    RuleHasKeys(v, "target_prefixes");
    RuleHasKeys(v, "agent_ids");
    RuleHasKeys(v, "authorities");
    ListIsPlain(r.services, 1);
    ListIsPlain(r.operations, 1);
    ListIsPlain(r.targetPrefixes, 1);
    ListIsPlain(r.agentIds, 1);
    ListIsPlain(r.authorities, 1);
  }

  /** A rule that was written is read back as it was. */
  lemma RuleRoundTrip(r: Rule)
    requires IsVocal(r)
    ensures ReadRule(RuleValue(r)) == Success(r) && GC.IsPlain(RuleValue(r), 2)
  {
    hide GC.IsPlain, RecordOf, Field, GC.HasKeys, Strs, Records.EffectName, Records.EffectOfName, StringsOf, RuleValue,
      ListField, IsIdentifier, AC.CheckKeys, AC.SERVICES, AC.AUTHORITIES, KeySet;
    RuleFields(r);
    RuleLists(r);
    EffectIsKnown(r.effect);
    RuleKeySets();
    var v := RuleValue(r);
    hide RULE_KEYS;
    HasKeysPass(v, RULE_KEYS, RULE_REQUIRED, RULE_OPTIONAL);
  }

  lemma PlainParts(v: Value, levels: nat)
    requires GC.IsPlain(v, levels)
    ensures Sorted(v) == v && WellFormed(v) && IsCanonizable(v, levels)
  {
  }

  lemma HasKeysPass(v: Value, kept: seq<string>, required: seq<string>, optional: seq<string>)
    requires GC.HasKeys(v, kept) && KeySet(required) <= KeySet(kept) <= KeySet(required) + KeySet(optional)
    ensures AC.CheckKeys(v, required, optional) == Success(())
  {
    AC.KeptKeysPass(v, kept, required, optional);
  }

  function ReadRules(items: seq<Value>): (r: Result<seq<Rule>>)
    ensures r.Success? ==> |r.value| == |items|
  {
    if items == [] then Success([])
    else
      var front :- ReadRules(items[..|items| - 1]);
      var last :- ReadRule(items[|items| - 1]);
      Success(front + [last])
  }

  function RuleValueList(rules: seq<Rule>): (r: seq<Value>)
    ensures |r| == |rules| && forall i :: 0 <= i < |rules| ==> r[i] == RuleValue(rules[i])
  {
    seq(|rules|, i requires 0 <= i < |rules| => RuleValue(rules[i]))
  }

  lemma {:induction false} RulesRoundTrip(rules: seq<Rule>)
    requires forall i :: 0 <= i < |rules| ==> IsVocal(rules[i])
    ensures ReadRules(RuleValueList(rules)) == Success(rules)
  {
    hide ReadRule, RuleValue, IsVocal;
    if rules != [] {
      var n := |rules| - 1;
      RulesRoundTrip(rules[..n]);
      RuleRoundTrip(rules[n]);
      assert RuleValueList(rules)[..n] == RuleValueList(rules[..n]);
      assert rules == rules[..n] + [rules[n]];
    }
  }

  lemma {:induction false} ReadRulesAreVocal(items: seq<Value>)
    requires ReadRules(items).Success?
    ensures forall i :: 0 <= i < |items| ==> IsVocal(ReadRules(items).value[i])
  {
    hide ReadRule, IsVocal;
    if items != [] {
      ReadRulesAreVocal(items[..|items| - 1]);
      ReadRuleIsVocal(items[|items| - 1]);
    }
  }

  lemma ReadRuleIsVocal(v: Value)
    requires ReadRule(v).Success?
    ensures IsVocal(ReadRule(v).value)
  {
    hide Field, ListField, IsIdentifier, AC.CheckKeys, AC.SERVICES, AC.AUTHORITIES, Records.EffectOfName;
  }

  lemma RuleListIsPlain(rules: seq<Rule>)
    requires forall i :: 0 <= i < |rules| ==> IsVocal(rules[i])
    ensures GC.IsPlain(Arr(RuleValueList(rules)), 3)
  {
    var items := RuleValueList(rules);
    hide RuleValue, IsVocal;
    forall i | 0 <= i < |rules|
      ensures Sorted(items[i]) == items[i] && WellFormed(items[i]) && IsCanonizable(items[i], 2)
    {
      RuleRoundTrip(rules[i]);
      PlainParts(items[i], 2);
    }
    assert SortedItems(items) == items;
  }

  // ---------- boundaries ----------

  const BOUNDARY_KEYS: seq<string> := ["allowed_authorities", "max_parameter_bytes", "max_ipc_slots", "network_enabled",
    "allowed_network_schemes", "allowed_network_hosts", "process_enabled", "allowed_processes", "file_target_prefixes"]

  predicate IsSchemeChar(c: char) {
    'a' <= c <= 'z' || '0' <= c <= '9' || c == '+' || c == '.' || c == '-'
  }

  /** `SCHEME_RE` */
  predicate IsScheme(s: string) {
    1 <= |s| <= 64 && 'a' <= s[0] <= 'z' && forall i :: 0 <= i < |s| ==> IsSchemeChar(s[i])
  }

  /** A host name in lower case, free of slash, at sign and NUL, without a dot at either end. */
  predicate IsHost(s: string) {
    && (forall i :: 0 <= i < |s| ==> !('A' <= s[i] <= 'Z'))
    && '/' !in s && '@' !in s && Paths.NUL !in s
    && (s != [] ==> s[0] != '.' && s[|s| - 1] != '.')
  }

  predicate AreSchemes(items: seq<string>) {
    forall i :: 0 <= i < |items| ==> IsScheme(items[i])
  }

  predicate AreHosts(items: seq<string>) {
    forall i :: 0 <= i < |items| ==> IsHost(items[i])
  }

  /** A list that may be missing, or anything false for an empty one. */
  function OptionalList(v: Value, key: string): Option<seq<string>> {
    var x := AC.FieldOr(v, key, Arr([]));
    if IsFalsy(x) then Some([]) else StringsOf(x)
  }

  function Authorities(v: Value): Option<seq<string>> {
    StringsOf(AC.FieldOr(v, "allowed_authorities", Arr([Str("SIM_ONLY")])))
  }

  function Schemes(v: Value): Option<seq<string>> {
    StringsOf(AC.FieldOr(v, "allowed_network_schemes", Arr([Str("https")])))
  }

  function Prefixes(v: Value): Option<seq<string>> {
    StringsOf(AC.FieldOr(v, "file_target_prefixes", Arr([Str("workspace/")])))
  }

  function ParameterBytes(v: Value): Value {
    AC.FieldOr(v, "max_parameter_bytes", Int(16384))
  }

  function IpcSlots(v: Value): Value {
    AC.FieldOr(v, "max_ipc_slots", Int(32))
  }

  function NetworkEnabled(v: Value): Value {
    AC.FieldOr(v, "network_enabled", Bool(false))
  }

  function ProcessEnabled(v: Value): Value {
    AC.FieldOr(v, "process_enabled", Bool(false))
  }

  predicate IsBoundaryText(v: Value) {
    && Prefixes(v).Some? && Schemes(v).Some? && Authorities(v).Some?
    && OptionalList(v, "allowed_network_hosts").Some? && OptionalList(v, "allowed_processes").Some?
    && AreSchemes(Schemes(v).value) && AreHosts(OptionalList(v, "allowed_network_hosts").value)
    && AreChoices(Authorities(v).value, AC.AUTHORITIES, false)
    && AC.IsIntegerIn(ParameterBytes(v), 0, 16_777_216) && AC.IsIntegerIn(IpcSlots(v), 1, 65_536)
    && NetworkEnabled(v).Bool? && ProcessEnabled(v).Bool?
  }

  function ReadBoundaries(v: Value): Result<Boundaries> {
    var keys :- AC.CheckKeys(v, [], BOUNDARY_KEYS);
    if !IsBoundaryText(v) then Failure(ContractInvalid)
    else Success(Boundaries(Authorities(v).value, ParameterBytes(v).n, IpcSlots(v).n, NetworkEnabled(v).truth,
      Schemes(v).value, OptionalList(v, "allowed_network_hosts").value, ProcessEnabled(v).truth,
      OptionalList(v, "allowed_processes").value, Prefixes(v).value))
  }

  function BoundaryValues(b: Boundaries): seq<Value> {
    [Arr(Strs(b.allowedAuthorities)), Int(b.maxParameterBytes), Int(b.maxIpcSlots), Bool(b.networkEnabled),
      Arr(Strs(b.schemes)), Arr(Strs(b.hosts)), Bool(b.processEnabled), Arr(Strs(b.processes)), Arr(Strs(b.filePrefixes))]
  }

  function BoundariesValue(b: Boundaries): Value {
    RecordOf(BOUNDARY_KEYS, BoundaryValues(b))
  }

  /** What the reader has checked of boundaries. */
  predicate AreVocal(b: Boundaries) {
    && AreChoices(b.allowedAuthorities, AC.AUTHORITIES, false) && AreSchemes(b.schemes) && AreHosts(b.hosts)
    && b.maxParameterBytes <= 16_777_216 && 1 <= b.maxIpcSlots <= 65_536
  }

  lemma BoundaryKeysDiffer()
    ensures AreDistinctKeys(BOUNDARY_KEYS) && |BOUNDARY_KEYS| == 9
    ensures BOUNDARY_KEYS[0] == "allowed_authorities" && BOUNDARY_KEYS[1] == "max_parameter_bytes"
    ensures BOUNDARY_KEYS[2] == "max_ipc_slots" && BOUNDARY_KEYS[3] == "network_enabled"
    ensures BOUNDARY_KEYS[4] == "allowed_network_schemes" && BOUNDARY_KEYS[5] == "allowed_network_hosts"
    ensures BOUNDARY_KEYS[6] == "process_enabled" && BOUNDARY_KEYS[7] == "allowed_processes"
    ensures BOUNDARY_KEYS[8] == "file_target_prefixes"
  {
    TaggedTextsDiffer(BOUNDARY_KEYS, ['a', 'm', 'm', 'n', 'a', 'a', 'p', 'a', 'f'], [19, 19, 13, 15, 23, 21, 15, 17, 20]);
  }

  lemma BoundaryFields(b: Boundaries)
    requires AreVocal(b)
    ensures var v := BoundariesValue(b);
      && GC.IsPlain(v, 2) && GC.HasKeys(v, BOUNDARY_KEYS)
      && Field(v, "allowed_authorities") == Arr(Strs(b.allowedAuthorities))
      && Field(v, "max_parameter_bytes") == Int(b.maxParameterBytes) && Field(v, "max_ipc_slots") == Int(b.maxIpcSlots)
      && Field(v, "network_enabled") == Bool(b.networkEnabled) && Field(v, "allowed_network_schemes") == Arr(Strs(b.schemes))
      && Field(v, "allowed_network_hosts") == Arr(Strs(b.hosts)) && Field(v, "process_enabled") == Bool(b.processEnabled)
      && Field(v, "allowed_processes") == Arr(Strs(b.processes)) && Field(v, "file_target_prefixes") == Arr(Strs(b.filePrefixes))
  {
    hide GC.IsPlain, RecordOf, Field, GC.HasKeys, AreDistinctKeys, Strs, StringsOf, AreChoices, AreSchemes, AreHosts;
    var values := BoundaryValues(b);
    ListIsPlain(b.allowedAuthorities, 1);
    ListIsPlain(b.schemes, 1);
    ListIsPlain(b.hosts, 1);
    ListIsPlain(b.processes, 1);
    ListIsPlain(b.filePrefixes, 1);
    forall i | 0 <= i < 9 ensures GC.IsPlain(values[i], 1) {
      if i == 1 || i == 2 || i == 3 || i == 6 {
        GC.ScalarIsPlain(values[i], 1);
      }
    }
    BoundaryKeysDiffer();
    GC.PlainRecord(BOUNDARY_KEYS, values, 1);
    hide BOUNDARY_KEYS;
  }

  /** Where all keys are present, no default is taken. */
  lemma NoDefaults(v: Value)
    requires GC.HasKeys(v, BOUNDARY_KEYS) && WellFormed(v)
    ensures forall i, default :: 0 <= i < |BOUNDARY_KEYS| ==>
      AC.FieldOr(v, BOUNDARY_KEYS[i], default) == Field(v, BOUNDARY_KEYS[i])
  {
    hide Field, AC.FieldOr, WellFormed, BOUNDARY_KEYS;
    forall i, default | 0 <= i < |BOUNDARY_KEYS|
      ensures AC.FieldOr(v, BOUNDARY_KEYS[i], default) == Field(v, BOUNDARY_KEYS[i])
    {
      assert BOUNDARY_KEYS[i] in KeySet(BOUNDARY_KEYS);
      AC.FieldIsFieldOr(v, BOUNDARY_KEYS[i], default);
    }
  }

  lemma OptionalRoundTrip(items: seq<string>)
    ensures var x := Arr(Strs(items));
      (if IsFalsy(x) then Some([]) else StringsOf(x)) == Some(items)
  {
    StringsRoundTrip(items);
    assert items == [] <==> Strs(items) == [];
  }

  /** Boundaries that were written are read back as they were. */
  lemma BoundariesRoundTrip(b: Boundaries)
    requires AreVocal(b)
    ensures ReadBoundaries(BoundariesValue(b)) == Success(b) && GC.IsPlain(BoundariesValue(b), 2)
  {
    hide GC.IsPlain, RecordOf, Field, GC.HasKeys, Strs, StringsOf, BoundariesValue, AreChoices, AreSchemes, AreHosts,
      AC.FieldOr, AC.CheckKeys, AC.AUTHORITIES, KeySet, IsFalsy, WellFormed;
    var v := BoundariesValue(b);
    BoundaryFields(b);
    PlainParts(v, 2);
    NoDefaults(v);
    BoundaryKeysDiffer();
    hide BOUNDARY_KEYS;
    ListIsPlain(b.allowedAuthorities, 1);
    ListIsPlain(b.schemes, 1);
    ListIsPlain(b.filePrefixes, 1);
    OptionalRoundTrip(b.hosts);
    OptionalRoundTrip(b.processes);
    NoRequiredKeys();
    HasKeysPass(v, BOUNDARY_KEYS, [], BOUNDARY_KEYS);
  }

  lemma NoRequiredKeys()
    ensures KeySet([]) <= KeySet(BOUNDARY_KEYS) <= KeySet([]) + KeySet(BOUNDARY_KEYS)
  {
    hide BOUNDARY_KEYS;
  }

  lemma ReadBoundariesAreVocal(v: Value)
    requires ReadBoundaries(v).Success?
    ensures AreVocal(ReadBoundaries(v).value)
  {
    hide Authorities, Schemes, OptionalList, ParameterBytes, IpcSlots, NetworkEnabled, ProcessEnabled, Prefixes, AC.CheckKeys,
      AreChoices, AreSchemes, AreHosts;
  }

  // ---------- what normalisation keeps ----------

  lemma SortedChoices(items: seq<string>, choices: seq<string>, wildcard: bool)
    requires AreChoices(items, choices, wildcard)
    ensures AreChoices(SortStrings(items), choices, wildcard)
  {
    hide SortStrings;
    SameMembers(items);
    var sorted := SortStrings(items);
    forall i | 0 <= i < |sorted| ensures sorted[i] in choices || (wildcard && sorted[i] == "*") {
      assert sorted[i] in items;
    }
  }

  lemma NormalRuleIsVocal(r: Rule)
    requires IsVocal(r)
    ensures IsVocal(NormalRule(r))
  {
    hide SortStrings, IsIdentifier, AreChoices;
    SortedChoices(r.services, AC.SERVICES, true);
    SortedChoices(r.authorities, AC.AUTHORITIES, true);
  }

  lemma NormalBoundariesAreVocal(b: Boundaries)
    requires AreVocal(b)
    ensures AreVocal(NormalBoundaries(b))
  {
    hide SortStrings, AreChoices, IsScheme, IsHost, CleanPrefixes;
    SortedChoices(b.allowedAuthorities, AC.AUTHORITIES, false);
    SameMembers(b.schemes);
    SameMembers(b.hosts);
    var schemes, hosts := SortStrings(b.schemes), SortStrings(b.hosts);
    forall i | 0 <= i < |schemes| ensures IsScheme(schemes[i]) {
      assert schemes[i] in b.schemes;
    }
    forall i | 0 <= i < |hosts| ensures IsHost(hosts[i]) {
      assert hosts[i] in b.hosts;
    }
  }

  lemma NormalRulesAreVocal(p: PolicyModel.Policy)
    requires IsPolicy(p) && forall i :: 0 <= i < |p.rules| ==> IsVocal(p.rules[i])
    ensures forall i :: 0 <= i < |NormalPolicy(p).rules| ==> IsVocal(NormalPolicy(p).rules[i])
  {
    hide NormalPolicy, IsPolicy, IsVocal, NormalRule;
    var rules := NormalPolicy(p).rules;
    forall i | 0 <= i < |rules| ensures IsVocal(rules[i]) {
      assert rules[i] in rules;
      var r := SourceRule(p, rules[i]);
      var j :| 0 <= j < |p.rules| && p.rules[j] == r;
      NormalRuleIsVocal(r);
    }
  }

  // ---------- policies ----------

  const POLICY_REQUIRED: seq<string> := ["schema", "policy_id", "default_effect", "rules"]
  const POLICY_KEYS: seq<string> := ["schema", "policy_id", "default_effect", "boundaries", "rules"]
  const POLICY_KEYS2: seq<string> := ["schema", "policy_id", "default_effect", "boundaries", "rules", "geometry"]

  const POLICY_SCHEMA1: Value := Str("heresy-sec.policy/v1")
  const POLICY_SCHEMA2: Value := Str("heresy-sec.policy/v2")

  /** A policy with what surrounds its rules; geometry is null in version 1. */
  datatype Document = Document(version2: bool, policyId: string, policy: PolicyModel.Policy, geometry: Value)

  function RequiredKeys(version2: bool): seq<string> {
    if version2 then POLICY_REQUIRED + ["geometry"] else POLICY_REQUIRED
  }

  predicate IsPolicyText(v: Value) {
    && Field(v, "rules").Arr? && |Field(v, "rules").items| <= MAX_RULES
    && AC.IsIdentifierValue(Field(v, "policy_id")) && Records.EffectOfName(Field(v, "default_effect")).Some?
  }

  /** `normalize_policy`, up to its writing. */
  function NormalizeDocument(v: Value): Result<Document> {
    var schema := Field(v, "schema");
    if !v.Obj? then Failure(ContractInvalid)
    else if schema != POLICY_SCHEMA1 && schema != POLICY_SCHEMA2 then Failure(SchemaUnsupported)
    else
      var version2 := schema == POLICY_SCHEMA2;
      var keys :- AC.CheckKeys(v, RequiredKeys(version2), ["boundaries"]);
      if !IsPolicyText(v) then Failure(ContractInvalid)
      else
        var rules :- ReadRules(Field(v, "rules").items);
        var boundaries :- ReadBoundaries(AC.FieldOr(v, "boundaries", Obj([])));
        var policy :- Normalize(PolicyModel.Policy(Records.EffectOfName(Field(v, "default_effect")).value, boundaries, rules));
        if version2 then
          var geometry :- GC.NormalizeGeometry(Field(v, "geometry"));
          Success(Document(true, Field(v, "policy_id").s, policy, geometry))
        else Success(Document(false, Field(v, "policy_id").s, policy, Null))
  }

  function DocumentKeys(version2: bool): seq<string> {
    if version2 then POLICY_KEYS2 else POLICY_KEYS
  }

  function DocumentValues(d: Document): (values: seq<Value>)
    ensures |values| == |DocumentKeys(d.version2)|
  {
    [if d.version2 then POLICY_SCHEMA2 else POLICY_SCHEMA1, Str(d.policyId),
      Str(Records.EffectName(d.policy.defaultEffect)), BoundariesValue(d.policy.boundaries),
      Arr(RuleValueList(d.policy.rules))] + if d.version2 then [d.geometry] else []
  }

  function DocumentValue(d: Document): Value {
    RecordOf(DocumentKeys(d.version2), DocumentValues(d))
  }

  /** `normalize_policy` */
  function NormalizePolicy(v: Value): Result<Value> {
    var d :- NormalizeDocument(v);
    Success(DocumentValue(d))
  }

  lemma PolicyKeysDiffer()
    ensures AreDistinctKeys(POLICY_KEYS2) && AreDistinctKeys(POLICY_KEYS)
  {
    TaggedTextsDiffer(POLICY_KEYS2, ['s', 'p', 'd', 'b', 'r', 'g'], [6, 9, 14, 10, 5, 8]);
    TaggedTextsDiffer(POLICY_KEYS, ['s', 'p', 'd', 'b', 'r'], [6, 9, 14, 10, 5]);
  }

  /** What a document must be for its value to be read back. */
  ghost predicate IsDocument(d: Document) {
    && IsIdentifier(d.policyId) && AreVocal(d.policy.boundaries) && |d.policy.rules| <= MAX_RULES
    && (forall i :: 0 <= i < |d.policy.rules| ==> IsVocal(d.policy.rules[i]))
    && if d.version2 then GC.IsPlain(d.geometry, 4) && GC.NormalizeGeometry(d.geometry) == Success(d.geometry)
       else d.geometry == Null
  }

  lemma DocumentFields(d: Document)
    requires IsDocument(d)
    ensures var v := DocumentValue(d);
      && GC.IsPlain(v, 5) && GC.HasKeys(v, DocumentKeys(d.version2))
      && Field(v, "schema") == (if d.version2 then POLICY_SCHEMA2 else POLICY_SCHEMA1)
      && Field(v, "policy_id") == Str(d.policyId)
      && Field(v, "default_effect") == Str(Records.EffectName(d.policy.defaultEffect))
      && Field(v, "boundaries") == BoundariesValue(d.policy.boundaries)
      && Field(v, "rules") == Arr(RuleValueList(d.policy.rules))
      && (d.version2 ==> Field(v, "geometry") == d.geometry)
  {
    hide GC.IsPlain, RecordOf, Field, GC.HasKeys, AreDistinctKeys, BoundariesValue, RuleValueList, Records.EffectName,
      IsIdentifier, AreVocal, IsVocal, GC.NormalizeGeometry;
    var values := DocumentValues(d);
    BoundariesRoundTrip(d.policy.boundaries);
    GC.PlainAtMore(BoundariesValue(d.policy.boundaries), 2, 4);
    RuleListIsPlain(d.policy.rules);
    GC.PlainAtMore(Arr(RuleValueList(d.policy.rules)), 3, 4);
    forall i | 0 <= i < |values| ensures GC.IsPlain(values[i], 4) {
      if i < 3 {
        GC.ScalarIsPlain(values[i], 4);
      }
    }
    PolicyKeysDiffer();
    GC.PlainRecord(DocumentKeys(d.version2), values, 4);
    var keys := DocumentKeys(d.version2);
    assert keys[0] == "schema" && keys[1] == "policy_id" && keys[2] == "default_effect" && keys[3] == "boundaries"
      && keys[4] == "rules";
    assert d.version2 ==> keys[5] == "geometry";
    hide DocumentKeys;
  }

  lemma DocumentKeySets(version2: bool)
    ensures KeySet(RequiredKeys(version2)) <= KeySet(DocumentKeys(version2))
    ensures KeySet(DocumentKeys(version2)) <= KeySet(RequiredKeys(version2)) + KeySet(["boundaries"])
    ensures "boundaries" in DocumentKeys(version2)
  {
    var required, all := RequiredKeys(version2), DocumentKeys(version2);
    assert required[0] == all[0] && required[1] == all[1] && required[2] == all[2] && required[3] == all[4];
    assert version2 ==> required[4] == all[5];
    assert all[3] == "boundaries";
    forall k | k in KeySet(required) ensures k in KeySet(all) {
      var i :| 0 <= i < |required| && required[i] == k;
      assert k == all[if i == 3 then 4 else if i == 4 then 5 else i];
    }
    forall k | k in KeySet(all) ensures k in KeySet(required) + KeySet(["boundaries"]) {
      var i :| 0 <= i < |all| && all[i] == k;
      if i != 3 {
        assert k == required[if i == 4 then 3 else if i == 5 then 4 else i];
      } else {
        assert k == ["boundaries"][0];
      }
    }
  }

  /** The parts of a value that the reader looks at. */
  ghost predicate HasParts(v: Value, d: Document) {
    && v.Obj? && Field(v, "schema") == (if d.version2 then POLICY_SCHEMA2 else POLICY_SCHEMA1)
    && AC.CheckKeys(v, RequiredKeys(d.version2), ["boundaries"]) == Success(())
    && Field(v, "policy_id") == Str(d.policyId) && IsIdentifier(d.policyId)
    && Field(v, "default_effect") == Str(Records.EffectName(d.policy.defaultEffect))
    && Field(v, "rules") == Arr(RuleValueList(d.policy.rules)) && |d.policy.rules| <= MAX_RULES
    && AC.FieldOr(v, "boundaries", Obj([])) == BoundariesValue(d.policy.boundaries)
  }

  lemma PartsRead(v: Value, d: Document)
    requires HasParts(v, d)
    requires ReadRules(RuleValueList(d.policy.rules)) == Success(d.policy.rules)
    requires ReadBoundaries(BoundariesValue(d.policy.boundaries)) == Success(d.policy.boundaries)
    requires Records.EffectOfName(Str(Records.EffectName(d.policy.defaultEffect))) == Some(d.policy.defaultEffect)
    requires |RuleValueList(d.policy.rules)| == |d.policy.rules|
    requires if d.version2 then GC.NormalizeGeometry(Field(v, "geometry")) == Success(d.geometry) else d.geometry == Null
    ensures NormalizeDocument(v)
         == if Normalize(d.policy).Success? then Success(d.(policy := Normalize(d.policy).value)) else Failure(Normalize(d.policy).error)
  {
    hide RecordOf, Field, BoundariesValue, RuleValueList, Records.EffectName, Records.EffectOfName, IsIdentifier,
      GC.NormalizeGeometry, Normalize, ReadRules, ReadBoundaries, RequiredKeys, KeySet, AC.CheckKeys, AC.FieldOr;
    assert POLICY_SCHEMA1 != POLICY_SCHEMA2 by {
      assert POLICY_SCHEMA1.s[19] != POLICY_SCHEMA2.s[19];
    }
    assert PolicyModel.Policy(d.policy.defaultEffect, d.policy.boundaries, d.policy.rules) == d.policy;
  }

  lemma DocumentHasParts(d: Document)
    requires IsDocument(d)
    ensures HasParts(DocumentValue(d), d) && GC.IsPlain(DocumentValue(d), 5)
    ensures d.version2 ==> Field(DocumentValue(d), "geometry") == d.geometry
  {
    DocumentFields(d);
    hide RecordOf, Field, BoundariesValue, RuleValueList, Records.EffectName, AreVocal, IsVocal, GC.NormalizeGeometry,
      DocumentKeys, RequiredKeys, KeySet, AC.CheckKeys, AC.FieldOr, DocumentValue, GC.IsPlain, GC.HasKeys, WellFormed, Sorted,
      IsCanonizable, IsIdentifier;
    var v := DocumentValue(d);
    PlainParts(v, 5);
    DocumentKeySets(d.version2);
    HasKeysPass(v, DocumentKeys(d.version2), RequiredKeys(d.version2), ["boundaries"]);
    BoundariesPresent(v, DocumentKeys(d.version2));
  }

  /** Reading a written document gives its policy to the typed normaliser once more. */
  lemma DocumentReads(d: Document)
    requires IsDocument(d)
    ensures NormalizeDocument(DocumentValue(d))
         == if Normalize(d.policy).Success? then Success(d.(policy := Normalize(d.policy).value)) else Failure(Normalize(d.policy).error)
    ensures GC.IsPlain(DocumentValue(d), 5)
  {
    hide Field, BoundariesValue, RuleValueList, Records.EffectName, Records.EffectOfName, IsIdentifier, AreVocal, IsVocal,
      GC.NormalizeGeometry, Normalize, ReadRules, ReadBoundaries, DocumentValue, GC.IsPlain, HasParts, NormalizeDocument;
    DocumentHasParts(d);
    RulesRoundTrip(d.policy.rules);
    BoundariesRoundTrip(d.policy.boundaries);
    EffectIsKnown(d.policy.defaultEffect);
    PartsRead(DocumentValue(d), d);
  }

  lemma BoundariesPresent(v: Value, keys: seq<string>)
    requires GC.HasKeys(v, keys) && WellFormed(v) && "boundaries" in keys
    ensures AC.FieldOr(v, "boundaries", Obj([])) == Field(v, "boundaries") && v.Obj?
  {
    hide AC.FieldOr, Field, WellFormed;
    AC.FieldIsFieldOr(v, "boundaries", Obj([]));
  }

  /** Where a document comes from: the typed policy that was normalised into it. */
  ghost predicate ComesFrom(d: Document, source: PolicyModel.Policy) {
    && IsPolicy(source) && d.policy == NormalPolicy(source) && AreVocal(source.boundaries)
    && forall i :: 0 <= i < |source.rules| ==> IsVocal(source.rules[i])
  }

  /** The typed policy that is read, before it is normalised. */
  function SourcePolicy(v: Value): PolicyModel.Policy
    requires NormalizeDocument(v).Success?
  {
    hide ReadRules, ReadBoundaries, AC.CheckKeys, AC.FieldOr, Field, Normalize, Records.EffectOfName, GC.NormalizeGeometry;
    PolicyModel.Policy(Records.EffectOfName(Field(v, "default_effect")).value,
      ReadBoundaries(AC.FieldOr(v, "boundaries", Obj([]))).value, ReadRules(Field(v, "rules").items).value)
  }

  lemma DocumentSource(v: Value)
    requires IsNormal(v) && NormalizeDocument(v).Success?
    ensures ComesFrom(NormalizeDocument(v).value, SourcePolicy(v)) && IsDocument(NormalizeDocument(v).value)
  {
    hide Field, AreVocal, IsVocal, ReadRules, ReadBoundaries, AC.CheckKeys, AC.FieldOr, NormalPolicy, IsPolicy,
      Records.EffectOfName, GC.NormalizeGeometry, GC.IsPlain, IsIdentifier, Sorted, WellFormed, IsCanonizable;
    var source := SourcePolicy(v);
    ReadRulesAreVocal(Field(v, "rules").items);
    ReadBoundariesAreVocal(AC.FieldOr(v, "boundaries", Obj([])));
    NormalRulesAreVocal(source);
    NormalPolicyParts(source);
    if Field(v, "schema") == POLICY_SCHEMA2 {
      FieldIsKept(v, "geometry", MAX_JSON_NESTING - 1);
      var g := Field(v, "geometry");
      MoreLevels(g, MAX_JSON_NESTING - 1, MAX_JSON_NESTING);
      GC.GeometryIsStable(g);
    }
  }

  /** The rules and boundaries of a document are normalised. */
  lemma DocumentRules(v: Value)
    requires NormalizeDocument(v).Success?
    ensures IsPolicy(SourcePolicy(v)) && NormalizeDocument(v).value.policy == NormalPolicy(SourcePolicy(v))
  {
    hide Field, ReadRules, ReadBoundaries, AC.CheckKeys, AC.FieldOr, NormalPolicy, IsPolicy, Records.EffectOfName,
      GC.NormalizeGeometry, IsIdentifier;
  }

  lemma NormalPolicyParts(source: PolicyModel.Policy)
    requires IsPolicy(source) && AreVocal(source.boundaries)
    ensures AreVocal(NormalPolicy(source).boundaries) && |NormalPolicy(source).rules| <= MAX_RULES
  {
    hide AreVocal, Sorting.Sort, NormalBoundaries;
    NormalBoundariesAreVocal(source.boundaries);
  }

  /** The geometry of a policy in normal form is in normal form. */
  lemma NormalGeometry(p: Value)
    requires IsNormal(p) && NormalizePolicy(p) == Success(p) && Field(p, "schema") == POLICY_SCHEMA2
    ensures var g := Field(p, "geometry");
      GC.NormalizeGeometry(g) == Success(g) && GC.IsPlain(g, 4)
  {
    hide DocumentValue, GC.NormalizeGeometry, GC.IsPlain, IsNormal, ReadRules, ReadBoundaries, AC.CheckKeys, AC.FieldOr, Field,
      Normalize, Records.EffectOfName, ComesFrom, IsPolicyText, IsIdentifier, AreVocal, IsVocal;
    DocumentSource(p);
    var d := NormalizeDocument(p).value;
    assert d.version2;
    DocumentFields(d);
  }

  /** A normalised policy is accepted JSON in sorted form.  Normalising it again is accepted just when
      the cleaned prefixes of its source are distinct and short enough, and then changes nothing. */
  lemma NormalizingPolicyTwice(v: Value)
    requires IsNormal(v) && NormalizePolicy(v).Success?
    ensures ComesFrom(NormalizeDocument(v).value, SourcePolicy(v))
    ensures var p, prefixes := NormalizePolicy(v).value, SourcePolicy(v).boundaries.filePrefixes;
      && IsNormal(p)
      && NormalizeDocument(p) == (if PrefixesStay(prefixes) then NormalizeDocument(v) else Failure(ContractInvalid))
      && NormalizePolicy(p) == (if PrefixesStay(prefixes) then Success(p) else Failure(ContractInvalid))
  {
    hide NormalizeDocument, SourcePolicy, DocumentValue, IsDocument, PrefixesStay, Normalize, AreVocal, IsVocal;
    DocumentSource(v);
    var d := NormalizeDocument(v).value;
    DocumentReads(d);
    NormalizingTwice(SourcePolicy(v));
    GC.PlainIsNormal(DocumentValue(d), 5);
  }

  // ---------- what is read of a policy ----------

  /** What is under a key, or a default where there is nothing. */
  ghost function GivenOr(v: Value, key: string, default: Value): Value
    requires v.Obj?
  {
    if key in Keys(v.members) then Field(v, key) else default
  }

  lemma GivenIsFieldOr(v: Value, key: string, default: Value)
    requires v.Obj? && WellFormed(v)
    ensures GivenOr(v, key, default) == AC.FieldOr(v, key, default)
  {
    AC.DefaultIsTaken(v, key, default);
  }

  /** A rule is read as it stands, with a wildcard for every list that is missing. */
  lemma RuleKeeps(v: Value)
    requires WellFormed(v) && ReadRule(v).Success?
    ensures v.Obj? && Field(v, "schema") == Str("heresy-sec.rule/v1")
    ensures var r := ReadRule(v).value;
      && Field(v, "rule_id") == Str(r.ruleId) && Field(v, "priority") == Int(r.priority)
      && Field(v, "effect") == Str(match r.effect { case Deny => "DENY" case Review => "REVIEW" case Allow => "ALLOW" })
      && GivenOr(v, "services", Arr([Str("*")])) == Arr(Strs(r.services))
      && GivenOr(v, "operations", Arr([Str("*")])) == Arr(Strs(r.operations))
      && GivenOr(v, "target_prefixes", Arr([Str("*")])) == Arr(Strs(r.targetPrefixes))
      && GivenOr(v, "agent_ids", Arr([Str("*")])) == Arr(Strs(r.agentIds))
      && GivenOr(v, "authorities", Arr([Str("*")])) == Arr(Strs(r.authorities))
  {
    hide WellFormed, Field, StringsOf, Strs, AC.FieldOr, GivenOr, AC.SERVICES, AC.AUTHORITIES, IsIdentifier, AC.CheckKeys;
    AC.KeysNeedObject(v, RULE_REQUIRED, RULE_OPTIONAL);
    ListIsGiven(v, "services");
    ListIsGiven(v, "operations");
    ListIsGiven(v, "target_prefixes");
    ListIsGiven(v, "agent_ids");
    ListIsGiven(v, "authorities");
  }

  lemma ListIsGiven(v: Value, key: string)
    requires v.Obj? && WellFormed(v)
    ensures ListField(v, key).Some? ==> GivenOr(v, key, Arr([Str("*")])) == Arr(Strs(ListField(v, key).value))
  {
    hide WellFormed, StringsOf, Strs, AC.FieldOr, GivenOr;
    GivenIsFieldOr(v, key, Arr([Str("*")]));
    StringsAre(AC.FieldOr(v, key, Arr([Str("*")])));
  }

  /** Boundaries are read as they stand, with the documented defaults; hosts and processes that are
      false, and not only missing, count as none. */
  lemma BoundariesKeep(v: Value)
    requires WellFormed(v) && ReadBoundaries(v).Success?
    ensures v.Obj?
    ensures var b := ReadBoundaries(v).value;
      && GivenOr(v, "allowed_authorities", Arr([Str("SIM_ONLY")])) == Arr(Strs(b.allowedAuthorities))
      && GivenOr(v, "max_parameter_bytes", Int(16384)) == Int(b.maxParameterBytes)
      && GivenOr(v, "max_ipc_slots", Int(32)) == Int(b.maxIpcSlots)
      && GivenOr(v, "network_enabled", Bool(false)) == Bool(b.networkEnabled)
      && GivenOr(v, "allowed_network_schemes", Arr([Str("https")])) == Arr(Strs(b.schemes))
      && GivenOr(v, "process_enabled", Bool(false)) == Bool(b.processEnabled)
      && GivenOr(v, "file_target_prefixes", Arr([Str("workspace/")])) == Arr(Strs(b.filePrefixes))
      && IsGivenSet(GivenOr(v, "allowed_network_hosts", Arr([])), b.hosts)
      && IsGivenSet(GivenOr(v, "allowed_processes", Arr([])), b.processes)
  {
    hide WellFormed, Field, StringsOf, Strs, AC.FieldOr, GivenOr, AC.AUTHORITIES, AreSchemes, AreHosts, AC.CheckKeys,
      AreChoices;
    AC.KeysNeedObject(v, [], BOUNDARY_KEYS);
    GivenIsFieldOr(v, "allowed_authorities", Arr([Str("SIM_ONLY")]));
    GivenIsFieldOr(v, "max_parameter_bytes", Int(16384));
    GivenIsFieldOr(v, "max_ipc_slots", Int(32));
    GivenIsFieldOr(v, "network_enabled", Bool(false));
    GivenIsFieldOr(v, "allowed_network_schemes", Arr([Str("https")]));
    GivenIsFieldOr(v, "allowed_network_hosts", Arr([]));
    GivenIsFieldOr(v, "process_enabled", Bool(false));
    GivenIsFieldOr(v, "allowed_processes", Arr([]));
    GivenIsFieldOr(v, "file_target_prefixes", Arr([Str("workspace/")]));
    StringsAre(AC.FieldOr(v, "allowed_authorities", Arr([Str("SIM_ONLY")])));
    StringsAre(AC.FieldOr(v, "allowed_network_schemes", Arr([Str("https")])));
    StringsAre(AC.FieldOr(v, "file_target_prefixes", Arr([Str("workspace/")])));
    StringsAre(AC.FieldOr(v, "allowed_network_hosts", Arr([])));
    StringsAre(AC.FieldOr(v, "allowed_processes", Arr([])));
  }

  /** The list that is given, or none for null, false, zero and everything empty. */
  ghost predicate IsGivenSet(x: Value, items: seq<string>) {
    if x == Null || x == Bool(false) || x == Int(0) || x == Str("") || x == Arr([]) || x == Obj([]) then items == []
    else x == Arr(Strs(items))
  }

  /** Reading a list of rules reads each of them. */
  lemma {:induction false} ReadRulesMeans(items: seq<Value>)
    requires ReadRules(items).Success?
    ensures forall i :: 0 <= i < |items| ==> ReadRule(items[i]) == Success(ReadRules(items).value[i])
  {
    hide ReadRule;
    if items != [] {
      ReadRulesMeans(items[..|items| - 1]);
    }
  }

  /** The typed policy is what stands in the document: its effect, its boundaries (all defaults if there
      are none) and its rules one by one; identifier, version and geometry are kept beside it. */
  lemma SourceKeeps(v: Value)
    requires IsNormal(v) && NormalizeDocument(v).Success?
    ensures v.Obj? && Field(v, "rules").Arr?
    ensures var d, source := NormalizeDocument(v).value, SourcePolicy(v);
      && Field(v, "schema") == Str(if d.version2 then "heresy-sec.policy/v2" else "heresy-sec.policy/v1")
      && Field(v, "policy_id") == Str(d.policyId)
      && Field(v, "default_effect")
        == Str(match source.defaultEffect { case Deny => "DENY" case Review => "REVIEW" case Allow => "ALLOW" })
      && ReadBoundaries(GivenOr(v, "boundaries", Obj([]))) == Success(source.boundaries)
      && |source.rules| == |Field(v, "rules").items|
      && (forall i :: 0 <= i < |source.rules| ==> ReadRule(Field(v, "rules").items[i]) == Success(source.rules[i]))
      && d.policy == NormalPolicy(source)
      && (d.version2 ==> GC.NormalizeGeometry(Field(v, "geometry")) == Success(d.geometry))
  {
    hide WellFormed, Sorted, IsCanonizable, Field, AC.CheckKeys, AC.FieldOr, GivenOr, ReadRule, ReadBoundaries, Normalize, NormalPolicy,
      IsIdentifier, GC.NormalizeGeometry, IsPolicy;
    GivenIsFieldOr(v, "boundaries", Obj([]));
    ReadRulesMeans(Field(v, "rules").items);
    DocumentRules(v);
  }

  /** And the normal form holds the identifier, the effect and the normalised geometry as they were
      read, and the normalised boundaries and rules as they are written. */
  lemma PolicyKeeps(v: Value)
    requires IsNormal(v) && NormalizePolicy(v).Success?
    ensures v.Obj?
    ensures var p, source := NormalizePolicy(v).value, SourcePolicy(v);
      && Field(p, "schema") == Field(v, "schema") && Field(p, "policy_id") == Field(v, "policy_id")
      && Field(p, "default_effect") == Field(v, "default_effect")
      && Field(p, "boundaries") == BoundariesValue(NormalBoundaries(source.boundaries))
      && Field(p, "rules") == Arr(RuleValueList(NormalPolicy(source).rules))
      && (Field(v, "schema") == Str("heresy-sec.policy/v2") ==>
        GC.NormalizeGeometry(Field(v, "geometry")) == Success(Field(p, "geometry")))
  {
    hide NormalizeDocument, Field, BoundariesValue, RuleValueList, GivenOr, ReadRule, ReadBoundaries, NormalRules, Sorting.Sort,
      GC.NormalizeGeometry, DocumentValue, NormalBoundaries, SourcePolicy, IsDocument, ComesFrom, IsNormal;
    SourceKeeps(v);
    DocumentSource(v);
    DocumentFields(NormalizeDocument(v).value);
  }

  // ---------- what is accepted ----------

  ghost predicate IsList(x: Value) {
    exists items :: x == Arr(Strs(items))
  }

  ghost predicate IsListOf(x: Value, choices: set<string>) {
    exists items :: x == Arr(Strs(items)) && forall s :: s in items ==> s in choices
  }

  ghost predicate IsBetween(x: Value, minimum: int, maximum: int) {
    exists n :: x == Int(n) && minimum <= n <= maximum
  }

  lemma ListMeans(x: Value)
    ensures StringsOf(x).Some? <==> IsList(x)
  {
    StringsAre(x);
    if items :| x == Arr(Strs(items)) {
      StringsRoundTrip(items);
    }
  }

  lemma ListOfMeans(x: Value, choices: seq<string>, wildcard: bool)
    ensures (StringsOf(x).Some? && AreChoices(StringsOf(x).value, choices, wildcard)) <==>
      IsListOf(x, (set c | c in choices) + if wildcard then {"*"} else {})
  {
    StringsAre(x);
    if items :| x == Arr(Strs(items)) && forall s :: s in items ==> s in (set c | c in choices) + if wildcard then {"*"} else {} {
      StringsRoundTrip(items);
      forall i | 0 <= i < |items| ensures items[i] in choices || (wildcard && items[i] == "*") {
        assert items[i] in items;
      }
    }
    if StringsOf(x).Some? && AreChoices(StringsOf(x).value, choices, wildcard) {
      var items := StringsOf(x).value;
      assert x == Arr(Strs(items));
      forall s | s in items ensures s in (set c | c in choices) + if wildcard then {"*"} else {} {
        var i :| 0 <= i < |items| && items[i] == s;
      }
    }
  }

  lemma BetweenMeans(x: Value, minimum: int, maximum: int)
    ensures AC.IsIntegerIn(x, minimum, maximum) <==> IsBetween(x, minimum, maximum)
  {
  }

  lemma EffectMeans(x: Value)
    ensures Records.EffectOfName(x).Some? <==> x in {Str("ALLOW"), Str("DENY"), Str("REVIEW")}
  {
  }

  /** Which rules are read. */
  lemma RuleMeans(v: Value)
    requires WellFormed(v)
    ensures ReadRule(v).Success? <==>
      (&& v.Obj? && {"schema", "rule_id", "priority", "effect"} <= Keys(v.members)
      && Keys(v.members) <= {"schema", "rule_id", "priority", "effect", "services", "operations", "target_prefixes",
        "agent_ids", "authorities"}
      && Field(v, "schema") == Str("heresy-sec.rule/v1")
      && AC.IsName(Field(v, "rule_id")) && IsBetween(Field(v, "priority"), -1000000, 1000000)
      && Field(v, "effect") in {Str("ALLOW"), Str("DENY"), Str("REVIEW")}
      && IsListOf(GivenOr(v, "services", Arr([Str("*")])),
        {"file", "network", "process", "ipc", "model", "tool", "system", "*"})
      && IsList(GivenOr(v, "operations", Arr([Str("*")]))) && IsList(GivenOr(v, "target_prefixes", Arr([Str("*")])))
      && IsList(GivenOr(v, "agent_ids", Arr([Str("*")])))
      && IsListOf(GivenOr(v, "authorities", Arr([Str("*")])),
        {"SIM_ONLY", "READ_ONLY_EXTERNAL", "WORKSPACE_WRITE", "NETWORK", "CONTROLLED_EXECUTION", "*"}))
  {
    hide WellFormed, Field, Keys, KeySet, StringsOf, Strs, AC.FieldOr, GivenOr, AreChoices, IsList, IsListOf, IsBetween,
      AC.IsIntegerIn, AC.IsName, AC.IsIdentifierValue, Records.EffectOfName, AC.SERVICES, AC.AUTHORITIES;
    RuleKeySetsAre();
    if v.Obj? {
      GivenIsFieldOr(v, "services", Arr([Str("*")]));
      GivenIsFieldOr(v, "operations", Arr([Str("*")]));
      GivenIsFieldOr(v, "target_prefixes", Arr([Str("*")]));
      GivenIsFieldOr(v, "agent_ids", Arr([Str("*")]));
      GivenIsFieldOr(v, "authorities", Arr([Str("*")]));
      ListMeans(GivenOr(v, "operations", Arr([Str("*")])));
      ListMeans(GivenOr(v, "target_prefixes", Arr([Str("*")])));
      ListMeans(GivenOr(v, "agent_ids", Arr([Str("*")])));
      ListOfMeans(GivenOr(v, "services", Arr([Str("*")])), AC.SERVICES, true);
      ListOfMeans(GivenOr(v, "authorities", Arr([Str("*")])), AC.AUTHORITIES, true);
    }
    ChoicesAre();
    AC.NameMeans(Field(v, "rule_id"));
    BetweenMeans(Field(v, "priority"), -1000000, 1000000);
    EffectMeans(Field(v, "effect"));
  }

  lemma RuleKeySetsAre()
    ensures KeySet(RULE_REQUIRED) == {"schema", "rule_id", "priority", "effect"}
    ensures KeySet(RULE_REQUIRED) + KeySet(RULE_OPTIONAL) == {"schema", "rule_id", "priority", "effect", "services",
      "operations", "target_prefixes", "agent_ids", "authorities"}
  {
  }

  lemma ChoicesAre()
    ensures (set c | c in AC.SERVICES) + {"*"} == {"file", "network", "process", "ipc", "model", "tool", "system", "*"}
    ensures (set c | c in AC.AUTHORITIES)
      == {"SIM_ONLY", "READ_ONLY_EXTERNAL", "WORKSPACE_WRITE", "NETWORK", "CONTROLLED_EXECUTION"}
    ensures (set c | c in AC.AUTHORITIES) + {"*"}
      == {"SIM_ONLY", "READ_ONLY_EXTERNAL", "WORKSPACE_WRITE", "NETWORK", "CONTROLLED_EXECUTION", "*"}
  {
    forall c
      ensures c in AC.SERVICES <==> c in {"file", "network", "process", "ipc", "model", "tool", "system"}
    {
      ServiceIs(c);
    }
    forall c
      ensures c in AC.AUTHORITIES <==>
        c in {"SIM_ONLY", "READ_ONLY_EXTERNAL", "WORKSPACE_WRITE", "NETWORK", "CONTROLLED_EXECUTION"}
    {
      AuthorityIs(c);
    }
    hide AC.SERVICES, AC.AUTHORITIES;
  }

  lemma ServiceIs(c: string)
    ensures c in AC.SERVICES <==> c in {"file", "network", "process", "ipc", "model", "tool", "system"}
  {
  }

  lemma AuthorityIs(c: string)
    ensures c in AC.AUTHORITIES <==>
      c in {"SIM_ONLY", "READ_ONLY_EXTERNAL", "WORKSPACE_WRITE", "NETWORK", "CONTROLLED_EXECUTION"}
  {
  }

  /** A lower-case word of letters, digits and "+.-" that starts with a letter. */
  ghost predicate IsSchemeName(s: string) {
    && 1 <= |s| <= 64 && 'a' <= s[0] <= 'z'
    && forall c :: c in s ==> 'a' <= c <= 'z' || '0' <= c <= '9' || c in "+.-"
  }

  /** No upper-case letter, no slash, at sign or NUL, and no dot at either end. */
  ghost predicate IsHostName(s: string) {
    && (forall c :: c in s ==> !('A' <= c <= 'Z') && c != '/' && c != '@' && c as int != 0)
    && (s == "" || (s[0] != '.' && s[|s| - 1] != '.'))
  }

  lemma SchemeMeans(s: string)
    ensures IsScheme(s) <==> IsSchemeName(s)
  {
    if IsSchemeName(s) {
      forall i | 0 <= i < |s| ensures IsSchemeChar(s[i]) {
        assert s[i] in s;
      }
    }
  }

  lemma HostMeans(s: string)
    ensures IsHost(s) <==> IsHostName(s)
  {
    if IsHostName(s) {
      forall i | 0 <= i < |s| ensures !('A' <= s[i] <= 'Z') {
        assert s[i] in s;
      }
    }
  }

  ghost predicate AreSchemeNames(x: Value) {
    exists items :: x == Arr(Strs(items)) && forall s :: s in items ==> IsSchemeName(s)
  }

  lemma SchemesMean(x: Value)
    ensures (StringsOf(x).Some? && AreSchemes(StringsOf(x).value)) <==> AreSchemeNames(x)
  {
    hide IsScheme, IsSchemeName;
    forall s ensures IsScheme(s) <==> IsSchemeName(s) {
      SchemeMeans(s);
    }
    StringsAre(x);
    if items :| x == Arr(Strs(items)) && forall s :: s in items ==> IsSchemeName(s) {
      StringsRoundTrip(items);
    }
  }

  /** Nothing, in any of its forms, or a list of strings. */
  ghost predicate IsOptionalList(x: Value) {
    exists items :: IsGivenSet(x, items)
  }

  ghost predicate AreHostNames(x: Value) {
    exists items :: IsGivenSet(x, items) && forall s :: s in items ==> IsHostName(s)
  }

  lemma OptionalListMeans(v: Value, key: string)
    ensures OptionalList(v, key).Some? <==> IsOptionalList(AC.FieldOr(v, key, Arr([])))
    ensures (OptionalList(v, key).Some? && AreHosts(OptionalList(v, key).value)) <==>
      AreHostNames(AC.FieldOr(v, key, Arr([])))
  {
    hide IsHost, IsHostName, AC.FieldOr, StringsOf;
    forall s ensures IsHost(s) <==> IsHostName(s) {
      HostMeans(s);
    }
    var x := AC.FieldOr(v, key, Arr([]));
    StringsAre(x);
    if OptionalList(v, key).Some? {
      assert IsGivenSet(x, OptionalList(v, key).value);
    }
    forall items | IsGivenSet(x, items) ensures OptionalList(v, key) == Some(items) {
      StringsRoundTrip(items);
    }
  }

  /** Which boundaries are read. */
  lemma BoundariesMean(v: Value)
    requires WellFormed(v)
    ensures ReadBoundaries(v).Success? <==>
      (&& v.Obj? && Keys(v.members) <= {"allowed_authorities", "max_parameter_bytes", "max_ipc_slots", "network_enabled",
        "allowed_network_schemes", "allowed_network_hosts", "process_enabled", "allowed_processes", "file_target_prefixes"}
      && IsListOf(GivenOr(v, "allowed_authorities", Arr([Str("SIM_ONLY")])),
        {"SIM_ONLY", "READ_ONLY_EXTERNAL", "WORKSPACE_WRITE", "NETWORK", "CONTROLLED_EXECUTION"})
      && IsBetween(GivenOr(v, "max_parameter_bytes", Int(16384)), 0, 16777216)
      && IsBetween(GivenOr(v, "max_ipc_slots", Int(32)), 1, 65536)
      && GivenOr(v, "network_enabled", Bool(false)).Bool? && GivenOr(v, "process_enabled", Bool(false)).Bool?
      && AreSchemeNames(GivenOr(v, "allowed_network_schemes", Arr([Str("https")])))
      && AreHostNames(GivenOr(v, "allowed_network_hosts", Arr([])))
      && IsOptionalList(GivenOr(v, "allowed_processes", Arr([])))
      && IsList(GivenOr(v, "file_target_prefixes", Arr([Str("workspace/")]))))
  {
    hide WellFormed, Field, Keys, KeySet, StringsOf, Strs, AC.FieldOr, GivenOr, AreChoices, IsList, IsListOf, IsBetween,
      AC.IsIntegerIn, AC.AUTHORITIES, AreSchemes, AreHosts, AreSchemeNames, AreHostNames, IsOptionalList, OptionalList;
    BoundaryKeySetsAre();
    BoundaryTextMeans(v);
    hide IsBoundaryText;
    if v.Obj? {
      GivenIsFieldOr(v, "allowed_authorities", Arr([Str("SIM_ONLY")]));
      GivenIsFieldOr(v, "max_parameter_bytes", Int(16384));
      GivenIsFieldOr(v, "max_ipc_slots", Int(32));
      GivenIsFieldOr(v, "network_enabled", Bool(false));
      GivenIsFieldOr(v, "allowed_network_schemes", Arr([Str("https")]));
      GivenIsFieldOr(v, "allowed_network_hosts", Arr([]));
      GivenIsFieldOr(v, "process_enabled", Bool(false));
      GivenIsFieldOr(v, "allowed_processes", Arr([]));
      GivenIsFieldOr(v, "file_target_prefixes", Arr([Str("workspace/")]));
    }
  }

  lemma BoundaryTextMeans(v: Value)
    ensures IsBoundaryText(v) <==>
      (&& IsListOf(AC.FieldOr(v, "allowed_authorities", Arr([Str("SIM_ONLY")])),
        {"SIM_ONLY", "READ_ONLY_EXTERNAL", "WORKSPACE_WRITE", "NETWORK", "CONTROLLED_EXECUTION"})
      && IsBetween(AC.FieldOr(v, "max_parameter_bytes", Int(16384)), 0, 16777216)
      && IsBetween(AC.FieldOr(v, "max_ipc_slots", Int(32)), 1, 65536)
      && AC.FieldOr(v, "network_enabled", Bool(false)).Bool? && AC.FieldOr(v, "process_enabled", Bool(false)).Bool?
      && AreSchemeNames(AC.FieldOr(v, "allowed_network_schemes", Arr([Str("https")])))
      && AreHostNames(AC.FieldOr(v, "allowed_network_hosts", Arr([])))
      && IsOptionalList(AC.FieldOr(v, "allowed_processes", Arr([])))
      && IsList(AC.FieldOr(v, "file_target_prefixes", Arr([Str("workspace/")]))))
  {
    hide Field, StringsOf, Strs, AC.FieldOr, AreChoices, IsList, IsListOf, IsBetween,
      AC.IsIntegerIn, AC.AUTHORITIES, AreSchemes, AreHosts, AreSchemeNames, AreHostNames, IsOptionalList, OptionalList;
    ListOfMeans(AC.FieldOr(v, "allowed_authorities", Arr([Str("SIM_ONLY")])), AC.AUTHORITIES, false);
    BetweenMeans(AC.FieldOr(v, "max_parameter_bytes", Int(16384)), 0, 16777216);
    BetweenMeans(AC.FieldOr(v, "max_ipc_slots", Int(32)), 1, 65536);
    SchemesMean(AC.FieldOr(v, "allowed_network_schemes", Arr([Str("https")])));
    OptionalListMeans(v, "allowed_network_hosts");
    OptionalListMeans(v, "allowed_processes");
    ListMeans(AC.FieldOr(v, "file_target_prefixes", Arr([Str("workspace/")])));
    ChoicesAre();
    assert (set c | c in AC.AUTHORITIES) + {}
      == {"SIM_ONLY", "READ_ONLY_EXTERNAL", "WORKSPACE_WRITE", "NETWORK", "CONTROLLED_EXECUTION"};
  }

  lemma BoundaryKeySetsAre()
    ensures KeySet([]) == {}
    ensures KeySet([]) + KeySet(BOUNDARY_KEYS) == {"allowed_authorities", "max_parameter_bytes", "max_ipc_slots",
      "network_enabled", "allowed_network_schemes", "allowed_network_hosts", "process_enabled", "allowed_processes",
      "file_target_prefixes"}
  {
  }

  /** Which policies are accepted: documents of either version whose rules and boundaries are read and
      make a legal policy, with a geometry in the second version and none in the first. */
  lemma PolicyMeans(v: Value)
    requires IsNormal(v)
    ensures NormalizePolicy(v).Success? <==>
      (&& v.Obj? && (Field(v, "schema") == Str("heresy-sec.policy/v1") || Field(v, "schema") == Str("heresy-sec.policy/v2"))
      && {"schema", "policy_id", "default_effect", "rules"} <= Keys(v.members)
      && Keys(v.members) <= {"schema", "policy_id", "default_effect", "boundaries", "rules", "geometry"}
      && ("geometry" in Keys(v.members) <==> Field(v, "schema") == Str("heresy-sec.policy/v2"))
      && AC.IsName(Field(v, "policy_id")) && Field(v, "default_effect") in {Str("ALLOW"), Str("DENY"), Str("REVIEW")}
      && (exists rules, boundaries :: AreRead(v, rules, boundaries) && IsPolicy(PolicyModel.Policy(Allow, boundaries, rules)))
      && ("geometry" in Keys(v.members) ==> GC.NormalizeGeometry(Field(v, "geometry")).Success?))
  {
    hide WellFormed, Sorted, IsCanonizable, Field, Keys, KeySet, AC.FieldOr, GivenOr, ReadRule, ReadBoundaries, NormalPolicy,
      IsIdentifier, GC.NormalizeGeometry, IsPolicy, Records.EffectOfName, AC.IsName, AC.IsIdentifierValue, DocumentValue,
      AreRead, NormalizeDocument, ReadRules, AC.CheckKeys, RequiredKeys;
    DocumentMeans(v);
    if v.Obj? {
      PolicyKeysMean(v);
      PartsMean(v);
    }
    AC.NameMeans(Field(v, "policy_id"));
    EffectMeans(Field(v, "default_effect"));
  }

  lemma DocumentMeans(v: Value)
    ensures NormalizeDocument(v).Success? <==>
      (&& v.Obj? && (Field(v, "schema") == POLICY_SCHEMA1 || Field(v, "schema") == POLICY_SCHEMA2)
      && AC.CheckKeys(v, RequiredKeys(Field(v, "schema") == POLICY_SCHEMA2), ["boundaries"]).Success?
      && AC.IsIdentifierValue(Field(v, "policy_id")) && Records.EffectOfName(Field(v, "default_effect")).Some?
      && PartsAreLegal(v)
      && (Field(v, "schema") == POLICY_SCHEMA2 ==> GC.NormalizeGeometry(Field(v, "geometry")).Success?))
  {
    hide Field, AC.FieldOr, ReadBoundaries, NormalPolicy, GC.NormalizeGeometry, Records.EffectOfName, AC.IsIdentifierValue,
      ReadRules, AC.CheckKeys, RequiredKeys, HasDistinctIds, IsRule, IsBoundaries;
  }

  ghost predicate PartsAreLegal(v: Value) {
    && Field(v, "rules").Arr? && ReadRules(Field(v, "rules").items).Success?
    && ReadBoundaries(AC.FieldOr(v, "boundaries", Obj([]))).Success?
    && IsPolicy(PolicyModel.Policy(Allow, ReadBoundaries(AC.FieldOr(v, "boundaries", Obj([]))).value,
      ReadRules(Field(v, "rules").items).value))
  }

  lemma PartsMean(v: Value)
    requires v.Obj? && WellFormed(v)
    ensures PartsAreLegal(v) <==>
      exists rules, boundaries :: AreRead(v, rules, boundaries) && IsPolicy(PolicyModel.Policy(Allow, boundaries, rules))
  {
    hide WellFormed, Field, AC.FieldOr, GivenOr, ReadRule, ReadBoundaries, IsPolicy;
    GivenIsFieldOr(v, "boundaries", Obj([]));
    if PartsAreLegal(v) {
      var rules, boundaries := ReadRules(Field(v, "rules").items).value, ReadBoundaries(AC.FieldOr(v, "boundaries", Obj([]))).value;
      ReadRulesMeans(Field(v, "rules").items);
      assert AreRead(v, rules, boundaries);
    }
    if rules, boundaries :| AreRead(v, rules, boundaries) && IsPolicy(PolicyModel.Policy(Allow, boundaries, rules)) {
      ReadRulesAll(Field(v, "rules").items, rules);
    }
  }

  lemma {:induction false} ReadRulesAll(items: seq<Value>, rules: seq<Rule>)
    requires |items| == |rules| && forall i :: 0 <= i < |rules| ==> ReadRule(items[i]) == Success(rules[i])
    ensures ReadRules(items) == Success(rules)
  {
    hide ReadRule;
    if items != [] {
      var k := |items| - 1;
      ReadRulesAll(items[..k], rules[..k]);
      assert rules == rules[..k] + [rules[k]];
    }
  }

  lemma PolicyKeysMean(v: Value)
    requires v.Obj?
    ensures AC.CheckKeys(v, RequiredKeys(false), ["boundaries"]).Success? <==>
      ({"schema", "policy_id", "default_effect", "rules"} <= Keys(v.members)
      && Keys(v.members) <= {"schema", "policy_id", "default_effect", "boundaries", "rules"})
    ensures AC.CheckKeys(v, RequiredKeys(true), ["boundaries"]).Success? <==>
      ({"schema", "policy_id", "default_effect", "rules", "geometry"} <= Keys(v.members)
      && Keys(v.members) <= {"schema", "policy_id", "default_effect", "boundaries", "rules", "geometry"})
  {
    assert KeySet(POLICY_REQUIRED) == {"schema", "policy_id", "default_effect", "rules"};
    assert KeySet(RequiredKeys(true)) == KeySet(POLICY_REQUIRED) + {"geometry"};
    assert KeySet(["boundaries"]) == {"boundaries"};
    hide Keys;
  }

  ghost predicate AreRead(v: Value, rules: seq<Rule>, boundaries: Boundaries)
    requires v.Obj?
  {
    && Field(v, "rules").Arr? && |Field(v, "rules").items| == |rules|
    && (forall i :: 0 <= i < |rules| ==> ReadRule(Field(v, "rules").items[i]) == Success(rules[i]))
    && ReadBoundaries(GivenOr(v, "boundaries", Obj([]))) == Success(boundaries)
  }
}
