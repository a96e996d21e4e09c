/** Actions as they are read: `normalize_producer` and `normalize_action` (contracts.py).

    Arguments are dictionaries in sorted form, and so are the results. */
module ActionContract {
  import opened Outcomes
  import opened Json
  import opened CanonicalJson
  import opened Fields
  import Policy
  import Actions

  // ---------- single fields ----------

  /** `_keys` */
  function CheckKeys(v: Value, required: seq<string>, optional: seq<string>): Result<()> {
    if !v.Obj? then Failure(ContractInvalid)
    else if !(KeySet(required) <= Keys(v.members)) then Failure(ContractFieldMissing)
    else if !(Keys(v.members) <= KeySet(required) + KeySet(optional)) then Failure(ContractFieldUnexpected)
    else Success(())
  }

  /** `dict.get` with a default. */
  function FieldOr(v: Value, key: string, default: Value): Value {
    if v.Obj? && Get(v.members, key).Some? then Field(v, key) else default
  }

  predicate IsText(v: Value, maximum: nat) {
    v.Str? && 1 <= |v.s| <= maximum
  }

  predicate IsNullableText(v: Value, maximum: nat) {
    v == Null || IsText(v, maximum)
  }

  predicate IsIdentifierValue(v: Value) {
    v.Str? && Policy.IsIdentifier(v.s)
  }

  predicate IsNullableDigest(v: Value) {
    v == Null || IsDigestValue(v)
  }

  predicate IsIntegerIn(v: Value, minimum: int, maximum: int) {
    v.Int? && minimum <= v.n <= maximum
  }

  predicate IsOneOf(v: Value, choices: seq<string>) {
    v.Str? && v.s in choices
  }

  // ---------- producers ----------

  const MODEL_KINDS: seq<string> := ["OPEN_WEIGHT", "CLOSED", "NO_MODEL", "UNKNOWN"]

  const PRODUCER_REQUIRED: seq<string> := ["schema", "agent_id", "model_kind"]
  const PRODUCER_OPTIONAL: seq<string> := ["workload_id", "model_id", "model_digest", "harness_id", "harness_digest"]
  const PRODUCER_KEYS: seq<string> := ["schema", "agent_id", "workload_id", "model_id", "model_kind", "model_digest",
    "harness_id", "harness_digest"]

  const PRODUCER_SCHEMA: Value := Str("heresy-sec.producer/v1")

  predicate IsProducer(v: Value) {
    && IsOneOf(Field(v, "model_kind"), MODEL_KINDS)
    && IsNullableText(Field(v, "model_id"), 256) && IsNullableDigest(Field(v, "model_digest"))
    && (Field(v, "model_kind") == Str("NO_MODEL") ==> Field(v, "model_id") == Null && Field(v, "model_digest") == Null)
    && IsIdentifierValue(Field(v, "agent_id")) && IsNullableText(Field(v, "workload_id"), 512)
    && IsNullableText(Field(v, "harness_id"), 256) && IsNullableDigest(Field(v, "harness_digest"))
  }

  /** The fields that are kept, with null for those that are missing. */
  function FieldsOf(v: Value, keys: seq<string>): (values: seq<Value>)
    ensures |values| == |keys| && forall i :: 0 <= i < |keys| ==> values[i] == Field(v, keys[i])
  {
    seq(|keys|, i requires 0 <= i < |keys| => Field(v, keys[i]))
  }

  function NormalizeProducer(v: Value): Result<Value> {
    var keys :- CheckKeys(v, PRODUCER_REQUIRED, PRODUCER_OPTIONAL);
    if Field(v, "schema") != PRODUCER_SCHEMA then Failure(SchemaUnsupported)
    else if !IsProducer(v) then Failure(ContractInvalid)
    else Success(RecordOf(PRODUCER_KEYS, FieldsOf(v, PRODUCER_KEYS)))
  }

  // ---------- actions ----------

  const SERVICES: seq<string> := ["file", "network", "process", "ipc", "model", "tool", "system"]
  const AUTHORITIES: seq<string> :=
    ["SIM_ONLY", "READ_ONLY_EXTERNAL", "WORKSPACE_WRITE", "NETWORK", "CONTROLLED_EXECUTION"]

  const ACTION_REQUIRED: seq<string> := ["schema", "action_id", "sequence", "producer", "service", "operation", "target"]
  const ACTION_OPTIONAL: seq<string> := ["observed_at", "parameters", "requested_authority", "slot", "context"]
  const ACTION_KEYS: seq<string> := ["schema", "action_id", "sequence", "producer", "observed_at", "service", "operation",
    "target", "parameters", "requested_authority", "slot", "context"]

  const ACTION_SCHEMA: Value := Str("heresy-sec.action/v1")

  predicate IsOperationChar(c: char) {
    'a' <= c <= 'z' || '0' <= c <= '9' || c == '.' || c == '_' || c == '-'
  }

  /** `OPERATION_RE` */
  predicate IsOperation(v: Value) {
    IsText(v, 64) && 'a' <= v.s[0] <= 'z' && forall i :: 0 <= i < |v.s| ==> IsOperationChar(v.s[i])
  }

  predicate IsAction(v: Value) {
    && IsOperation(Field(v, "operation"))
    && (Field(v, "slot") == Null || IsIntegerIn(Field(v, "slot"), 0, 0x7FFF_FFFF))
    && FieldOr(v, "parameters", Obj([])).Obj? && FieldOr(v, "context", Obj([])).Obj?
    && IsIdentifierValue(Field(v, "action_id")) && IsIntegerIn(Field(v, "sequence"), 0, MAX_SAFE_INTEGER)
    && IsNullableText(Field(v, "observed_at"), 64) && IsOneOf(Field(v, "service"), SERVICES)
    && IsText(Field(v, "target"), 2048)
    && IsOneOf(FieldOr(v, "requested_authority", Str("SIM_ONLY")), AUTHORITIES)
  }

  /** `canonical_clone` */
  function Clone(v: Value): Result<Value> {
    var text :- Canonical(v);
    Parse(text)
  }

  function ActionValues(v: Value, producer: Value, parameters: Value, context: Value): (values: seq<Value>)
    ensures |values| == |ACTION_KEYS|
  {
    [ACTION_SCHEMA, Field(v, "action_id"), Field(v, "sequence"), producer, Field(v, "observed_at"), Field(v, "service"),
      Field(v, "operation"), Field(v, "target"), parameters, FieldOr(v, "requested_authority", Str("SIM_ONLY")),
      Field(v, "slot"), context]
  }

  function NormalizeAction(v: Value): Result<Value> {
    var keys :- CheckKeys(v, ACTION_REQUIRED, ACTION_OPTIONAL);
    if Field(v, "schema") != ACTION_SCHEMA then Failure(SchemaUnsupported)
    else if !IsAction(v) then Failure(ContractInvalid)
    else
      var producer :- NormalizeProducer(Field(v, "producer"));
      var parameters :- Clone(FieldOr(v, "parameters", Obj([])));
      var context :- Clone(FieldOr(v, "context", Obj([])));
      Success(RecordOf(ACTION_KEYS, ActionValues(v, producer, parameters, context)))
  }

  // ---------- normal forms ----------

  lemma ProducerKeysDiffer()
    ensures AreDistinctKeys(PRODUCER_KEYS)
  {
    TaggedTextsDiffer(PRODUCER_KEYS, ['s', 'a', 'w', 'm', 'm', 'm', 'h', 'h'], [6, 8, 11, 8, 10, 12, 10, 14]);
  }

  lemma ActionKeysDiffer()
    ensures AreDistinctKeys(ACTION_KEYS)
  {
    TaggedTextsDiffer(ACTION_KEYS, ['s', 'a', 's', 'p', 'o', 's', 'o', 't', 'p', 'r', 's', 'c'],
      [6, 9, 8, 8, 11, 7, 9, 6, 10, 19, 4, 7]);
  }

  /** Dictionaries with exactly the kept keys pass the check of keys. */
  lemma KeptKeysPass(v: Value, kept: seq<string>, required: seq<string>, optional: seq<string>)
    requires v.Obj? && Keys(v.members) == KeySet(kept)
    requires KeySet(required) <= KeySet(kept) <= KeySet(required) + KeySet(optional)
    ensures CheckKeys(v, required, optional) == Success(())
  {
  }

  lemma ProducerKeySets()
    ensures KeySet(PRODUCER_REQUIRED) <= KeySet(PRODUCER_KEYS) <= KeySet(PRODUCER_REQUIRED) + KeySet(PRODUCER_OPTIONAL)
  {
  }

  lemma ActionKeySets()
    ensures KeySet(ACTION_REQUIRED) <= KeySet(ACTION_KEYS) <= KeySet(ACTION_REQUIRED) + KeySet(ACTION_OPTIONAL)
  {
  }

  lemma ProducerTexts(v: Value, i: nat)
    requires Field(v, "schema") == PRODUCER_SCHEMA && IsProducer(v) && i < |PRODUCER_KEYS|
    ensures var x := Field(v, PRODUCER_KEYS[i]);
      x.Str? || x == Null
  {
    hide Field, Policy.IsIdentifier, IsDigest;
    assert i == 0 || i == 1 || i == 2 || i == 3 || i == 4 || i == 5 || i == 6 || i == 7;
  }

  lemma SameProducer(v: Value, p: Value)
    requires forall i :: 0 <= i < |PRODUCER_KEYS| ==> Field(p, PRODUCER_KEYS[i]) == Field(v, PRODUCER_KEYS[i])
    ensures IsProducer(p) == IsProducer(v) && Field(p, "schema") == Field(v, "schema")
    ensures FieldsOf(p, PRODUCER_KEYS) == FieldsOf(v, PRODUCER_KEYS)
  {
    hide Field, Policy.IsIdentifier, IsDigest;
    assert PRODUCER_KEYS[0] == "schema" && PRODUCER_KEYS[1] == "agent_id" && PRODUCER_KEYS[2] == "workload_id";
    assert PRODUCER_KEYS[3] == "model_id" && PRODUCER_KEYS[4] == "model_kind" && PRODUCER_KEYS[5] == "model_digest";
    assert PRODUCER_KEYS[6] == "harness_id" && PRODUCER_KEYS[7] == "harness_digest";
  }

  /** A normalised producer is flat, and its own normal form. */
  lemma ProducerIsStable(v: Value)
    requires NormalizeProducer(v).Success?
    ensures var p := NormalizeProducer(v).value;
      && NormalizeProducer(p) == Success(p)
      && WellFormed(p) && IsCanonizable(p, 1) && Sorted(p) == p
  {
    hide IsProducer, RecordOf, CheckKeys, KeySet, Sorted, WellFormed, IsCanonizable, AreDistinctKeys;
    var values := FieldsOf(v, PRODUCER_KEYS);
    var p := RecordOf(PRODUCER_KEYS, values);
    ProducerKeysDiffer();
    forall i | 0 <= i < |values|
      ensures Sorted(values[i]) == values[i] && WellFormed(values[i]) && IsCanonizable(values[i], 0)
    {
      ProducerTexts(v, i);
      TextIsPlain(values[i]);
    }
    RecordFields(PRODUCER_KEYS, values);
    RecordIsNormal(PRODUCER_KEYS, values, 1);
    SameProducer(v, p);
    ProducerKeySets();
    KeptKeysPass(p, PRODUCER_KEYS, PRODUCER_REQUIRED, PRODUCER_OPTIONAL);
  }

  lemma TextIsPlain(x: Value)
    requires x.Str? || x == Null || (x.Int? && -MAX_SAFE_INTEGER <= x.n <= MAX_SAFE_INTEGER) || x.Bool?
    ensures Sorted(x) == x && WellFormed(x) && forall levels :: IsCanonizable(x, levels)
  {
  }

  lemma CloneIsSame(x: Value)
    requires WellFormed(x) && IsCanonizable(x, MAX_JSON_NESTING) && Sorted(x) == x
    ensures Clone(x) == Success(x)
  {
    hide WellFormed, IsCanonizable, Sorted, Parse, CanonicalText;
    CanonicalAccepts(x);
    CanonicalRoundTrip(x);
  }

  /** The dictionary under a key, or an empty one. */
  lemma DictionaryIsKept(v: Value, key: string)
    requires v.Obj? && IsNormal(v)
    ensures var x := FieldOr(v, key, Obj([]));
      WellFormed(x) && IsCanonizable(x, MAX_JSON_NESTING - 1) && Sorted(x) == x && Clone(x) == Success(x)
  {
    hide Sorted, Field, Clone;
    var x := FieldOr(v, key, Obj([]));
    if Get(v.members, key).Some? {
      FieldIsKept(v, key, MAX_JSON_NESTING - 1);
    } else {
      EmptyIsPlain();
    }
    MoreLevels(x, MAX_JSON_NESTING - 1, MAX_JSON_NESTING);
    CloneIsSame(x);
  }

  lemma EmptyIsPlain()
    ensures WellFormed(Obj([])) && IsCanonizable(Obj([]), MAX_JSON_NESTING - 1) && Sorted(Obj([])) == Obj([])
  {
    assert SortedValues([]) == [];
  }

  lemma FieldIsFieldOr(v: Value, key: string, default: Value)
    requires v.Obj? && key in Keys(v.members) && WellFormed(v)
    ensures FieldOr(v, key, default) == Field(v, key)
  {
    GetMeans(v.members, key, Null);
  }

  lemma KeysOfAction()
    ensures |ACTION_KEYS| == 12
    ensures ACTION_KEYS[0] == "schema" && ACTION_KEYS[1] == "action_id" && ACTION_KEYS[2] == "sequence"
    ensures ACTION_KEYS[3] == "producer" && ACTION_KEYS[4] == "observed_at" && ACTION_KEYS[5] == "service"
    ensures ACTION_KEYS[6] == "operation" && ACTION_KEYS[7] == "target" && ACTION_KEYS[8] == "parameters"
    ensures ACTION_KEYS[9] == "requested_authority" && ACTION_KEYS[10] == "slot" && ACTION_KEYS[11] == "context"
  {
  }

  /** A normalised action, field by field. */
  lemma ActionFields(values: seq<Value>)
    requires |values| == 12 && forall i :: 0 <= i < 12 ==> Sorted(values[i]) == values[i]
    ensures |ACTION_KEYS| == 12
    ensures var a := RecordOf(ACTION_KEYS, values);
      && a.Obj? && Keys(a.members) == KeySet(ACTION_KEYS)
      && Field(a, "schema") == values[0] && Field(a, "action_id") == values[1] && Field(a, "sequence") == values[2]
      && Field(a, "producer") == values[3] && Field(a, "observed_at") == values[4] && Field(a, "service") == values[5]
      && Field(a, "operation") == values[6] && Field(a, "target") == values[7] && Field(a, "parameters") == values[8]
      && Field(a, "requested_authority") == values[9] && Field(a, "slot") == values[10] && Field(a, "context") == values[11]
  {
    hide Field, RecordOf, Sorted, KeySet, Keys, AreDistinctKeys;
    KeysOfAction();
    ActionKeysDiffer();
    RecordFields(ACTION_KEYS, values);
    hide ACTION_KEYS;
  }

  lemma AllActionKeys(v: Value)
    requires v.Obj? && Keys(v.members) == KeySet(ACTION_KEYS)
    ensures "parameters" in Keys(v.members) && "context" in Keys(v.members) && "requested_authority" in Keys(v.members)
  {
    KeysOfAction();
    hide Keys, ACTION_KEYS;
    assert ACTION_KEYS[8] in ACTION_KEYS && ACTION_KEYS[9] in ACTION_KEYS && ACTION_KEYS[11] in ACTION_KEYS;
  }

  lemma ActionValuesArePlain(v: Value, producer: Value, parameters: Value, context: Value, i: nat)
    requires IsAction(v) && i < 12 && i != 3 && i != 8 && i != 11
    ensures var x := ActionValues(v, producer, parameters, context)[i];
      Sorted(x) == x && WellFormed(x) && forall levels :: IsCanonizable(x, levels)
  {
    hide Field, Policy.IsIdentifier, IsDigest, FieldOr, IsOperationChar, SERVICES, AUTHORITIES;
    TextIsPlain(ActionValues(v, producer, parameters, context)[i]);
  }

  lemma NormalActionValues(v: Value, producer: Value, parameters: Value, context: Value)
    requires IsAction(v)
    requires forall x :: x in {producer, parameters, context} ==>
      Sorted(x) == x && WellFormed(x) && IsCanonizable(x, MAX_JSON_NESTING - 1)
    ensures var values := ActionValues(v, producer, parameters, context);
      forall i :: 0 <= i < 12 ==>
        Sorted(values[i]) == values[i] && WellFormed(values[i]) && IsCanonizable(values[i], MAX_JSON_NESTING - 1)
  {
    hide IsAction, Field, FieldOr, Sorted, WellFormed, IsCanonizable;
    var values := ActionValues(v, producer, parameters, context);
    forall i | 0 <= i < 12
      ensures Sorted(values[i]) == values[i] && WellFormed(values[i]) && IsCanonizable(values[i], MAX_JSON_NESTING - 1)
    {
      if i == 3 {
        assert values[i] == producer;
      } else if i == 8 {
        assert values[i] == parameters;
      } else if i == 11 {
        assert values[i] == context;
      } else {
        ActionValuesArePlain(v, producer, parameters, context, i);
      }
    }
  }

  /** A normalised action is accepted JSON in sorted form, and its own normal form. */
  lemma ActionIsStable(v: Value)
    requires IsNormal(v) && NormalizeAction(v).Success?
    ensures var a := NormalizeAction(v).value;
      IsNormal(a) && NormalizeAction(a) == Success(a) && Keys(a.members) == KeySet(ACTION_KEYS)
  {
    hide IsAction, RecordOf, CheckKeys, Sorted, WellFormed, IsCanonizable, NormalizeProducer, Clone, Field, Keys, KeySet;
    var producer := NormalizeProducer(Field(v, "producer")).value;
    var parameters := FieldOr(v, "parameters", Obj([]));
    var context := FieldOr(v, "context", Obj([]));
    assert v.Obj? by { KeysNeedObject(v, ACTION_REQUIRED, ACTION_OPTIONAL); }
    DictionaryIsKept(v, "parameters");
    DictionaryIsKept(v, "context");
    ProducerIsStable(Field(v, "producer"));
    MoreLevels(producer, 1, MAX_JSON_NESTING - 1);
    var values := ActionValues(v, producer, parameters, context);
    NormalActionValues(v, producer, parameters, context);
    var a := RecordOf(ACTION_KEYS, values);
    ActionFields(values);
    ActionKeysDiffer();
    RecordIsNormal(ACTION_KEYS, values, MAX_JSON_NESTING);
    AllActionKeys(a);
    FieldIsFieldOr(a, "parameters", Obj([]));
    FieldIsFieldOr(a, "context", Obj([]));
    FieldIsFieldOr(a, "requested_authority", Str("SIM_ONLY"));
    hide FieldOr;
    CloneIsSame(parameters) by { MoreLevels(parameters, MAX_JSON_NESTING - 1, MAX_JSON_NESTING); }
    CloneIsSame(context) by { MoreLevels(context, MAX_JSON_NESTING - 1, MAX_JSON_NESTING); }
    ActionKeySets();
    KeptKeysPass(a, ACTION_KEYS, ACTION_REQUIRED, ACTION_OPTIONAL);
    SameAction(v, a);
    assert ActionValues(a, producer, parameters, context) == values;
  }

  lemma KeysNeedObject(v: Value, required: seq<string>, optional: seq<string>)
    requires CheckKeys(v, required, optional).Success?
    ensures v.Obj?
  {
  }

  lemma SameAction(v: Value, a: Value)
    requires IsAction(v)
    requires Field(a, "action_id") == Field(v, "action_id") && Field(a, "sequence") == Field(v, "sequence")
    requires Field(a, "observed_at") == Field(v, "observed_at") && Field(a, "service") == Field(v, "service")
    requires Field(a, "operation") == Field(v, "operation") && Field(a, "target") == Field(v, "target")
    requires Field(a, "slot") == Field(v, "slot")
    requires FieldOr(a, "parameters", Obj([])) == FieldOr(v, "parameters", Obj([]))
    requires FieldOr(a, "context", Obj([])) == FieldOr(v, "context", Obj([]))
    requires FieldOr(a, "requested_authority", Str("SIM_ONLY")) == FieldOr(v, "requested_authority", Str("SIM_ONLY"))
    ensures IsAction(a)
  {
    hide Field, FieldOr, Policy.IsIdentifier, IsOperation, SERVICES, AUTHORITIES;
  }

  // ---------- what a normal form keeps ----------

  lemma DefaultIsTaken(v: Value, key: string, default: Value)
    requires v.Obj? && WellFormed(v)
    ensures FieldOr(v, key, default) == if key in Keys(v.members) then Field(v, key) else default
  {
    GetMeans(v.members, key, Null);
  }

  /** A normalised producer has its eight fields as they were given, and null for those that were not. */
  lemma ProducerKeeps(v: Value)
    requires NormalizeProducer(v).Success?
    ensures var p := NormalizeProducer(v).value;
      && p.Obj? && Keys(p.members)
        == {"schema", "agent_id", "workload_id", "model_id", "model_kind", "model_digest", "harness_id", "harness_digest"}
      && Field(p, "schema") == Str("heresy-sec.producer/v1") && Field(p, "agent_id") == Field(v, "agent_id")
      && Field(p, "workload_id") == Field(v, "workload_id") && Field(p, "model_id") == Field(v, "model_id")
      && Field(p, "model_kind") == Field(v, "model_kind") && Field(p, "model_digest") == Field(v, "model_digest")
      && Field(p, "harness_id") == Field(v, "harness_id") && Field(p, "harness_digest") == Field(v, "harness_digest")
  {
    hide IsProducer, RecordOf, CheckKeys, Sorted, WellFormed, IsCanonizable, AreDistinctKeys, Field, Keys;
    var values := FieldsOf(v, PRODUCER_KEYS);
    ProducerKeysDiffer();
    forall i | 0 <= i < |values| ensures Sorted(values[i]) == values[i] {
      ProducerTexts(v, i);
      TextIsPlain(values[i]);
    }
    RecordFields(PRODUCER_KEYS, values);
    assert PRODUCER_KEYS[0] == "schema" && PRODUCER_KEYS[1] == "agent_id" && PRODUCER_KEYS[2] == "workload_id";
    assert PRODUCER_KEYS[3] == "model_id" && PRODUCER_KEYS[4] == "model_kind" && PRODUCER_KEYS[5] == "model_digest";
    assert PRODUCER_KEYS[6] == "harness_id" && PRODUCER_KEYS[7] == "harness_digest";
  }

  /** The value under a key, or a default where there is none. */
  ghost predicate IsKept(a: Value, v: Value, key: string, default: Value)
    requires v.Obj?
  {
    Field(a, key) == if key in Keys(v.members) then Field(v, key) else default
  }

  /** A normalised action has its twelve fields as they were given, and the documented defaults for those
      that were not. */
  lemma ActionKeeps(v: Value)
    requires IsNormal(v) && NormalizeAction(v).Success?
    ensures v.Obj? && NormalizeProducer(Field(v, "producer")).Success?
    ensures var a := NormalizeAction(v).value;
      && a.Obj? && Keys(a.members) == {"schema", "action_id", "sequence", "producer", "observed_at", "service", "operation",
        "target", "parameters", "requested_authority", "slot", "context"}
      && Field(a, "schema") == Str("heresy-sec.action/v1")
      && Field(a, "action_id") == Field(v, "action_id") && Field(a, "sequence") == Field(v, "sequence")
      && Field(a, "service") == Field(v, "service") && Field(a, "operation") == Field(v, "operation")
      && Field(a, "target") == Field(v, "target")
      && IsKept(a, v, "observed_at", Null) && IsKept(a, v, "slot", Null)
      && IsKept(a, v, "parameters", Obj([])) && IsKept(a, v, "context", Obj([]))
      && IsKept(a, v, "requested_authority", Str("SIM_ONLY"))
      && Field(a, "producer") == NormalizeProducer(Field(v, "producer")).value
  {
    hide IsAction, RecordOf, CheckKeys, Sorted, WellFormed, IsCanonizable, NormalizeProducer, Field, Keys, FieldOr, NormalizeAction;
    ActionIsRecord(v);
    var values := GivenValues(v);
    ActionFields(values);
    DefaultIsTaken(v, "parameters", Obj([]));
    DefaultIsTaken(v, "context", Obj([]));
    DefaultIsTaken(v, "requested_authority", Str("SIM_ONLY"));
    MissingIsNull(v, "observed_at");
    MissingIsNull(v, "slot");
  }

  /** The values of a normalised action. */
  ghost function GivenValues(v: Value): (values: seq<Value>)
    requires NormalizeProducer(Field(v, "producer")).Success?
    ensures |values| == |ACTION_KEYS|
  {
    ActionValues(v, NormalizeProducer(Field(v, "producer")).value, FieldOr(v, "parameters", Obj([])),
      FieldOr(v, "context", Obj([])))
  }

  lemma ActionIsRecord(v: Value)
    requires IsNormal(v) && NormalizeAction(v).Success?
    ensures v.Obj? && WellFormed(v) && NormalizeProducer(Field(v, "producer")).Success?
    ensures var values := GivenValues(v);
      && NormalizeAction(v) == Success(RecordOf(ACTION_KEYS, values))
      && |values| == 12 && forall i :: 0 <= i < 12 ==> Sorted(values[i]) == values[i]
  {
    hide IsAction, RecordOf, CheckKeys, Sorted, WellFormed, IsCanonizable, NormalizeProducer, Clone, Field, Keys, FieldOr;
    var producer := NormalizeProducer(Field(v, "producer")).value;
    var parameters, context := FieldOr(v, "parameters", Obj([])), FieldOr(v, "context", Obj([]));
    assert v.Obj? by { KeysNeedObject(v, ACTION_REQUIRED, ACTION_OPTIONAL); }
    DictionaryIsKept(v, "parameters");
    DictionaryIsKept(v, "context");
    ProducerIsStable(Field(v, "producer"));
    MoreLevels(producer, 1, MAX_JSON_NESTING - 1);
    NormalActionValues(v, producer, parameters, context);
  }

  // ---------- what is accepted ----------

  ghost predicate IsString(v: Value, minimum: nat, maximum: nat) {
    exists s :: v == Str(s) && minimum <= |s| <= maximum
  }

  ghost predicate IsNumber(v: Value, maximum: nat) {
    exists n: nat :: v == Int(n) && n <= maximum
  }

  /** 64 lower-case hexadecimal digits. */
  ghost predicate IsSha256(v: Value) {
    exists s :: v == Str(s) && |s| == 64 && forall c :: c in s ==> c in "0123456789abcdef"
  }

  ghost predicate IsName(v: Value) {
    exists s :: v == Str(s) && Policy.IsIdentifier(s)
  }

  /** A lower-case word that starts with a letter. */
  ghost predicate IsOperationName(v: Value) {
    && IsString(v, 1, 64) && 'a' <= v.s[0] <= 'z'
    && forall c :: c in v.s ==> 'a' <= c <= 'z' || '0' <= c <= '9' || c in "._-"
  }

  /** Which producers are accepted. */
  lemma ProducerMeans(v: Value)
    ensures NormalizeProducer(v).Success? <==>
      (&& v.Obj? && {"schema", "agent_id", "model_kind"} <= Keys(v.members)
      && Keys(v.members) <= {"schema", "agent_id", "model_kind", "workload_id", "model_id", "model_digest", "harness_id",
        "harness_digest"}
      && Field(v, "schema") == Str("heresy-sec.producer/v1")
      && IsName(Field(v, "agent_id"))
      && Field(v, "model_kind") in {Str("OPEN_WEIGHT"), Str("CLOSED"), Str("NO_MODEL"), Str("UNKNOWN")}
      && (Field(v, "workload_id") == Null || IsString(Field(v, "workload_id"), 1, 512))
      && (Field(v, "model_id") == Null || (IsString(Field(v, "model_id"), 1, 256) && Field(v, "model_kind") != Str("NO_MODEL")))
      && (Field(v, "model_digest") == Null || (IsSha256(Field(v, "model_digest")) && Field(v, "model_kind") != Str("NO_MODEL")))
      && (Field(v, "harness_id") == Null || IsString(Field(v, "harness_id"), 1, 256))
      && (Field(v, "harness_digest") == Null || IsSha256(Field(v, "harness_digest"))))
  {
    hide Keys, Field, KeySet, Policy.IsIdentifier, IsDigestValue, IsSha256, IsString, IsText, IsOneOf, IsName, IsIdentifierValue;
    ProducerKeySetsAre();
    DigestMeans(Field(v, "model_digest"));
    DigestMeans(Field(v, "harness_digest"));
    TextMeans(Field(v, "workload_id"), 512);
    TextMeans(Field(v, "model_id"), 256);
    TextMeans(Field(v, "harness_id"), 256);
    NameMeans(Field(v, "agent_id"));
    KindMeans(Field(v, "model_kind"));
  }

  lemma TextMeans(v: Value, maximum: nat)
    ensures IsText(v, maximum) <==> IsString(v, 1, maximum)
  {
  }

  lemma NumberMeans(v: Value, maximum: nat)
    ensures IsIntegerIn(v, 0, maximum) <==> IsNumber(v, maximum)
  {
  }

  lemma NameMeans(v: Value)
    ensures IsIdentifierValue(v) <==> IsName(v)
  {
  }

  lemma KindMeans(v: Value)
    ensures IsOneOf(v, MODEL_KINDS) <==> v in {Str("OPEN_WEIGHT"), Str("CLOSED"), Str("NO_MODEL"), Str("UNKNOWN")}
  {
  }

  lemma ServiceMeans(v: Value)
    ensures IsOneOf(v, SERVICES) <==>
      v in {Str("file"), Str("network"), Str("process"), Str("ipc"), Str("model"), Str("tool"), Str("system")}
  {
  }

  lemma AuthorityMeans(v: Value)
    ensures IsOneOf(v, AUTHORITIES) <==> v in {Str("SIM_ONLY"), Str("READ_ONLY_EXTERNAL"), Str("WORKSPACE_WRITE"),
      Str("NETWORK"), Str("CONTROLLED_EXECUTION")}
  {
  }

  lemma DigestMeans(v: Value)
    ensures IsDigestValue(v) <==> IsSha256(v)
  {
    forall c: char ensures c in "0123456789abcdef" <==> '0' <= c <= '9' || 'a' <= c <= 'f' {
      HexDigit(c);
    }
    if v.Str? {
      var s := v.s;
      if IsSha256(v) {
        forall i | 0 <= i < |s| ensures '0' <= s[i] <= '9' || 'a' <= s[i] <= 'f' {
          assert s[i] in s;
        }
      }
    }
  }

  lemma HexDigit(c: char)
    ensures c in "0123456789abcdef" <==> '0' <= c <= '9' || 'a' <= c <= 'f'
  {
    if '0' <= c <= '9' {
      assert "0123456789abcdef"[c as int - '0' as int] == c;
    } else if 'a' <= c <= 'f' {
      assert "0123456789abcdef"[10 + c as int - 'a' as int] == c;
    }
  }

  lemma ProducerKeySetsAre()
    ensures KeySet(PRODUCER_REQUIRED) == {"schema", "agent_id", "model_kind"}
    ensures KeySet(PRODUCER_REQUIRED) + KeySet(PRODUCER_OPTIONAL) == {"schema", "agent_id", "model_kind", "workload_id",
      "model_id", "model_digest", "harness_id", "harness_digest"}
  {
  }

  lemma ActionKeySetsAre()
    ensures KeySet(ACTION_REQUIRED) == {"schema", "action_id", "sequence", "producer", "service", "operation", "target"}
    ensures KeySet(ACTION_REQUIRED) + KeySet(ACTION_OPTIONAL) == {"schema", "action_id", "sequence", "producer", "service",
      "operation", "target", "observed_at", "parameters", "requested_authority", "slot", "context"}
  {
    RequiredKeysAre();
    OptionalKeysAre();
    hide KeySet;
  }

  lemma RequiredKeysAre()
    ensures KeySet(ACTION_REQUIRED) == {"schema", "action_id", "sequence", "producer", "service", "operation", "target"}
  {
  }

  lemma OptionalKeysAre()
    ensures KeySet(ACTION_OPTIONAL) == {"observed_at", "parameters", "requested_authority", "slot", "context"}
  {
  }

  /** Which actions are accepted. */
  lemma ActionMeans(v: Value)
    requires IsNormal(v)
    ensures NormalizeAction(v).Success? <==>
      (&& v.Obj? && {"schema", "action_id", "sequence", "producer", "service", "operation", "target"} <= Keys(v.members)
      && Keys(v.members) <= {"schema", "action_id", "sequence", "producer", "service", "operation", "target", "observed_at",
        "parameters", "requested_authority", "slot", "context"}
      && Field(v, "schema") == Str("heresy-sec.action/v1")
      && IsName(Field(v, "action_id")) && IsNumber(Field(v, "sequence"), 9007199254740991)
      && NormalizeProducer(Field(v, "producer")).Success?
      && Field(v, "service") in {Str("file"), Str("network"), Str("process"), Str("ipc"), Str("model"), Str("tool"), Str("system")}
      && IsOperationName(Field(v, "operation")) && IsString(Field(v, "target"), 1, 2048)
      && (Field(v, "observed_at") == Null || IsString(Field(v, "observed_at"), 1, 64))
      && (Field(v, "slot") == Null || IsNumber(Field(v, "slot"), 2147483647))
      && ("parameters" in Keys(v.members) ==> Field(v, "parameters").Obj?)
      && ("context" in Keys(v.members) ==> Field(v, "context").Obj?)
      && ("requested_authority" !in Keys(v.members) || Field(v, "requested_authority") in
        {Str("SIM_ONLY"), Str("READ_ONLY_EXTERNAL"), Str("WORKSPACE_WRITE"), Str("NETWORK"), Str("CONTROLLED_EXECUTION")}))
  {
    hide Keys, Field, FieldOr, KeySet, Policy.IsIdentifier, NormalizeProducer, IsOperation, IsOperationName, IsNormal, Clone,
      IsString, IsText, IsOneOf, IsName, IsIdentifierValue, IsIntegerIn, IsNumber, IsAction, WellFormed, Sorted;
    ActionKeySetsAre();
    if v.Obj? {
      NormalIsWellFormed(v);
      DictionaryIsKept(v, "parameters");
      DictionaryIsKept(v, "context");
      DefaultIsTaken(v, "parameters", Obj([]));
      DefaultIsTaken(v, "context", Obj([]));
      DefaultIsTaken(v, "requested_authority", Str("SIM_ONLY"));
    }
    ActionFieldsMean(v);
  }

  lemma NormalIsWellFormed(v: Value)
    requires IsNormal(v)
    ensures WellFormed(v)
  {
  }

  lemma ActionFieldsMean(v: Value)
    ensures IsAction(v) <==>
      && IsName(Field(v, "action_id")) && IsNumber(Field(v, "sequence"), 9007199254740991)
      && Field(v, "service") in {Str("file"), Str("network"), Str("process"), Str("ipc"), Str("model"), Str("tool"), Str("system")}
      && IsOperationName(Field(v, "operation")) && IsString(Field(v, "target"), 1, 2048)
      && (Field(v, "observed_at") == Null || IsString(Field(v, "observed_at"), 1, 64))
      && (Field(v, "slot") == Null || IsNumber(Field(v, "slot"), 2147483647))
      && FieldOr(v, "parameters", Obj([])).Obj? && FieldOr(v, "context", Obj([])).Obj?
      && FieldOr(v, "requested_authority", Str("SIM_ONLY")) in
        {Str("SIM_ONLY"), Str("READ_ONLY_EXTERNAL"), Str("WORKSPACE_WRITE"), Str("NETWORK"), Str("CONTROLLED_EXECUTION")}
  {
    hide Field, FieldOr, IsOperation, IsOperationName, IsString, IsText, IsOneOf, IsName, IsIdentifierValue, IsIntegerIn,
      IsNumber;
    NameMeans(Field(v, "action_id"));
    NumberMeans(Field(v, "sequence"), 9007199254740991);
    ServiceMeans(Field(v, "service"));
    OperationMeans(Field(v, "operation"));
    TextMeans(Field(v, "target"), 2048);
    TextMeans(Field(v, "observed_at"), 64);
    NumberMeans(Field(v, "slot"), 2147483647);
    AuthorityMeans(FieldOr(v, "requested_authority", Str("SIM_ONLY")));
  }

  lemma OperationMeans(v: Value)
    ensures IsOperation(v) <==> IsOperationName(v)
  {
    if v.Str? {
      var s := v.s;
      if IsOperationName(v) {
        forall i | 0 <= i < |s| ensures IsOperationChar(s[i]) {
          assert s[i] in s;
        }
      }
    }
  }

  lemma MissingIsNull(v: Value, key: string)
    requires v.Obj? && WellFormed(v)
    ensures Field(v, key) == if key in Keys(v.members) then Field(v, key) else Null
  {
    GetMeans(v.members, key, Null);
  }

  // ---------- the typed action ----------

  function TextOf(v: Value): string {
    if v.Str? then v.s else ""
  }

  function NumberOf(v: Value): Actions.Option<nat> {
    if v.Int? && v.n >= 0 then Actions.Some(v.n) else Actions.None
  }

  function AuthorityOf(v: Value): Actions.Authority {
    if v == Str("SIM_ONLY") then Actions.SimOnly
    else if v == Str("READ_ONLY_EXTERNAL") then Actions.ReadOnlyExternal
    else if v == Str("WORKSPACE_WRITE") then Actions.WorkspaceWrite
    else if v == Str("NETWORK") then Actions.Network
    else Actions.ControlledExecution
  }

  /** The action as its evaluation looks at it. */
  function ActionOf(a: Value, size: string -> nat): Actions.Action {
    var producer := Field(a, "producer");
    var workload := Field(producer, "workload_id");
    var sequence := NumberOf(Field(a, "sequence"));
    Actions.Action(TextOf(Field(a, "action_id")), if sequence.Some? then sequence.value else 0,
      Actions.Producer(TextOf(Field(producer, "agent_id")), if workload.Str? then Actions.Some(workload.s) else Actions.None),
      TextOf(Field(a, "service")), TextOf(Field(a, "operation")), TextOf(Field(a, "target")),
      size(CanonicalText(Field(a, "parameters"))), AuthorityOf(Field(a, "requested_authority")), NumberOf(Field(a, "slot")))
  }

  lemma AuthorityIsKept(v: Value)
    requires IsOneOf(v, AUTHORITIES)
    ensures v == Str(Policy.AuthorityName(AuthorityOf(v)))
  {
    assert v.s == AUTHORITIES[0] || v.s == AUTHORITIES[1] || v.s == AUTHORITIES[2] || v.s == AUTHORITIES[3] || v.s == AUTHORITIES[4];
  }

  /** The typed action says of a normalised action what its fields say. */
  lemma ActionOfKeeps(v: Value, size: string -> nat)
    requires IsNormal(v) && NormalizeAction(v).Success?
    ensures var a := NormalizeAction(v).value;
      var t := ActionOf(a, size);
      && Field(a, "action_id") == Str(t.actionId) && Field(a, "sequence") == Int(t.sequence)
      && Field(a, "service") == Str(t.service) && Field(a, "operation") == Str(t.operation)
      && Field(a, "target") == Str(t.target) && Field(Field(a, "producer"), "agent_id") == Str(t.producer.agentId)
      && Field(a, "requested_authority") == Str(Policy.AuthorityName(t.authority))
      && Field(a, "slot") == (if t.slot.Some? then Int(t.slot.value) else Null)
      && Field(Field(a, "producer"), "workload_id")
        == (if t.producer.workloadId.Some? then Str(t.producer.workloadId.value) else Null)
      && t.parameterLength == size(CanonicalText(Field(a, "parameters")))
  {
    ActionIsStable(v);
    var a := NormalizeAction(v).value;
    NormalParts(a);
    hide NormalizeAction, IsNormal, Field, Policy.AuthorityName, AUTHORITIES, SERVICES, CanonicalText, IsProducer,
      Policy.IsIdentifier, IsOperationChar, AuthorityOf;
    assert IsIdentifierValue(Field(Field(a, "producer"), "agent_id"));
    AuthorityIsKept(Field(a, "requested_authority"));
  }

  lemma NormalParts(a: Value)
    requires IsNormal(a) && NormalizeAction(a) == Success(a) && Keys(a.members) == KeySet(ACTION_KEYS)
    ensures IsAction(a) && IsIdentifierValue(Field(Field(a, "producer"), "agent_id"))
    ensures IsNullableText(Field(Field(a, "producer"), "workload_id"), 512)
    ensures IsOneOf(Field(a, "requested_authority"), AUTHORITIES)
  {
    hide Field, Policy.IsIdentifier, CheckKeys, AUTHORITIES, RecordOf, Clone, Keys, KeySet;
    KeysNeedObject(a, ACTION_REQUIRED, ACTION_OPTIONAL);
    AllActionKeys(a);
    FieldIsFieldOr(a, "requested_authority", Str("SIM_ONLY"));
  }
}
