/** Geometry policies as they are read: `normalize_geometry_policy` (geometry.py) and
    `normalize_geometry_policy_v2` (geometry_profile_v2_policy.py).

    Arguments are dictionaries in sorted form, and so are the results. */
module GeometryContract {
  import opened Outcomes
  import opened Actions
  import opened Json
  import opened Fields
  import opened Rotations
  import opened Sorting
  import PolicyLaws
  import AC = ActionContract

  const MAX_WINDOW := 32
  const MAX_SCALE := 64
  const MAX_WEIGHT := 1_000_000
  const MAX_THRESHOLD := 1_000_000_000
  const MAX_FORBIDDEN_PATTERNS := 16
  const MAX_CYCLE_PATTERN := 8

  // ---------- labels and patterns ----------

  predicate IsLabelChar(c: char) {
    'a' <= c <= 'z' || '0' <= c <= '9' || c == '.' || c == '_' || c == '-'
  }

  /** `service.operation`, in lower case. */
  predicate IsLabel(s: string) {
    3 <= |s| <= 129 && '.' in s && forall i :: 0 <= i < |s| ==> IsLabelChar(s[i])
  }

  predicate IsPattern(p: seq<string>) {
    1 <= |p| <= MAX_CYCLE_PATTERN && forall i :: 0 <= i < |p| ==> IsLabel(p[i])
  }

  predicate ArePatterns(ps: seq<seq<string>>) {
    |ps| <= MAX_FORBIDDEN_PATTERNS && forall i :: 0 <= i < |ps| ==> IsPattern(ps[i])
  }

  /** The lists of strings in a list. */
  function ListsOf(v: Value): (r: Option<seq<seq<string>>>) {
    if v.Arr? && forall i :: 0 <= i < |v.items| ==> StringsOf(v.items[i]).Some? then
      Some(seq(|v.items|, i requires 0 <= i < |v.items| => StringsOf(v.items[i]).value))
    else None
  }

  function ListValues(ps: seq<seq<string>>): (r: seq<Value>)
    ensures |r| == |ps| && forall i :: 0 <= i < |ps| ==> r[i] == Arr(Strs(ps[i]))
  {
    seq(|ps|, i requires 0 <= i < |ps| => Arr(Strs(ps[i])))
  }

  function Canonicals(ps: seq<seq<string>>): (r: seq<seq<string>>)
    requires forall i :: 0 <= i < |ps| ==> ps[i] != []
    ensures |r| == |ps| && forall i :: 0 <= i < |ps| ==> r[i] == CanonicalRotation(StringAtMost, ps[i])
  {
    seq(|ps|, i requires 0 <= i < |ps| => CanonicalRotation(StringAtMost, ps[i]))
  }

  predicate AreDistinctPatterns(ps: seq<seq<string>>) {
    forall i, j :: 0 <= i < j < |ps| ==> ps[i] != ps[j]
  }

  /** `_normalize_forbidden_cycles` */
  function NormalizeCycles(v: Value): Result<Value> {
    match ListsOf(v)
    case None => Failure(GeometryPolicyInvalid)
    case Some(ps) =>
      if !ArePatterns(ps) then Failure(GeometryPolicyInvalid)
      else if !AreDistinctPatterns(Canonicals(ps)) then Failure(GeometryPolicyInvalid)
      else Success(Arr(ListValues(Sort(Canonicals(ps), PatternAtMost))))
  }

  lemma RotationHas(s: seq<string>, r: seq<string>)
    requires IsRotation(s, r)
    ensures |r| == |s| && forall i :: 0 <= i < |r| ==> r[i] in s
  {
    var k :| 0 <= k < |s| && r == Rotate(s, k);
    forall i | 0 <= i < |r| ensures r[i] in s {
      assert r[i] == if i < |s| - k then s[k + i] else s[i - (|s| - k)];
    }
  }

  /** The canonical rotation of a pattern is a pattern, and its own canonical rotation. */
  lemma CanonicalPattern(p: seq<string>)
    requires IsPattern(p)
    ensures var c := CanonicalRotation(StringAtMost, p);
      IsPattern(c) && CanonicalRotation(StringAtMost, c) == c
  {
    hide CanonicalRotation, StringAtMost, IsLabel;
    var c := CanonicalRotation(StringAtMost, p);
    StringAtMostIsTotal();
    CanonicalIsLeast(StringAtMost, p);
    RotationHas(p, c);
    forall i | 0 <= i < |c| ensures IsLabel(c[i]) {
      var j :| 0 <= j < |p| && p[j] == c[i];
    }
    SameCanonical(StringAtMost, p, c);
  }

  lemma ListsRoundTrip(ps: seq<seq<string>>)
    ensures ListsOf(Arr(ListValues(ps))) == Some(ps)
    ensures var v := Arr(ListValues(ps));
      Sorted(v) == v && WellFormed(v) && IsCanonizable(v, 2)
  {
    var v := Arr(ListValues(ps));
    forall i | 0 <= i < |ps|
      ensures StringsOf(v.items[i]) == Some(ps[i]) && Sorted(v.items[i]) == v.items[i]
      ensures WellFormed(v.items[i]) && IsCanonizable(v.items[i], 1)
    {
      StringsRoundTrip(ps[i]);
    }
    assert seq(|v.items|, i requires 0 <= i < |v.items| => StringsOf(v.items[i]).value) == ps;
    assert SortedItems(v.items) == v.items;
  }

  lemma SortedPatterns(ps: seq<seq<string>>)
    requires ArePatterns(ps) && AreDistinctPatterns(Canonicals(ps))
    ensures var qs := Sort(Canonicals(ps), PatternAtMost);
      && ArePatterns(qs) && Canonicals(qs) == qs && AreDistinctPatterns(qs) && Sort(qs, PatternAtMost) == qs
  {
    PatternsAreFilled(ps);
    hide CanonicalRotation, PatternAtMost, IsPattern, Sort;
    var cs := Canonicals(ps);
    var qs := Sort(cs, PatternAtMost);
    PatternAtMostIsTotal();
    SortSorts(cs, PatternAtMost);
    SortOfSorted(qs, PatternAtMost);
    NoRepeats(cs, qs);
    forall i | 0 <= i < |qs| ensures IsPattern(qs[i]) && qs[i] != [] && CanonicalRotation(StringAtMost, qs[i]) == qs[i] {
      assert qs[i] in cs;
      var j :| 0 <= j < |cs| && cs[j] == qs[i];
      CanonicalPattern(ps[j]);
      PatternHasLabel(qs[i]);
    }
    assert Canonicals(qs) == qs;
  }

  lemma PatternHasLabel(p: seq<string>)
    requires IsPattern(p)
    ensures p != []
  {
  }

  /** Normalised cycles are their own normal form. */
  lemma CyclesAreStable(v: Value)
    requires NormalizeCycles(v).Success?
    ensures var c := NormalizeCycles(v).value;
      && NormalizeCycles(c) == Success(c)
      && Sorted(c) == c && WellFormed(c) && IsCanonizable(c, 2)
  {
    hide ArePatterns, AreDistinctPatterns, Sort, CanonicalRotation, ListsOf, Sorted, WellFormed, IsCanonizable;
    var ps := ListsOf(v).value;
    PatternsAreFilled(ps);
    SortedPatterns(ps);
    ListsRoundTrip(Sort(Canonicals(ps), PatternAtMost));
  }

  lemma PatternsAreFilled(ps: seq<seq<string>>)
    requires ArePatterns(ps)
    ensures forall i :: 0 <= i < |ps| ==> ps[i] != []
  {
  }

  // ---------- shared parts ----------

  const FLOOR: Value := Str("FLOOR")
  const MODULE: Value := Str("heresy-geom")

  const QUANTIZE_KEYS: seq<string> := ["scale", "mode"]

  /** `_exact_keys` */
  predicate HasKeys(v: Value, keys: seq<string>) {
    v.Obj? && Keys(v.members) == KeySet(keys)
  }

  function NormalQuantize(scale: Value): Value {
    RecordOf(QUANTIZE_KEYS, [scale, FLOOR])
  }

  lemma QuantizeFields(scale: Value)
    requires AC.IsIntegerIn(scale, 1, MAX_SCALE)
    ensures var q := NormalQuantize(scale);
      && HasKeys(q, QUANTIZE_KEYS) && Field(q, "scale") == scale && Field(q, "mode") == FLOOR
      && Sorted(q) == q && WellFormed(q) && IsCanonizable(q, 1)
  {
    hide Sorted, WellFormed, IsCanonizable, Field, Keys, KeySet, AreDistinctKeys;
    TaggedTextsDiffer(QUANTIZE_KEYS, ['s', 'm'], [5, 4]);
    var values := [scale, FLOOR];
    AC.TextIsPlain(scale);
    AC.TextIsPlain(FLOOR);
    RecordFields(QUANTIZE_KEYS, values);
    RecordIsNormal(QUANTIZE_KEYS, values, 1);
    assert QUANTIZE_KEYS[0] == "scale" && QUANTIZE_KEYS[1] == "mode";
  }

  // ---------- profile v1 ----------

  const V1_KEYS: seq<string> := ["module", "version", "fixture_set", "window", "quantize", "max_forman_abs",
    "max_spectral_l2_delta", "epsilon_P", "forbid_cycles", "require_delta_P"]

  const VERSION1: Value := Str("1")
  const FIXTURES1: Value := Str("heresy-geom-conformance/v1")

  predicate IsV1(v: Value) {
    && Field(v, "require_delta_P").Bool?
    && AC.IsIntegerIn(Field(v, "window"), 1, MAX_WINDOW)
    && AC.IsIntegerIn(Field(Field(v, "quantize"), "scale"), 1, MAX_SCALE)
    && AC.IsIntegerIn(Field(v, "max_forman_abs"), 0, MAX_WEIGHT)
    && AC.IsIntegerIn(Field(v, "max_spectral_l2_delta"), 0, MAX_THRESHOLD)
    && AC.IsIntegerIn(Field(v, "epsilon_P"), 1, 4)
  }

  function V1Values(v: Value, cycles: Value): seq<Value> {
    [MODULE, VERSION1, FIXTURES1, Field(v, "window"), NormalQuantize(Field(Field(v, "quantize"), "scale")),
      Field(v, "max_forman_abs"), Field(v, "max_spectral_l2_delta"), Field(v, "epsilon_P"), cycles,
      Field(v, "require_delta_P")]
  }

  function NormalizeV1(v: Value): Result<Value> {
    if !HasKeys(v, V1_KEYS) then Failure(GeometryPolicyInvalid)
    else if Field(v, "module") != MODULE || Field(v, "version") != VERSION1 then Failure(GeometryModuleUnsupported)
    else if Field(v, "fixture_set") != FIXTURES1 then Failure(GeometryFixtureSetUnsupported)
    else if !HasKeys(Field(v, "quantize"), QUANTIZE_KEYS) then Failure(GeometryPolicyInvalid)
    else if Field(Field(v, "quantize"), "mode") != FLOOR then Failure(GeometryQuantizeUnsupported)
    else if !IsV1(v) then Failure(GeometryPolicyInvalid)
    else
      var cycles :- NormalizeCycles(Field(v, "forbid_cycles"));
      Success(RecordOf(V1_KEYS, V1Values(v, cycles)))
  }

  // ---------- profile v2 ----------

  const V2_KEYS: seq<string> := ["module", "version", "fixture_set", "window", "quantize", "forman",
    "max_spectral_l2_delta", "epsilon_P", "forbid_cycles", "require_delta_P"]

  const VERSION2: Value := Str("2")
  const FIXTURES2: Value := Str("heresy-geom-conformance/v2")

  const WINDOW_KEYS: seq<string> := ["short", "long", "stride"]
  const FORMAN_KEYS: seq<string> := ["mode", "weight_map", "max_abs", "max_window_l1", "learning"]

  predicate IsWindow(w: Value) {
    && HasKeys(w, WINDOW_KEYS)
    && AC.IsIntegerIn(Field(w, "short"), 1, MAX_WINDOW) && AC.IsIntegerIn(Field(w, "long"), 1, MAX_WINDOW)
    && AC.IsIntegerIn(Field(w, "stride"), 1, MAX_WINDOW)
    && Field(w, "short").n <= Field(w, "long").n && Field(w, "stride").n <= Field(w, "short").n
  }

  /** `_normalize_weight_map`: labels to weights; empty just for the unweighted mode. */
  predicate IsWeightMap(w: Value, mode: Value) {
    && w.Obj?
    && (forall i :: 0 <= i < |w.members| ==>
      IsLabel(w.members[i].key) && AC.IsIntegerIn(w.members[i].value, 1, MAX_WEIGHT))
    && (mode == Str("unweighted") <==> w.members == [])
  }

  predicate IsMode(mode: Value) {
    mode == Str("unweighted") || mode == Str("weighted")
  }

  predicate IsV2(v: Value) {
    var f := Field(v, "forman");
    && Field(v, "require_delta_P").Bool?
    && AC.IsIntegerIn(Field(Field(v, "quantize"), "scale"), 1, MAX_SCALE)
    && IsWeightMap(Field(f, "weight_map"), Field(f, "mode"))
    && AC.IsIntegerIn(Field(f, "max_abs"), 0, MAX_THRESHOLD) && AC.IsIntegerIn(Field(f, "max_window_l1"), 0, MAX_THRESHOLD)
    && AC.IsIntegerIn(Field(v, "max_spectral_l2_delta"), 0, MAX_THRESHOLD)
    && AC.IsIntegerIn(Field(v, "epsilon_P"), 1, 4)
  }

  const FORBIDDEN: Value := Str("forbidden")

  function NormalWindow(w: Value): Value {
    RecordOf(WINDOW_KEYS, [Field(w, "short"), Field(w, "long"), Field(w, "stride")])
  }

  function NormalForman(f: Value): Value {
    RecordOf(FORMAN_KEYS,
      [Field(f, "mode"), Sorted(Field(f, "weight_map")), Field(f, "max_abs"), Field(f, "max_window_l1"), FORBIDDEN])
  }

  function V2Values(v: Value, cycles: Value): seq<Value> {
    [MODULE, VERSION2, FIXTURES2, NormalWindow(Field(v, "window")), NormalQuantize(Field(Field(v, "quantize"), "scale")),
      NormalForman(Field(v, "forman")), Field(v, "max_spectral_l2_delta"), Field(v, "epsilon_P"), cycles,
      Field(v, "require_delta_P")]
  }

  function NormalizeV2(v: Value): Result<Value> {
    if !HasKeys(v, V2_KEYS) then Failure(GeometryPolicyInvalid)
    else if Field(v, "module") != MODULE || Field(v, "version") != VERSION2 then Failure(GeometryModuleUnsupported)
    else if Field(v, "fixture_set") != FIXTURES2 then Failure(GeometryFixtureSetUnsupported)
    else if !IsWindow(Field(v, "window")) then Failure(GeometryPolicyInvalid)
    else if !HasKeys(Field(v, "quantize"), QUANTIZE_KEYS) then Failure(GeometryPolicyInvalid)
    else if Field(Field(v, "quantize"), "mode") != FLOOR then Failure(GeometryQuantizeUnsupported)
    else if !HasKeys(Field(v, "forman"), FORMAN_KEYS) then Failure(GeometryPolicyInvalid)
    else if !IsMode(Field(Field(v, "forman"), "mode")) then Failure(GeometryFormanModeUnsupported)
    else if Field(Field(v, "forman"), "learning") != FORBIDDEN then Failure(GeometryFormanLearningForbidden)
    else if !IsV2(v) then Failure(GeometryPolicyInvalid)
    else
      var cycles :- NormalizeCycles(Field(v, "forbid_cycles"));
      Success(RecordOf(V2_KEYS, V2Values(v, cycles)))
  }

  /** `normalize_geometry_policy`, with both profiles installed. */
  function NormalizeGeometry(v: Value): Result<Value> {
    if v.Obj? && Field(v, "version") == VERSION2 then NormalizeV2(v) else NormalizeV1(v)
  }

  // ---------- normal forms ----------

  lemma V1KeysDiffer()
    ensures AreDistinctKeys(V1_KEYS) && |V1_KEYS| == 10
    ensures V1_KEYS[0] == "module" && V1_KEYS[1] == "version" && V1_KEYS[2] == "fixture_set" && V1_KEYS[3] == "window"
    ensures V1_KEYS[4] == "quantize" && V1_KEYS[5] == "max_forman_abs" && V1_KEYS[6] == "max_spectral_l2_delta"
    ensures V1_KEYS[7] == "epsilon_P" && V1_KEYS[8] == "forbid_cycles" && V1_KEYS[9] == "require_delta_P"
  {
    TaggedTextsDiffer(V1_KEYS, ['m', 'v', 'f', 'w', 'q', 'm', 'm', 'e', 'f', 'r'], [6, 7, 11, 6, 8, 14, 21, 9, 13, 15]);
  }

  lemma V2KeysDiffer()
    ensures AreDistinctKeys(V2_KEYS) && |V2_KEYS| == 10
    ensures V2_KEYS[0] == "module" && V2_KEYS[1] == "version" && V2_KEYS[2] == "fixture_set" && V2_KEYS[3] == "window"
    ensures V2_KEYS[4] == "quantize" && V2_KEYS[5] == "forman" && V2_KEYS[6] == "max_spectral_l2_delta"
    ensures V2_KEYS[7] == "epsilon_P" && V2_KEYS[8] == "forbid_cycles" && V2_KEYS[9] == "require_delta_P"
  {
    TaggedTextsDiffer(V2_KEYS, ['m', 'v', 'f', 'w', 'q', 'f', 'm', 'e', 'f', 'r'], [6, 7, 11, 6, 8, 6, 21, 9, 13, 15]);
  }

  /** Values that stay as they are at so many levels. */
  predicate IsPlain(x: Value, levels: nat) {
    Sorted(x) == x && WellFormed(x) && IsCanonizable(x, levels)
  }

  lemma ScalarIsPlain(x: Value, levels: nat)
    requires x.Str? || x.Bool? || (x.Int? && -MAX_SAFE_INTEGER <= x.n <= MAX_SAFE_INTEGER)
    ensures IsPlain(x, levels)
  {
    AC.TextIsPlain(x);
  }

  lemma PlainAtMore(x: Value, less: nat, more: nat)
    requires IsPlain(x, less) && less <= more
    ensures IsPlain(x, more)
  {
    hide Sorted, WellFormed;
    MoreLevels(x, less, more);
  }

  lemma PlainIsNormal(v: Value, levels: nat)
    requires IsPlain(v, levels) && levels <= MAX_JSON_NESTING
    ensures IsNormal(v)
  {
    hide Sorted, WellFormed;
    MoreLevels(v, levels, MAX_JSON_NESTING);
  }

  lemma V1ValuesArePlain(v: Value, cycles: Value)
    requires IsV1(v) && IsPlain(cycles, 2)
    ensures var values := V1Values(v, cycles);
      forall i :: 0 <= i < 10 ==> IsPlain(values[i], 3)
  {
    hide IsPlain, Field, NormalQuantize;
    var values := V1Values(v, cycles);
    var scale := Field(Field(v, "quantize"), "scale");
    QuantizeIsPlain(scale);
    PlainAtMore(cycles, 2, 3);
    forall i | 0 <= i < 10 ensures IsPlain(values[i], 3) {
      if i != 4 && i != 8 {
        ScalarIsPlain(values[i], 3);
      }
    }
  }

  lemma QuantizeIsPlain(scale: Value)
    requires AC.IsIntegerIn(scale, 1, MAX_SCALE)
    ensures IsPlain(NormalQuantize(scale), 3)
  {
    hide NormalQuantize, Sorted, WellFormed, IsCanonizable;
    QuantizeFields(scale);
    MoreLevels(NormalQuantize(scale), 1, 3);
  }

  /** The fields of a record of plain values. */
  lemma PlainRecord(keys: seq<string>, values: seq<Value>, levels: nat)
    requires |keys| == |values| && AreDistinctKeys(keys) && forall i :: 0 <= i < |values| ==> IsPlain(values[i], levels)
    ensures var g := RecordOf(keys, values);
      && IsPlain(g, levels + 1) && HasKeys(g, keys)
      && forall i :: 0 <= i < |keys| ==> Field(g, keys[i]) == values[i]
  {
    hide Sorted, WellFormed, IsCanonizable, RecordOf, Field, Keys, KeySet, AreDistinctKeys;
    RecordFields(keys, values);
    RecordIsNormal(keys, values, levels + 1);
  }

  lemma V1IsStable(v: Value)
    requires NormalizeV1(v).Success?
    ensures var g := NormalizeV1(v).value;
      IsPlain(g, 4) && NormalizeV1(g) == Success(g) && Field(g, "version") == VERSION1
  {
    hide IsV1, IsPlain, RecordOf, Field, NormalQuantize, NormalizeCycles, HasKeys, AreDistinctKeys, V1_KEYS, QUANTIZE_KEYS;
    var cycles := NormalizeCycles(Field(v, "forbid_cycles")).value;
    CyclesArePlain(Field(v, "forbid_cycles"));
    var values := V1Values(v, cycles);
    V1ValuesArePlain(v, cycles);
    V1KeysDiffer();
    PlainRecord(V1_KEYS, values, 3);
    var g := RecordOf(V1_KEYS, values);
    SameV1(v, g);
    assert V1Values(g, cycles) == values;
  }

  lemma CyclesArePlain(v: Value)
    requires NormalizeCycles(v).Success?
    ensures IsPlain(NormalizeCycles(v).value, 2)
    ensures NormalizeCycles(NormalizeCycles(v).value) == NormalizeCycles(v)
  {
    hide NormalizeCycles, Sorted, WellFormed, IsCanonizable;
    CyclesAreStable(v);
  }

  lemma SameV1(v: Value, g: Value)
    requires IsV1(v)
    requires Field(g, "window") == Field(v, "window") && Field(g, "max_forman_abs") == Field(v, "max_forman_abs")
    requires Field(g, "quantize") == NormalQuantize(Field(Field(v, "quantize"), "scale"))
    requires Field(g, "max_spectral_l2_delta") == Field(v, "max_spectral_l2_delta")
    requires Field(g, "epsilon_P") == Field(v, "epsilon_P") && Field(g, "require_delta_P") == Field(v, "require_delta_P")
    ensures IsV1(g) && HasKeys(Field(g, "quantize"), QUANTIZE_KEYS) && Field(Field(g, "quantize"), "mode") == FLOOR
    ensures Field(Field(g, "quantize"), "scale") == Field(Field(v, "quantize"), "scale")
  {
    hide Field, NormalQuantize, HasKeys, Sorted, WellFormed, IsCanonizable;
    QuantizeFields(Field(Field(v, "quantize"), "scale"));
  }

  lemma WindowFields(w: Value)
    requires IsWindow(w)
    ensures var n := NormalWindow(w);
      && IsPlain(n, 3) && IsWindow(n) && NormalWindow(n) == n
  {
    hide Field, HasKeys, RecordOf, AreDistinctKeys, IsPlain;
    var values := [Field(w, "short"), Field(w, "long"), Field(w, "stride")];
    TaggedTextsDiffer(WINDOW_KEYS, ['s', 'l', 's'], [5, 4, 6]);
    forall i | 0 <= i < 3 ensures IsPlain(values[i], 0) {
      ScalarIsPlain(values[i], 0);
    }
    PlainRecord(WINDOW_KEYS, values, 0);
    PlainAtMore(NormalWindow(w), 1, 3);
    assert WINDOW_KEYS[0] == "short" && WINDOW_KEYS[1] == "long" && WINDOW_KEYS[2] == "stride";
  }

  /** A weight map in sorted form is one too. */
  lemma SortedWeightMap(w: Value, mode: Value)
    requires IsWeightMap(w, mode) && WellFormed(w)
    ensures IsWeightMap(Sorted(w), mode) && IsPlain(Sorted(w), 1)
  {
    hide IsLabel, SortMembers, Sorted, WellFormed, IsCanonizable;
    SortedObject(w.members);
    assert w == Obj(w.members);
    forall i | 0 <= i < |w.members|
      ensures IsLabel(Sorted(w).members[i].key) && AC.IsIntegerIn(Sorted(w).members[i].value, 1, MAX_WEIGHT)
    {
      var k := SortedFrom(w.members, i);
      AC.TextIsPlain(w.members[k].value);
    }
    WeightsAreShallow(w, mode);
    SortedKeeps(w, 1);
  }

  lemma WeightsAreShallow(w: Value, mode: Value)
    requires IsWeightMap(w, mode)
    ensures IsCanonizable(w, 1)
  {
  }

  /** The part of v2 that lies in the Forman block. */
  predicate IsForman(f: Value) {
    && HasKeys(f, FORMAN_KEYS) && IsMode(Field(f, "mode")) && Field(f, "learning") == FORBIDDEN
    && IsWeightMap(Field(f, "weight_map"), Field(f, "mode"))
    && AC.IsIntegerIn(Field(f, "max_abs"), 0, MAX_THRESHOLD) && AC.IsIntegerIn(Field(f, "max_window_l1"), 0, MAX_THRESHOLD)
  }

  lemma FormanFields(f: Value)
    requires IsForman(f) && WellFormed(Field(f, "weight_map"))
    ensures var n := NormalForman(f);
      IsPlain(n, 3) && IsForman(n) && NormalForman(n) == n
  {
    hide Field, HasKeys, RecordOf, AreDistinctKeys, IsPlain, IsWeightMap, Sorted, WellFormed, IsCanonizable;
    var weights := Sorted(Field(f, "weight_map"));
    var values := [Field(f, "mode"), weights, Field(f, "max_abs"), Field(f, "max_window_l1"), FORBIDDEN];
    TaggedTextsDiffer(FORMAN_KEYS, ['m', 'w', 'm', 'm', 'l'], [4, 10, 7, 13, 8]);
    SortedWeightMap(Field(f, "weight_map"), Field(f, "mode"));
    PlainIsSorted(weights, 1);
    forall i | 0 <= i < 5 ensures IsPlain(values[i], 1) {
      if i != 1 {
        ScalarIsPlain(values[i], 1);
      }
    }
    PlainRecord(FORMAN_KEYS, values, 1);
    PlainAtMore(NormalForman(f), 2, 3);
    assert FORMAN_KEYS[0] == "mode" && FORMAN_KEYS[1] == "weight_map" && FORMAN_KEYS[2] == "max_abs"
      && FORMAN_KEYS[3] == "max_window_l1" && FORMAN_KEYS[4] == "learning";
  }

  lemma PlainIsSorted(x: Value, levels: nat)
    requires IsPlain(x, levels)
    ensures Sorted(x) == x && WellFormed(x)
  {
  }

  lemma V2Parts(v: Value)
    requires NormalizeV2(v).Success?
    ensures IsForman(Field(v, "forman")) && IsWindow(Field(v, "window")) && IsV2(v)
    ensures NormalizeCycles(Field(v, "forbid_cycles")).Success?
    ensures NormalizeV2(v).value == RecordOf(V2_KEYS, V2Values(v, NormalizeCycles(Field(v, "forbid_cycles")).value))
  {
    hide RecordOf, Field, HasKeys, IsWindow, IsWeightMap, NormalizeCycles, NormalWindow, NormalForman, NormalQuantize;
  }

  lemma V2ValuesArePlain(v: Value, cycles: Value)
    requires IsV2(v) && IsWindow(Field(v, "window")) && IsForman(Field(v, "forman")) && IsPlain(cycles, 2)
    requires WellFormed(Field(Field(v, "forman"), "weight_map"))
    ensures var values := V2Values(v, cycles);
      forall i :: 0 <= i < 10 ==> IsPlain(values[i], 3)
  {
    hide IsPlain, Field, NormalQuantize, NormalWindow, NormalForman, IsForman, IsWindow, IsWeightMap;
    PlainAtMore(cycles, 2, 3);
    QuantizeIsPlain(Field(Field(v, "quantize"), "scale"));
    WindowFields(Field(v, "window"));
    FormanFields(Field(v, "forman"));
    var values := V2Values(v, cycles);
    forall i | 0 <= i < 10 ensures IsPlain(values[i], 3) {
      if i != 3 && i != 4 && i != 5 && i != 8 {
        ScalarIsPlain(values[i], 3);
      }
    }
  }

  /** The checks of profile v2 once the parts are known. */
  lemma V2Accepts(g: Value, scale: Value, cycles: Value)
    requires HasKeys(g, V2_KEYS) && Field(g, "module") == MODULE && Field(g, "version") == VERSION2
    requires Field(g, "fixture_set") == FIXTURES2 && IsWindow(Field(g, "window")) && IsForman(Field(g, "forman"))
    requires AC.IsIntegerIn(scale, 1, MAX_SCALE) && Field(g, "quantize") == NormalQuantize(scale)
    requires Field(g, "require_delta_P").Bool? && AC.IsIntegerIn(Field(g, "max_spectral_l2_delta"), 0, MAX_THRESHOLD)
    requires AC.IsIntegerIn(Field(g, "epsilon_P"), 1, 4)
    requires NormalizeCycles(Field(g, "forbid_cycles")) == Success(cycles)
    ensures NormalizeV2(g) == Success(RecordOf(V2_KEYS, V2Values(g, cycles)))
    ensures Field(Field(g, "quantize"), "scale") == scale
  {
    QuantizeFields(scale);
    FormanParts(Field(g, "forman"));
    hide RecordOf, Field, HasKeys, IsWindow, IsWeightMap, NormalizeCycles, NormalWindow, NormalForman, NormalQuantize,
      IsForman, Sorted, WellFormed, IsCanonizable;
  }

  lemma V2Fields(values: seq<Value>)
    requires |values| == 10 && forall i :: 0 <= i < 10 ==> IsPlain(values[i], 3)
    ensures |V2_KEYS| == 10
    ensures var g := RecordOf(V2_KEYS, values);
      && IsPlain(g, 4) && HasKeys(g, V2_KEYS)
      && Field(g, "module") == values[0] && Field(g, "version") == values[1] && Field(g, "fixture_set") == values[2]
      && Field(g, "window") == values[3] && Field(g, "quantize") == values[4] && Field(g, "forman") == values[5]
      && Field(g, "max_spectral_l2_delta") == values[6] && Field(g, "epsilon_P") == values[7]
      && Field(g, "forbid_cycles") == values[8] && Field(g, "require_delta_P") == values[9]
  {
    hide IsPlain, RecordOf, Field, HasKeys, AreDistinctKeys;
    V2KeysDiffer();
    PlainRecord(V2_KEYS, values, 3);
    hide V2_KEYS;
  }

  lemma V2IsStable(v: Value)
    requires NormalizeV2(v).Success? && WellFormed(Field(Field(v, "forman"), "weight_map"))
    ensures var g := NormalizeV2(v).value;
      IsPlain(g, 4) && NormalizeV2(g) == Success(g) && Field(g, "version") == VERSION2
  {
    hide NormalizeV2, IsPlain, RecordOf, Field, NormalQuantize, NormalWindow, NormalForman, NormalizeCycles, HasKeys,
      IsWindow, IsForman, WellFormed, V2_KEYS;
    V2Parts(v);
    var cycles := NormalizeCycles(Field(v, "forbid_cycles")).value;
    CyclesArePlain(Field(v, "forbid_cycles"));
    var values := V2Values(v, cycles);
    V2ValuesArePlain(v, cycles);
    V2Fields(values);
    var g := RecordOf(V2_KEYS, values);
    WindowFields(Field(v, "window"));
    FormanFields(Field(v, "forman"));
    V2Accepts(g, Field(Field(v, "quantize"), "scale"), cycles);
    assert V2Values(g, cycles) == values;
  }

  lemma FormanParts(f: Value)
    requires IsForman(f)
    ensures HasKeys(f, FORMAN_KEYS) && IsMode(Field(f, "mode")) && Field(f, "learning") == FORBIDDEN
    ensures IsWeightMap(Field(f, "weight_map"), Field(f, "mode"))
    ensures AC.IsIntegerIn(Field(f, "max_abs"), 0, MAX_THRESHOLD) && AC.IsIntegerIn(Field(f, "max_window_l1"), 0, MAX_THRESHOLD)
  {
  }

  /** A normalised geometry policy is shallow, in sorted form, and its own normal form. */
  lemma GeometryIsStable(v: Value)
    requires WellFormed(v) && IsCanonizable(v, MAX_JSON_NESTING) && Sorted(v) == v && NormalizeGeometry(v).Success?
    ensures var g := NormalizeGeometry(v).value;
      NormalizeGeometry(g) == Success(g) && IsPlain(g, 4)
  {
    hide Sorted, WellFormed, IsCanonizable, Field, NormalizeV1, NormalizeV2, HasKeys, IsPlain;
    if v.Obj? && Field(v, "version") == VERSION2 {
      FieldIsKept(v, "forman", MAX_JSON_NESTING - 1);
      V2NeedsForman(v);
      FieldIsKept(Field(v, "forman"), "weight_map", MAX_JSON_NESTING - 2);
      V2IsStable(v);
      V2NeedsForman(NormalizeV2(v).value);
    } else {
      V1IsStable(v);
    }
  }

  lemma V2NeedsForman(v: Value)
    requires NormalizeV2(v).Success?
    ensures v.Obj? && Field(v, "forman").Obj?
  {
  }

  // ---------- what a normal form keeps ----------

  /** The least rotations of the given patterns, each once, in ascending order. */
  ghost predicate AreNormalPatterns(given: seq<seq<string>>, kept: seq<seq<string>>)
    requires forall i :: 0 <= i < |given| ==> given[i] != []
  {
    && |kept| == |given|
    && (forall i :: 0 <= i < |given| ==> CanonicalRotation(StringAtMost, given[i]) in kept)
    && (forall p :: p in kept ==> exists i :: 0 <= i < |given| && p == CanonicalRotation(StringAtMost, given[i]))
    && forall i, j :: 0 <= i < j < |kept| ==> PatternAtMost(kept[i], kept[j])
  }

  lemma PatternsKeep(given: seq<seq<string>>)
    requires forall i :: 0 <= i < |given| ==> given[i] != []
    ensures AreNormalPatterns(given, Sort(Canonicals(given), PatternAtMost))
  {
    hide CanonicalRotation, PatternAtMost, Sort;
    var cs := Canonicals(given);
    var kept := Sort(cs, PatternAtMost);
    PatternAtMostIsTotal();
    SortSorts(cs, PatternAtMost);
    forall p ensures p in kept <==> p in cs {
      assert p in kept <==> p in multiset(kept);
      assert p in cs <==> p in multiset(cs);
    }
    forall i | 0 <= i < |given| ensures CanonicalRotation(StringAtMost, given[i]) in kept {
      assert cs[i] in cs;
    }
  }

  /** The normal form of forbidden cycles lists the patterns that were given, by their least rotations. */
  lemma CyclesKeep(v: Value)
    requires NormalizeCycles(v).Success?
    ensures ListsOf(v).Some? && ListsOf(NormalizeCycles(v).value).Some?
    ensures forall i :: 0 <= i < |ListsOf(v).value| ==> ListsOf(v).value[i] != []
    ensures AreNormalPatterns(ListsOf(v).value, ListsOf(NormalizeCycles(v).value).value)
  {
    hide ListsOf, ArePatterns, AreDistinctPatterns, Canonicals, PatternAtMost, Sort, AreNormalPatterns;
    var given := ListsOf(v).value;
    PatternsAreFilled(given);
    ListsRoundTrip(Sort(Canonicals(given), PatternAtMost));
    PatternsKeep(given);
  }

  /** A normalised policy of profile v1 has the bounds that were given. */
  lemma V1Keeps(v: Value)
    requires NormalizeV1(v).Success?
    ensures NormalizeCycles(Field(v, "forbid_cycles")).Success?
    ensures var g := NormalizeV1(v).value;
      && Field(g, "module") == Str("heresy-geom") && Field(g, "version") == Str("1")
      && Field(g, "fixture_set") == Str("heresy-geom-conformance/v1")
      && Field(g, "window") == Field(v, "window") && Field(Field(g, "quantize"), "scale") == Field(Field(v, "quantize"), "scale")
      && Field(Field(g, "quantize"), "mode") == Str("FLOOR") && Field(g, "max_forman_abs") == Field(v, "max_forman_abs")
      && Field(g, "max_spectral_l2_delta") == Field(v, "max_spectral_l2_delta") && Field(g, "epsilon_P") == Field(v, "epsilon_P")
      && Field(g, "forbid_cycles") == NormalizeCycles(Field(v, "forbid_cycles")).value
      && Field(g, "require_delta_P") == Field(v, "require_delta_P")
  {
    hide IsV1, IsPlain, RecordOf, Field, NormalQuantize, NormalizeCycles, HasKeys, AreDistinctKeys, V1_KEYS, QUANTIZE_KEYS;
    var cycles := NormalizeCycles(Field(v, "forbid_cycles")).value;
    CyclesArePlain(Field(v, "forbid_cycles"));
    V1ValuesArePlain(v, cycles);
    V1KeysDiffer();
    PlainRecord(V1_KEYS, V1Values(v, cycles), 3);
    QuantizeKeeps(v);
  }

  lemma QuantizeKeeps(v: Value)
    requires IsV1(v)
    ensures var q := NormalQuantize(Field(Field(v, "quantize"), "scale"));
      Field(q, "scale") == Field(Field(v, "quantize"), "scale") && Field(q, "mode") == Str("FLOOR")
  {
    hide Field, NormalQuantize;
    QuantizeFields(Field(Field(v, "quantize"), "scale"));
  }

  /** A normalised policy of profile v2 has the bounds that were given; its weights are sorted by name. */
  lemma V2Keeps(v: Value)
    requires NormalizeV2(v).Success? && WellFormed(Field(Field(v, "forman"), "weight_map"))
    ensures NormalizeCycles(Field(v, "forbid_cycles")).Success?
    ensures var g, w, f := NormalizeV2(v).value, Field(v, "window"), Field(v, "forman");
      && Field(g, "module") == Str("heresy-geom") && Field(g, "version") == Str("2")
      && Field(g, "fixture_set") == Str("heresy-geom-conformance/v2")
      && Field(Field(g, "window"), "short") == Field(w, "short") && Field(Field(g, "window"), "long") == Field(w, "long")
      && Field(Field(g, "window"), "stride") == Field(w, "stride")
      && Field(Field(g, "quantize"), "scale") == Field(Field(v, "quantize"), "scale")
      && Field(Field(g, "forman"), "mode") == Field(f, "mode")
      && Field(Field(g, "forman"), "weight_map") == Sorted(Field(f, "weight_map"))
      && Field(Field(g, "forman"), "max_abs") == Field(f, "max_abs")
      && Field(Field(g, "forman"), "max_window_l1") == Field(f, "max_window_l1")
      && Field(g, "max_spectral_l2_delta") == Field(v, "max_spectral_l2_delta") && Field(g, "epsilon_P") == Field(v, "epsilon_P")
      && Field(g, "forbid_cycles") == NormalizeCycles(Field(v, "forbid_cycles")).value
      && Field(g, "require_delta_P") == Field(v, "require_delta_P")
  {
    hide NormalizeV2, IsPlain, RecordOf, Field, NormalQuantize, NormalWindow, NormalForman, NormalizeCycles, HasKeys,
      IsWindow, IsForman, WellFormed, V2_KEYS, Sorted;
    V2Parts(v);
    var cycles := NormalizeCycles(Field(v, "forbid_cycles")).value;
    CyclesArePlain(Field(v, "forbid_cycles"));
    V2ValuesArePlain(v, cycles);
    V2Fields(V2Values(v, cycles));
    WindowKeeps(Field(v, "window"));
    FormanKeeps(Field(v, "forman"));
    QuantizeFields(Field(Field(v, "quantize"), "scale"));
  }

  lemma WindowKeeps(w: Value)
    requires IsWindow(w)
    ensures var n := NormalWindow(w);
      && Field(n, "short") == Field(w, "short") && Field(n, "long") == Field(w, "long") && Field(n, "stride") == Field(w, "stride")
  {
    hide Field, HasKeys, RecordOf, AreDistinctKeys, IsPlain;
    var values := [Field(w, "short"), Field(w, "long"), Field(w, "stride")];
    TaggedTextsDiffer(WINDOW_KEYS, ['s', 'l', 's'], [5, 4, 6]);
    forall i | 0 <= i < 3 ensures IsPlain(values[i], 0) {
      ScalarIsPlain(values[i], 0);
    }
    PlainRecord(WINDOW_KEYS, values, 0);
    assert WINDOW_KEYS[0] == "short" && WINDOW_KEYS[1] == "long" && WINDOW_KEYS[2] == "stride";
  }

  lemma FormanKeeps(f: Value)
    requires IsForman(f) && WellFormed(Field(f, "weight_map"))
    ensures var n := NormalForman(f);
      && Field(n, "mode") == Field(f, "mode") && Field(n, "weight_map") == Sorted(Field(f, "weight_map"))
      && Field(n, "max_abs") == Field(f, "max_abs") && Field(n, "max_window_l1") == Field(f, "max_window_l1")
  {
    hide Field, HasKeys, RecordOf, AreDistinctKeys, IsPlain, IsWeightMap, Sorted, WellFormed, IsCanonizable;
    var weights := Sorted(Field(f, "weight_map"));
    var values := [Field(f, "mode"), weights, Field(f, "max_abs"), Field(f, "max_window_l1"), FORBIDDEN];
    TaggedTextsDiffer(FORMAN_KEYS, ['m', 'w', 'm', 'm', 'l'], [4, 10, 7, 13, 8]);
    SortedWeightMap(Field(f, "weight_map"), Field(f, "mode"));
    forall i | 0 <= i < 5 ensures IsPlain(values[i], 1) {
      if i != 1 {
        ScalarIsPlain(values[i], 1);
      }
    }
    PlainRecord(FORMAN_KEYS, values, 1);
    assert FORMAN_KEYS[0] == "mode" && FORMAN_KEYS[1] == "weight_map" && FORMAN_KEYS[2] == "max_abs"
      && FORMAN_KEYS[3] == "max_window_l1";
  }

  // ---------- what is accepted ----------

  /** A lower-case name of 3 to 129 characters with a dot in it. */
  ghost predicate IsLabelName(s: string) {
    3 <= |s| <= 129 && '.' in s && forall c :: c in s ==> IsNameChar(c)
  }

  ghost predicate IsNameChar(c: char) {
    c in PolicyLaws.LOWER || c in PolicyLaws.DIGITS || c in "._-"
  }

  lemma LabelCharMeans(c: char)
    ensures IsLabelChar(c) <==> IsNameChar(c)
  {
    PolicyLaws.LowerIs(c);
    PolicyLaws.DigitIs(c);
    hide PolicyLaws.LOWER, PolicyLaws.DIGITS;
  }

  lemma LabelMeans(s: string)
    ensures IsLabel(s) <==> IsLabelName(s)
  {
    forall c ensures IsLabelChar(c) <==> IsNameChar(c) {
      LabelCharMeans(c);
    }
    hide IsLabelChar, IsNameChar;
    if IsLabelName(s) {
      forall i | 0 <= i < |s| ensures IsLabelChar(s[i]) {
        assert s[i] in s;
      }
    }
  }

  /** At most sixteen patterns of one to eight labels, none of which is a rotation of another. */
  ghost predicate AreLegalPatterns(ps: seq<seq<string>>) {
    && |ps| <= 16
    && (forall p :: p in ps ==> 1 <= |p| <= 8 && forall name :: name in p ==> IsLabelName(name))
    && forall i, j :: 0 <= i < j < |ps| ==> !IsRotation(ps[i], ps[j])
  }

  /** Which lists of forbidden cycles are accepted. */
  lemma CyclesMean(v: Value)
    ensures NormalizeCycles(v).Success? <==> exists ps :: v == Arr(ListValues(ps)) && AreLegalPatterns(ps)
  {
    hide IsLabel, IsLabelName, CanonicalRotation, IsRotation, Strs, StringsOf;
    if NormalizeCycles(v).Success? {
      var ps := ListsOf(v).value;
      ListsAre(v);
      PatternsMean(ps);
    }
    if ps :| v == Arr(ListValues(ps)) && AreLegalPatterns(ps) {
      ListsRoundTrip(ps);
      PatternsMean(ps);
    }
  }

  lemma ListsAre(v: Value)
    requires ListsOf(v).Some?
    ensures v == Arr(ListValues(ListsOf(v).value))
  {
    hide StringsOf, Strs;
    var ps := ListsOf(v).value;
    forall i | 0 <= i < |ps| ensures v.items[i] == Arr(Strs(ps[i])) {
      StringsAre(v.items[i]);
    }
    assert v.items == ListValues(ps);
  }

  lemma PatternMeans(p: seq<string>)
    ensures IsPattern(p) <==> 1 <= |p| <= 8 && forall name :: name in p ==> IsLabelName(name)
  {
    hide IsLabel, IsLabelName;
    forall name ensures IsLabel(name) <==> IsLabelName(name) {
      LabelMeans(name);
    }
    forall i | 0 <= i < |p| ensures p[i] in p {
    }
  }

  lemma PatternsMean(ps: seq<seq<string>>)
    ensures (ArePatterns(ps) && AreDistinctPatterns(Canonicals(ps))) <==> AreLegalPatterns(ps)
  {
    hide IsPattern, IsLabelName, CanonicalRotation, IsRotation;
    forall p ensures IsPattern(p) <==> 1 <= |p| <= 8 && forall name :: name in p ==> IsLabelName(name) {
      PatternMeans(p);
    }
    forall i | 0 <= i < |ps| ensures ps[i] in ps {
    }
    if ArePatterns(ps) {
      StringAtMostIsTotal();
      forall i, j | 0 <= i < j < |ps| ensures Canonicals(ps)[i] == Canonicals(ps)[j] <==> IsRotation(ps[i], ps[j]) {
        SameCanonical(StringAtMost, ps[i], ps[j]);
      }
    }
  }

  /** Which geometry policies of profile v1 are accepted. */
  lemma V1Means(v: Value)
    ensures NormalizeV1(v).Success? <==>
      (&& v.Obj? && Keys(v.members) == {"module", "version", "fixture_set", "window", "quantize", "max_forman_abs",
        "max_spectral_l2_delta", "epsilon_P", "forbid_cycles", "require_delta_P"}
      && Field(v, "module") == Str("heresy-geom") && Field(v, "version") == Str("1")
      && Field(v, "fixture_set") == Str("heresy-geom-conformance/v1")
      && IsQuantization(Field(v, "quantize"))
      && Field(v, "require_delta_P").Bool?
      && IsAmount(Field(v, "window"), 1, 32) && IsAmount(Field(v, "max_forman_abs"), 0, 1000000)
      && IsAmount(Field(v, "max_spectral_l2_delta"), 0, 1000000000) && IsAmount(Field(v, "epsilon_P"), 1, 4)
      && NormalizeCycles(Field(v, "forbid_cycles")).Success?)
  {
    hide Field, Keys, KeySet, NormalizeCycles, AC.IsIntegerIn, IsAmount, RecordOf, HasKeys, IsQuantization;
    V1KeysAre(v);
    QuantizationMeans(Field(v, "quantize"));
    AmountMeans(Field(v, "window"), 1, 32);
    AmountMeans(Field(v, "max_forman_abs"), 0, 1000000);
    AmountMeans(Field(v, "max_spectral_l2_delta"), 0, 1000000000);
    AmountMeans(Field(v, "epsilon_P"), 1, 4);
  }

  ghost predicate IsAmount(v: Value, minimum: nat, maximum: nat) {
    exists n :: v == Int(n) && minimum <= n <= maximum
  }

  lemma AmountMeans(v: Value, minimum: nat, maximum: nat)
    ensures AC.IsIntegerIn(v, minimum, maximum) <==> IsAmount(v, minimum, maximum)
  {
  }

  /** A scale of 1 to 64, rounding down. */
  ghost predicate IsQuantization(q: Value) {
    q.Obj? && Keys(q.members) == {"scale", "mode"} && IsAmount(Field(q, "scale"), 1, 64) && Field(q, "mode") == Str("FLOOR")
  }

  lemma QuantizationMeans(q: Value)
    ensures IsQuantization(q) <==>
      HasKeys(q, QUANTIZE_KEYS) && Field(q, "mode") == FLOOR && AC.IsIntegerIn(Field(q, "scale"), 1, MAX_SCALE)
  {
    hide Keys, Field;
    assert KeySet(QUANTIZE_KEYS) == {"scale", "mode"};
  }

  lemma V1KeysAre(v: Value)
    ensures HasKeys(v, V1_KEYS) <==> v.Obj? && Keys(v.members) == {"module", "version", "fixture_set", "window", "quantize",
      "max_forman_abs", "max_spectral_l2_delta", "epsilon_P", "forbid_cycles", "require_delta_P"}
  {
    assert KeySet(V1_KEYS) == {"module", "version", "fixture_set", "window", "quantize", "max_forman_abs",
      "max_spectral_l2_delta", "epsilon_P", "forbid_cycles", "require_delta_P"};
  }

  /** Which geometry policies of profile v2 are accepted. */
  lemma V2Means(v: Value)
    ensures NormalizeV2(v).Success? <==>
      (&& v.Obj? && Keys(v.members) == {"module", "version", "fixture_set", "window", "quantize", "forman",
        "max_spectral_l2_delta", "epsilon_P", "forbid_cycles", "require_delta_P"}
      && Field(v, "module") == Str("heresy-geom") && Field(v, "version") == Str("2")
      && Field(v, "fixture_set") == Str("heresy-geom-conformance/v2")
      && AreWidths(Field(v, "window")) && IsQuantization(Field(v, "quantize")) && AreBounds(Field(v, "forman"))
      && Field(v, "require_delta_P").Bool?
      && IsAmount(Field(v, "max_spectral_l2_delta"), 0, 1000000000) && IsAmount(Field(v, "epsilon_P"), 1, 4)
      && NormalizeCycles(Field(v, "forbid_cycles")).Success?)
  {
    hide Field, Keys, KeySet, NormalizeCycles, AC.IsIntegerIn, IsAmount, RecordOf, HasKeys, IsQuantization, IsWindow,
      IsWeightMap, AreWidths, AreBounds;
    V2KeysAre(v);
    WidthsMean(Field(v, "window"));
    QuantizationMeans(Field(v, "quantize"));
    BoundsMean(Field(v, "forman"));
    AmountMeans(Field(v, "max_spectral_l2_delta"), 0, 1000000000);
    AmountMeans(Field(v, "epsilon_P"), 1, 4);
  }

  /** A long window of at most 32 actions, a short one within it, and a stride within that. */
  ghost predicate AreWidths(w: Value) {
    && w.Obj? && Keys(w.members) == {"short", "long", "stride"}
    && exists short, long, stride :: (1 <= stride <= short <= long <= 32
      && Field(w, "short") == Int(short) && Field(w, "long") == Int(long) && Field(w, "stride") == Int(stride))
  }

  lemma WidthsMean(w: Value)
    ensures IsWindow(w) <==> AreWidths(w)
  {
    assert KeySet(WINDOW_KEYS) == {"short", "long", "stride"};
    hide Keys, Field;
  }

  /** Two bounds, and weights of one to a million just when the mode is weighted. */
  ghost predicate AreBounds(f: Value) {
    && f.Obj? && Keys(f.members) == {"mode", "weight_map", "max_abs", "max_window_l1", "learning"}
    && Field(f, "learning") == Str("forbidden")
    && IsAmount(Field(f, "max_abs"), 0, 1000000000) && IsAmount(Field(f, "max_window_l1"), 0, 1000000000)
    && Field(f, "weight_map").Obj?
    && (forall m :: m in Field(f, "weight_map").members ==> IsLabelName(m.key) && IsAmount(m.value, 1, 1000000))
    && Field(f, "mode") == Str(if Field(f, "weight_map") == Obj([]) then "unweighted" else "weighted")
  }

  lemma BoundsMean(f: Value)
    ensures AreBounds(f) <==> IsForman(f)
  {
    assert KeySet(FORMAN_KEYS) == {"mode", "weight_map", "max_abs", "max_window_l1", "learning"};
    AmountMeans(Field(f, "max_abs"), 0, 1000000000);
    AmountMeans(Field(f, "max_window_l1"), 0, 1000000000);
    WeightMapMeans(Field(f, "weight_map"));
    hide Keys, Field, IsAmount, AC.IsIntegerIn, IsLabel, IsLabelName, KeySet;
  }

  lemma WeightMapMeans(w: Value)
    ensures w.Obj? ==>
      ((forall m :: m in w.members ==> IsLabelName(m.key) && IsAmount(m.value, 1, 1000000)) <==>
        (forall i :: 0 <= i < |w.members| ==> IsLabel(w.members[i].key) && AC.IsIntegerIn(w.members[i].value, 1, MAX_WEIGHT)))
  {
    hide IsLabel, IsLabelName;
    if w.Obj? {
      forall name ensures IsLabel(name) <==> IsLabelName(name) {
        LabelMeans(name);
      }
      forall i | 0 <= i < |w.members| ensures w.members[i] in w.members {
      }
    }
  }

  lemma V2KeysAre(v: Value)
    ensures HasKeys(v, V2_KEYS) <==> v.Obj? && Keys(v.members) == {"module", "version", "fixture_set", "window", "quantize",
      "forman", "max_spectral_l2_delta", "epsilon_P", "forbid_cycles", "require_delta_P"}
  {
    assert KeySet(V2_KEYS) == {"module", "version", "fixture_set", "window", "quantize", "forman", "max_spectral_l2_delta",
      "epsilon_P", "forbid_cycles", "require_delta_P"};
  }
}
