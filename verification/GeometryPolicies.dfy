/** From a normalised geometry policy to the typed policies of the windows: what the contract checks is
    what the sensors rely on. */
module GeometryPolicies {
  import opened Outcomes
  import opened Json
  import opened Fields
  import Actions
  import Registry
  import Forman
  import WindowsV1
  import WindowsV2
  import AC = ActionContract
  import GC = GeometryContract

  function Amount(v: Value): nat {
    if v.Int? && v.n >= 0 then v.n else 0
  }

  function PatternsOf(v: Value): seq<seq<string>> {
    match GC.ListsOf(v)
    case Some(patterns) => patterns
    case None => []
  }

  /** The slots come from the boundaries of the policy. */
  function RulesOf(g: Value, slots: nat): Registry.Rules {
    Registry.Rules(Field(g, "require_delta_P") == Bool(true), PatternsOf(Field(g, "forbid_cycles")), slots)
  }

  function Scale(g: Value): nat {
    Amount(Field(Field(g, "quantize"), "scale"))
  }

  function PolicyV1(g: Value, slots: nat): WindowsV1.Policy {
    WindowsV1.Policy(Amount(Field(g, "window")), Scale(g), Amount(Field(g, "max_forman_abs")),
      Amount(Field(g, "max_spectral_l2_delta")), Amount(Field(g, "epsilon_P")), RulesOf(g, slots))
  }

  function WeightsOf(members: seq<Member>): map<string, nat> {
    if members == [] then map[]
    else
      var last := members[|members| - 1];
      WeightsOf(members[..|members| - 1])[last.key := Amount(last.value)]
  }

  function FormanPolicy(f: Value): Forman.Policy {
    var weights := Field(f, "weight_map");
    Forman.Policy(Field(f, "mode") == Str("weighted"), if weights.Obj? then WeightsOf(weights.members) else map[],
      Amount(Field(f, "max_abs")), Amount(Field(f, "max_window_l1")))
  }

  function PolicyV2(g: Value, slots: nat): WindowsV2.Policy {
    var w := Field(g, "window");
    WindowsV2.Policy(Amount(Field(w, "short")), Amount(Field(w, "long")), Amount(Field(w, "stride")), Scale(g),
      FormanPolicy(Field(g, "forman")), Amount(Field(g, "max_spectral_l2_delta")), Amount(Field(g, "epsilon_P")),
      RulesOf(g, slots))
  }

  lemma PatternsAreFilled(v: Value)
    requires GC.NormalizeCycles(v).Success?
    ensures forall pattern :: pattern in PatternsOf(v) ==> |pattern| >= 1
  {
    hide GC.ListsOf, GC.AreDistinctPatterns, GC.Canonicals, GC.IsLabel;
  }

  lemma {:induction false} WeightsAreLegal(members: seq<Member>)
    requires forall i :: 0 <= i < |members| ==> AC.IsIntegerIn(members[i].value, 1, GC.MAX_WEIGHT)
    ensures forall name :: name in WeightsOf(members) ==> 1 <= WeightsOf(members)[name] <= Forman.MAX_WEIGHT
  {
    if members != [] {
      WeightsAreLegal(members[..|members| - 1]);
    }
  }

  /** A normalised policy of profile v1 is one that `WindowsV1.BuildWindows` takes. */
  lemma PolicyV1IsLegal(v: Value, slots: nat)
    requires GC.NormalizeV1(v).Success?
    ensures WindowsV1.IsLegal(PolicyV1(GC.NormalizeV1(v).value, slots))
  {
    hide GC.NormalizeV1, Field, PatternsOf, GC.NormalizeCycles, GC.IsPlain;
    GC.V1IsStable(v);
    var g := GC.NormalizeV1(v).value;
    ChecksV1(g);
    PatternsAreFilled(Field(g, "forbid_cycles"));
  }

  lemma ChecksV1(g: Value)
    requires GC.NormalizeV1(g).Success?
    ensures GC.IsV1(g) && GC.NormalizeCycles(Field(g, "forbid_cycles")).Success?
  {
    hide GC.IsV1, Field, GC.NormalizeCycles, GC.HasKeys, RecordOf;
  }

  /** A normalised policy of profile v2 is one that `WindowsV2.BuildWindows` takes. */
  lemma PolicyV2IsLegal(v: Value, slots: nat)
    requires GC.NormalizeV2(v).Success? && WellFormed(Field(Field(v, "forman"), "weight_map"))
    ensures WindowsV2.IsLegal(PolicyV2(GC.NormalizeV2(v).value, slots))
  {
    hide GC.NormalizeV2, Field, PatternsOf, GC.NormalizeCycles, GC.IsPlain, WellFormed, WeightsOf, GC.IsLabel, GC.HasKeys;
    GC.V2IsStable(v);
    var g := GC.NormalizeV2(v).value;
    ChecksV2(g);
    PatternsAreFilled(Field(g, "forbid_cycles"));
    WeightsAreLegal(Field(Field(g, "forman"), "weight_map").members);
  }

  lemma ChecksV2(g: Value)
    requires GC.NormalizeV2(g).Success?
    ensures GC.IsV2(g) && GC.IsWindow(Field(g, "window")) && GC.NormalizeCycles(Field(g, "forbid_cycles")).Success?
  {
    hide GC.IsV2, GC.IsWindow, Field, GC.NormalizeCycles, GC.HasKeys, RecordOf;
  }

  // ---------- nothing is lost on the way ----------

  /** The typed policy of profile v1 has the bounds of the document, and its patterns in normal form. */
  lemma PolicyV1Says(v: Value, slots: nat)
    requires GC.NormalizeV1(v).Success?
    ensures GC.ListsOf(Field(v, "forbid_cycles")).Some?
    ensures forall p :: p in GC.ListsOf(Field(v, "forbid_cycles")).value ==> p != []
    ensures var p := PolicyV1(GC.NormalizeV1(v).value, slots);
      && Field(v, "window") == Int(p.width) && Field(Field(v, "quantize"), "scale") == Int(p.scale)
      && Field(v, "max_forman_abs") == Int(p.maxFormanAbs) && Field(v, "max_spectral_l2_delta") == Int(p.maxDelta)
      && Field(v, "epsilon_P") == Int(p.epsilon) && Field(v, "require_delta_P") == Bool(p.rules.requireDeltaP)
      && p.rules.maxIpcSlots == slots
      && GC.AreNormalPatterns(GC.ListsOf(Field(v, "forbid_cycles")).value, p.rules.forbidCycles)
  {
    V1Parts(v);
    hide GC.NormalizeV1, Field, PatternsOf, GC.NormalizeCycles, GC.ListsOf, GC.AreNormalPatterns;
    GC.V1Keeps(v);
    PatternsAreKept(Field(v, "forbid_cycles"));
  }

  lemma V1Parts(v: Value)
    requires GC.NormalizeV1(v).Success?
    ensures GC.IsV1(v)
  {
    hide GC.IsV1, Field, GC.NormalizeCycles, GC.HasKeys, RecordOf;
  }

  lemma PatternsAreKept(v: Value)
    requires GC.NormalizeCycles(v).Success?
    ensures GC.ListsOf(v).Some? && forall p :: p in GC.ListsOf(v).value ==> p != []
    ensures GC.AreNormalPatterns(GC.ListsOf(v).value, PatternsOf(GC.NormalizeCycles(v).value))
  {
    hide GC.NormalizeCycles, GC.AreNormalPatterns, GC.ListsOf;
    GC.CyclesKeep(v);
  }

  lemma {:induction false} WeightsAre(members: seq<Member>, name: string, n: nat)
    requires DistinctKeys(members) && forall i :: 0 <= i < |members| ==> members[i].value.Int? && members[i].value.n >= 0
    ensures (name in WeightsOf(members) && WeightsOf(members)[name] == n) <==> Member(name, Int(n)) in members
    ensures name in WeightsOf(members) ==> exists i :: 0 <= i < |members| && members[i].key == name
  {
    if members != [] {
      var k := |members| - 1;
      WeightsAre(members[..k], name, n);
      assert members == members[..k] + [members[k]];
    }
  }

  /** And so does that of profile v2, weight by weight. */
  lemma PolicyV2Says(v: Value, slots: nat)
    requires GC.NormalizeV2(v).Success? && WellFormed(Field(Field(v, "forman"), "weight_map"))
    ensures GC.ListsOf(Field(v, "forbid_cycles")).Some?
    ensures forall p :: p in GC.ListsOf(Field(v, "forbid_cycles")).value ==> p != []
    ensures var p, w, f := PolicyV2(GC.NormalizeV2(v).value, slots), Field(v, "window"), Field(v, "forman");
      && Field(w, "short") == Int(p.short) && Field(w, "long") == Int(p.long) && Field(w, "stride") == Int(p.stride)
      && Field(Field(v, "quantize"), "scale") == Int(p.scale)
      && Field(f, "mode") == Str(if p.forman.weighted then "weighted" else "unweighted")
      && Field(f, "max_abs") == Int(p.forman.maxAbs) && Field(f, "max_window_l1") == Int(p.forman.maxWindowL1)
      && Field(f, "weight_map").Obj?
      && (forall name, n: nat ::
        ((name in p.forman.weightMap && p.forman.weightMap[name] == n) <==> Member(name, Int(n)) in Field(f, "weight_map").members))
      && Field(v, "max_spectral_l2_delta") == Int(p.maxDelta)
      && Field(v, "epsilon_P") == Int(p.epsilon) && Field(v, "require_delta_P") == Bool(p.rules.requireDeltaP)
      && p.rules.maxIpcSlots == slots
      && GC.AreNormalPatterns(GC.ListsOf(Field(v, "forbid_cycles")).value, p.rules.forbidCycles)
  {
    hide GC.NormalizeV2, Field, PatternsOf, GC.NormalizeCycles, GC.ListsOf, GC.AreNormalPatterns, WellFormed, WeightsOf,
      GC.IsWeightMap, GC.HasKeys, Sorted;
    GC.V2Parts(v);
    GC.V2Keeps(v);
    PatternsAreKept(Field(v, "forbid_cycles"));
    WeightsAreKept(Field(Field(v, "forman"), "weight_map"), Field(Field(v, "forman"), "mode"));
  }

  lemma WeightsAreKept(w: Value, mode: Value)
    requires GC.IsWeightMap(w, mode) && WellFormed(w)
    ensures w.Obj? && Sorted(w).Obj?
    ensures forall name, n: nat ::
      ((name in WeightsOf(Sorted(w).members) && WeightsOf(Sorted(w).members)[name] == n) <==> Member(name, Int(n)) in w.members)
  {
    hide GC.IsLabel, WeightsOf, Sorted, WellFormed;
    SortedWeights(w, mode);
    var sorted := Sorted(w).members;
    forall name, n: nat
      ensures (name in WeightsOf(sorted) && WeightsOf(sorted)[name] == n) <==> Member(name, Int(n)) in w.members
    {
      WeightsAre(sorted, name, n);
    }
  }

  lemma SortedWeights(w: Value, mode: Value)
    requires GC.IsWeightMap(w, mode) && WellFormed(w)
    ensures w.Obj? && Sorted(w).Obj? && DistinctKeys(Sorted(w).members)
    ensures forall m :: m in Sorted(w).members <==> m in w.members
    ensures forall i :: 0 <= i < |Sorted(w).members| ==> Sorted(w).members[i].value.Int? && Sorted(w).members[i].value.n >= 0
  {
    hide GC.IsLabel, KeyAtMost, SortMembers;
    assert SortedValues(w.members) == w.members;
    SortKeeps(w.members);
    SortAscends(w.members);
    AscendingIsDistinct(SortMembers(w.members));
    var sorted := SortMembers(w.members);
    forall i | 0 <= i < |sorted| ensures sorted[i].value.Int? && sorted[i].value.n >= 0 {
      assert sorted[i] in w.members;
    }
  }
}
