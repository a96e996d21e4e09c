/** What the final state of a run says of its windows, when these come from a run of either geometry
    profile. */
module FinalStates {
  import opened Outcomes
  import opened Effects
  import opened Json
  import opened Fields
  import opened RunFiles
  import opened Engine
  import opened EngineKernel
  import Graphs
  import Actions
  import Records
  import GeometryFiles
  import Schedules
  import Receipts
  import WindowsV1
  import WindowsV2
  import CanonicalJson
  import Replay
  import Completeness
  import AC = ActionContract
  import GC = GeometryContract
  import PC = PolicyContract
  import GP = GeometryPolicies

  // ---------- the stream of a run ----------

  /** The decided actions of a chain as the geometry sees them; `number` names digests by integers. */
  function StreamOf(c: Chain, size: string -> nat, number: string -> Graphs.Digest): (s: Receipts.Stream)
    requires c.Valid()
    ensures |s.actions| == |s.effects| == |s.receipts| == c.Length()
    ensures forall i :: 0 <= i < c.Length() ==> s.actions[i] == AC.ActionOf(c.actions[i], size)
    ensures forall i :: 0 <= i < c.Length() ==> s.effects[i] == c.decisions[i].choice.effect
  {
    Receipts.Stream(
      seq(c.Length(), i requires 0 <= i < c.Length() => AC.ActionOf(c.actions[i], size)),
      seq(c.Length(), i requires 0 <= i < c.Length() => c.decisions[i].choice.effect),
      seq(c.Length(), i requires 0 <= i < c.Length() => number(c.receipts[i].digest)))
  }

  lemma SequenceIsKept(a: Value, size: string -> nat)
    requires IsNormal(a) && AC.NormalizeAction(a) == Success(a)
    ensures AC.ActionOf(a, size).sequence == SequenceOf(a)
    ensures Field(a, "action_id") == Str(AC.ActionOf(a, size).actionId)
  {
    hide IsNormal, AC.NormalizeAction, AC.ActionOf, Field;
    AC.ActionOfKeeps(a, size);
  }

  /** The checks of `_normalize_actions` are what the geometry relies on. */
  lemma StreamIsValid(c: Chain, size: string -> nat, number: string -> Graphs.Digest)
    requires c.Valid()
    requires HasDistinctActionIds(c.actions) && HasDistinctSequences(c.actions) && HasOrderedSequences(c.actions)
    requires forall i :: 0 <= i < c.Length() ==> IsNormal(c.actions[i]) && AC.NormalizeAction(c.actions[i]) == Success(c.actions[i])
    ensures StreamOf(c, size, number).Valid()
  {
    hide IsNormal, AC.NormalizeAction, AC.ActionOf, Field, SequenceOf;
    var actions := StreamOf(c, size, number).actions;
    forall i, j | 0 <= i < j < |actions|
      ensures actions[i].sequence < actions[j].sequence && actions[i].actionId != actions[j].actionId
    {
      SequenceIsKept(c.actions[i], size);
      SequenceIsKept(c.actions[j], size);
    }
  }

  /** The run is what `run_actions` computes from the given bytes. */
  ghost predicate Ran(s: Setting, rawPolicy: string, raws: seq<string>, current: Value, run: Run) {
    IsHashing(s.digester) && Execute(KernelOf(s), rawPolicy, raws, current) == Success(run)
  }

  /** The stream of every run is one that `build_geometry_windows` takes. */
  lemma RunHasStream(s: Setting, rawPolicy: string, raws: seq<string>, current: Value, run: Run, number: string -> Graphs.Digest)
    requires Ran(s, rawPolicy, raws, current, run)
    ensures run.chain.Valid() && StreamOf(run.chain, s.digester.size, number).Valid()
  {
    hide KernelOf, Execute, IsHashing, NormalizeActions, StreamOf, IsNormal, AC.NormalizeAction, IsLawful;
    EngineIsLawful(s);
    KernelNormalizes(s);
    RunActionsAreNormal(KernelOf(s), rawPolicy, raws, current, run);
    ActionsAreOrdered(KernelOf(s), raws);
    StreamIsValid(run.chain, s.digester.size, number);
  }

  lemma RunActionsAreNormal(k: Kernel, rawPolicy: string, raws: seq<string>, current: Value, run: Run)
    requires IsLawful(k) && Execute(k, rawPolicy, raws, current) == Success(run)
    ensures run.chain.Valid() && NormalizeActions(k, raws) == Success(run.chain.actions)
    ensures forall i :: 0 <= i < run.chain.Length() ==>
      IsNormal(run.chain.actions[i]) && k.normalizeAction(run.chain.actions[i]) == Success(run.chain.actions[i])
  {
    hide IsLawful, IsNormal, Execute, NormalizeActions, NormalizeAll, Read, Summary, RecordsUpTo, RunId, Artifacts, PolicyIdentity;
    ExecutedParts(k, rawPolicy, raws, current);
    Completeness.ChoicesOfRun(k, rawPolicy, raws, current, run);
    Completeness.NormalizedActions(k, raws);
  }

  lemma KernelNormalizes(s: Setting)
    ensures forall v :: KernelOf(s).normalizeAction(v) == AC.NormalizeAction(v)
    ensures forall v :: KernelOf(s).normalizePolicy(v) == PC.NormalizePolicy(v)
    ensures forall c, p :: KernelOf(s).geometry(c, p) == BuildGeometry(s, c, p)
  {
    hide AC.NormalizeAction, PC.NormalizePolicy, BuildGeometry;
  }

  lemma ActionsAreOrdered(k: Kernel, raws: seq<string>)
    requires NormalizeActions(k, raws).Success?
    ensures var actions := NormalizeActions(k, raws).value;
      HasDistinctActionIds(actions) && HasDistinctSequences(actions) && HasOrderedSequences(actions)
  {
    hide NormalizeAll, HasDistinctActionIds, HasDistinctSequences, HasOrderedSequences;
  }

  // ---------- the final state ----------

  lemma {:induction false} CountIsZero(windows: seq<GeometryFiles.Window>, e: Effect)
    ensures EffectCount(windows, e) == 0 <==> forall i :: 0 <= i < |windows| ==> windows[i].effect != e
  {
    if windows != [] {
      var n := |windows| - 1;
      CountIsZero(windows[..n], e);
      assert forall i :: 0 <= i < n ==> windows[..n][i] == windows[i];
    }
  }

  /** A run is allowed just when every decision and every window is. */
  lemma AllowedMeansAll(decisions: seq<Records.Decision>, g: Geometry, windows: seq<GeometryFiles.Window>)
    requires g.deny == EffectCount(windows, Deny) && g.review == EffectCount(windows, Review)
    ensures FinalState(decisions, g) == "ALLOWED" <==>
      && (forall i :: 0 <= i < |decisions| ==> decisions[i].choice.effect == Allow)
      && forall i :: 0 <= i < |windows| ==> windows[i].effect == Allow
  {
    hide FinalState;
    FinalStateMeans(decisions, g);
    CountIsZero(windows, Deny);
    CountIsZero(windows, Review);
    forall i | 0 <= i < |windows| ensures windows[i].effect in {Allow, Deny, Review} {
    }
  }

  /** The state that the summary of a run records. */
  lemma SummaryState(d: Digest, c: Chain, g: Geometry, version2: bool)
    ensures Field(SummaryOf(d, c, g, version2), "final_state") == Str(FinalState(c.decisions, g))
  {
    hide FinalState, Counts, CountOf, Head, DistinctKeys, Field;
    Completeness.SummaryKeysDiffer(d, c, g, version2);
    var m := SummaryMembers(d, c, g, version2);
    assert m[2] == Member("final_state", Str(FinalState(c.decisions, g)));
    FieldOf(m, 2);
  }

  lemma RunState(k: Kernel, rawPolicy: string, raws: seq<string>, current: Value, run: Run)
    requires Execute(k, rawPolicy, raws, current) == Success(run)
    ensures run.chain.Valid() && k.geometry(run.chain, run.policy) == Success(run.geometry)
    ensures Field(run.summary, "final_state") == Str(FinalState(run.chain.decisions, run.geometry))
  {
    hide Execute, RecordsUpTo, RunId, PolicyIdentity, Artifacts, NormalizeAll, NormalizeActions, Read, FinalState, Summary,
      Field;
    ExecutedParts(k, rawPolicy, raws, current);
    StateOfSummary(k, run.runId, rawPolicy, run.policy, run.chain, current, run.geometry, run.summary);
  }

  lemma StateOfSummary(k: Kernel, runId: string, rawPolicy: string, policy: Value, c: Chain, implementation: Value, g: Geometry,
    summary: Value)
    requires Summary(k, runId, rawPolicy, policy, c, implementation, g) == Success(summary)
    ensures Field(summary, "final_state") == Str(FinalState(c.decisions, g))
  {
    hide PolicyIdentity, FinalState, SummaryOf, IsCanonizable, Field;
    SummaryState(Digest(runId, PolicyIdentity(k, policy).value, k.digester.sha(rawPolicy), Bundle(implementation)), c, g,
      IsVersion2(policy));
  }

  // ---------- the summary, field by field ----------

  /** The indices of the decisions with that effect. */
  ghost function Having(decisions: seq<Records.Decision>, e: Effect): set<int> {
    set i | 0 <= i < |decisions| && decisions[i].choice.effect == e
  }

  lemma {:induction false} CountIsNumber(decisions: seq<Records.Decision>, e: Effect)
    ensures CountOf(decisions, e) == |Having(decisions, e)|
  {
    if decisions == [] {
      assert Having(decisions, e) == {};
    } else {
      CountIsNumber(decisions[..|decisions| - 1], e);
      HavingStep(decisions, e);
    }
  }

  lemma HavingStep(decisions: seq<Records.Decision>, e: Effect)
    requires decisions != []
    ensures var n := |decisions| - 1;
      |Having(decisions, e)| == |Having(decisions[..n], e)| + if decisions[n].choice.effect == e then 1 else 0
  {
    var n := |decisions| - 1;
    var front := Having(decisions[..n], e);
    assert Having(decisions, e) == front + if decisions[n].choice.effect == e then {n} else {};
  }

  /** The indices of the windows with that effect. */
  ghost function HavingWindow(windows: seq<GeometryFiles.Window>, e: Effect): set<int> {
    set i | 0 <= i < |windows| && windows[i].effect == e
  }

  lemma {:induction false} WindowsAreNumbered(windows: seq<GeometryFiles.Window>, e: Effect)
    ensures EffectCount(windows, e) == |HavingWindow(windows, e)|
  {
    if windows == [] {
      assert HavingWindow(windows, e) == {};
    } else {
      WindowsAreNumbered(windows[..|windows| - 1], e);
      HavingWindowStep(windows, e);
    }
  }

  lemma HavingWindowStep(windows: seq<GeometryFiles.Window>, e: Effect)
    requires windows != []
    ensures var n := |windows| - 1;
      |HavingWindow(windows, e)| == |HavingWindow(windows[..n], e)| + if windows[n].effect == e then 1 else 0
  {
    var n := |windows| - 1;
    var front := HavingWindow(windows[..n], e);
    assert HavingWindow(windows, e) == front + if windows[n].effect == e then {n} else {};
  }

  /** Three counts by effect. */
  ghost predicate AreCounts(v: Value, allow: nat, deny: nat, review: nat) {
    Field(v, "ALLOW") == Int(allow) && Field(v, "DENY") == Int(deny) && Field(v, "REVIEW") == Int(review)
  }

  lemma CountsSay(allow: nat, deny: nat, review: nat)
    ensures AreCounts(Sorted(Counts(allow, deny, review)), allow, deny, review)
  {
    var m := Counts(allow, deny, review).members;
    assert m[0].key[0] == 'A' && m[1].key[0] == 'D' && m[2].key[0] == 'R' && |m| == 3;
    FieldOf(m, 0);
    FieldOf(m, 1);
    FieldOf(m, 2);
  }

  /** What every summary says of its decisions. */
  ghost predicate SaysDecisions(v: Value, d: Digest, c: Chain) {
    && Field(v, "run_id") == Str(d.runId) && Field(v, "action_count") == Int(|c.decisions|)
    && AreCounts(Field(v, "effect_counts"), |Having(c.decisions, Allow)|, |Having(c.decisions, Deny)|,
      |Having(c.decisions, Review)|)
    && Field(v, "policy_sha256") == Str(d.policyId) && Field(v, "policy_capture_sha256") == Str(d.capture)
    && Field(v, "implementation_sha256") == d.bundle
    && Field(v, "head_receipt_sha256") == Str(if c.receipts == [] then ZERO_HASH else c.receipts[|c.receipts| - 1].digest)
    && Field(v, "actions_executed") == Bool(false)
  }

  lemma SummaryOfDecisions(d: Digest, c: Chain, g: Geometry, version2: bool)
    requires d.bundle.Str?
    ensures var v := SummaryOf(d, c, g, version2);
      SaysDecisions(v, d, c) && Field(v, "schema") == Str(if version2 then "heresy-sec.summary/v2" else "heresy-sec.summary/v1")
  {
    hide FinalState, Counts, CountOf, DistinctKeys, Field, Having, AreCounts;
    Completeness.SummaryKeysDiffer(d, c, g, version2);
    var m := SummaryMembers(d, c, g, version2);
    CountIsNumber(c.decisions, Allow);
    CountIsNumber(c.decisions, Deny);
    CountIsNumber(c.decisions, Review);
    CountsSay(CountOf(c.decisions, Allow), CountOf(c.decisions, Deny), CountOf(c.decisions, Review));
    FieldOf(m, 0);
    FieldOf(m, 1);
    FieldOf(m, 3);
    FieldOf(m, 4);
    FieldOf(m, 5);
    FieldOf(m, 6);
    FieldOf(m, 7);
    FieldOf(m, 8);
    FieldOf(m, 9);
  }

  /** What the summary of a run with geometry says of its windows. */
  ghost predicate SaysWindows(v: Value, g: Geometry) {
    && Field(v, "geometry_profile") == Str(g.profile) && Field(v, "geometry_window_count") == Int(g.allow + g.deny + g.review)
    && AreCounts(Field(v, "geometry_effect_counts"), g.allow, g.deny, g.review)
    && Field(v, "head_geometry_receipt_sha256") == Str(g.head)
  }

  lemma SummaryOfWindows(d: Digest, c: Chain, g: Geometry)
    ensures SaysWindows(SummaryOf(d, c, g, true), g)
  {
    hide FinalState, Counts, CountOf, DistinctKeys, Field, AreCounts, Head;
    Completeness.SummaryKeysDiffer(d, c, g, true);
    var m := SummaryMembers(d, c, g, true);
    CountsSay(g.allow, g.deny, g.review);
    assert m[10].key == "geometry_profile" && m[11].key == "geometry_window_count";
    FieldOf(m, 10);
    FieldOf(m, 11);
    FieldOf(m, 12);
    FieldOf(m, 13);
  }

  /** The geometry that a summary speaks of, by the windows it comes from. */
  lemma GeometrySays(s: Setting, c: Chain, policy: Value, windows: seq<GeometryFiles.Window>, g: Geometry)
    requires BuildGeometry(s, c, policy) == Success(g) && IsVersion2(policy) && s.windows(c, policy) == Success(windows)
    ensures g.allow == |HavingWindow(windows, Allow)| && g.deny == |HavingWindow(windows, Deny)|
    ensures g.review == |HavingWindow(windows, Review)| && g.allow + g.deny + g.review == |windows|
    ensures windows != [] ==> g.head == windows[|windows| - 1].digest
    ensures g.profile == if Field(Field(policy, "geometry"), "version") == Str("2") then "heresy-geom.profile/v2"
      else "heresy-geom.profile/v1"
    ensures g.files == GeometryFiles.ArtifactMap(ProfileOf(policy), windows)
  {
    hide GeometryFiles.ArtifactMap, Field, HavingWindow;
    WindowsAreNumbered(windows, Allow);
    WindowsAreNumbered(windows, Deny);
    WindowsAreNumbered(windows, Review);
    WindowsAddUp(windows);
  }

  /** The summary that a run writes: the digests of what it is about, and its decisions and windows
      counted by their effects. */
  lemma SummarySays(k: Kernel, rawPolicy: string, raws: seq<string>, current: Value, run: Run)
    requires Execute(k, rawPolicy, raws, current) == Success(run) && Bundle(current).Str?
    ensures PolicyIdentity(k, run.policy).Success?
    ensures SaysDecisions(run.summary,
      Digest(run.runId, PolicyIdentity(k, run.policy).value, k.digester.sha(rawPolicy), Bundle(current)), run.chain)
    ensures IsVersion2(run.policy) ==> SaysWindows(run.summary, run.geometry)
    ensures Field(run.summary, "schema")
         == Str(if IsVersion2(run.policy) then "heresy-sec.summary/v2" else "heresy-sec.summary/v1")
  {
    hide Execute, RecordsUpTo, RunId, PolicyIdentity, Artifacts, NormalizeAll, NormalizeActions, Read, Field, Bundle,
      SaysDecisions, SaysWindows;
    ExecutedParts(k, rawPolicy, raws, current);
    var d := Digest(run.runId, PolicyIdentity(k, run.policy).value, k.digester.sha(rawPolicy), Bundle(current));
    hide SummaryOf;
    SummaryOfDecisions(d, run.chain, run.geometry, IsVersion2(run.policy));
    SummaryOfWindows(d, run.chain, run.geometry);
  }

  /** Under a policy of the first version there are no windows: the final state is that of the decisions
      alone, and no geometry is written. */
  lemma StateWithoutGeometry(s: Setting, rawPolicy: string, raws: seq<string>, current: Value, run: Run)
    requires Ran(s, rawPolicy, raws, current, run) && Field(run.policy, "schema") != Str("heresy-sec.policy/v2")
    ensures run.geometry.files == map[]
    ensures Field(run.summary, "final_state") == Str("DENIED") <==> Having(run.chain.decisions, Deny) != {}
    ensures Field(run.summary, "final_state") == Str("ALLOWED") <==>
      Having(run.chain.decisions, Deny) == {} && Having(run.chain.decisions, Review) == {}
    ensures Field(run.summary, "final_state") in {Str("DENIED"), Str("REVIEW_REQUIRED"), Str("ALLOWED")}
  {
    hide Execute, KernelOf, IsLawful, Field, Having;
    EngineIsLawful(s);
    KernelNormalizes(s);
    RunState(KernelOf(s), rawPolicy, raws, current, run);
    NoGeometry(s, run.chain, run.policy);
    CountIsNumber(run.chain.decisions, Deny);
    CountIsNumber(run.chain.decisions, Review);
  }

  lemma NoGeometry(s: Setting, c: Chain, policy: Value)
    requires Field(policy, "schema") != Str("heresy-sec.policy/v2")
    ensures BuildGeometry(s, c, policy).Success?
    ensures var g := BuildGeometry(s, c, policy).value;
      g.files == map[] && g.allow == 0 && g.deny == 0 && g.review == 0
  {
    hide Field;
  }

  // ---------- the files of a run ----------

  /** The lines of the log: each receipt, and a line feed after it. */
  ghost predicate IsLog(text: string, receipts: seq<Records.Receipt>) {
    if receipts == [] then text == ""
    else
      var line := CanonicalJson.CanonicalText(Records.ReceiptValue(receipts[0])) + "\n";
      line <= text && IsLog(text[|line|..], receipts[1..])
  }

  lemma {:induction false} LogStarts(receipts: seq<Records.Receipt>)
    requires receipts != []
    ensures EventLog(receipts) == CanonicalJson.CanonicalText(Records.ReceiptValue(receipts[0])) + "\n" + EventLog(receipts[1..])
  {
    hide CanonicalJson.CanonicalText, Records.ReceiptValue;
    var n := |receipts| - 1;
    if n > 0 {
      LogStarts(receipts[..n]);
      assert receipts[..n][1..] == receipts[1..][..n - 1];
      assert receipts[..n][0] == receipts[0];
    }
  }

  lemma {:induction false} EventLogIsLog(receipts: seq<Records.Receipt>)
    ensures IsLog(EventLog(receipts), receipts)
  {
    hide CanonicalJson.CanonicalText, Records.ReceiptValue;
    if receipts != [] {
      LogStarts(receipts);
      EventLogIsLog(receipts[1..]);
      var line := CanonicalJson.CanonicalText(Records.ReceiptValue(receipts[0])) + "\n";
      assert EventLog(receipts)[|line|..] == EventLog(receipts[1..]);
    }
  }

  /** What a run of the engine writes beside its records and its geometry, file by file. */
  lemma RunFilesSay(s: Setting, rawPolicy: string, raws: seq<string>, current: Value, run: Run)
    requires Ran(s, rawPolicy, raws, current, run)
    ensures Holds(run.files, "policy.raw", rawPolicy)
    ensures Holds(run.files, "policy.json", CanonicalJson.CanonicalText(run.policy))
    ensures Holds(run.files, "implementation.json", CanonicalJson.CanonicalText(current))
    ensures Holds(run.files, "summary.json", CanonicalJson.CanonicalText(run.summary))
    ensures Holds(run.files, "README_ORIGIN.txt", if IsVersion2(run.policy) then s.origin2 else s.origin1)
    ensures "event-log.jsonl" in run.files && IsLog(run.files["event-log.jsonl"], run.chain.receipts)
  {
    hide Execute, KernelOf, IsLawful, EventLog, CanonicalJson.CanonicalText, RecordPath, IsVersion2, IsLog, Body;
    EngineIsLawful(s);
    KernelOrigin(s);
    RunFilesMean(KernelOf(s), rawPolicy, raws, current, run);
    EventLogIsLog(run.chain.receipts);
    FrameMembers();
  }

  /** And the records, four files for each captured action. */
  lemma RunRecordsSay(s: Setting, rawPolicy: string, raws: seq<string>, current: Value, run: Run, i: nat)
    requires Ran(s, rawPolicy, raws, current, run) && i < |raws|
    ensures run.chain.Valid() && run.chain.Length() == |raws|
    ensures Holds(run.files, "captures/" + Stem(i) + ".raw", raws[i])
    ensures Holds(run.files, "actions/" + Stem(i) + ".json", CanonicalJson.CanonicalText(run.chain.actions[i]))
    ensures Holds(run.files, "decisions/" + Stem(i) + ".json", CanonicalJson.CanonicalText(Records.DecisionValue(run.chain.decisions[i])))
    ensures Holds(run.files, "receipts/" + Stem(i) + ".json", CanonicalJson.CanonicalText(Records.ReceiptValue(run.chain.receipts[i])))
  {
    hide Execute, KernelOf, IsLawful, EventLog, CanonicalJson.CanonicalText, RecordPath, Stem, FRAME_PATHS;
    EngineIsLawful(s);
    RunFilesMean(KernelOf(s), rawPolicy, raws, current, run);
    PathsAre(i);
    assert Holds(run.files, RecordPath(CaptureSlot, i), Body(run.chain, CaptureSlot, i));
  }

  ghost predicate Holds(files: map<string, string>, path: string, body: string) {
    path in files && files[path] == body
  }

  lemma KernelOrigin(s: Setting)
    ensures forall p :: KernelOf(s).origin(p) == if IsVersion2(p) then s.origin2 else s.origin1
  {
    hide IsVersion2;
  }

  lemma PathsAre(i: nat)
    ensures RecordPath(CaptureSlot, i) == "captures/" + Stem(i) + ".raw"
    ensures RecordPath(ActionSlot, i) == "actions/" + Stem(i) + ".json"
    ensures RecordPath(DecisionSlot, i) == "decisions/" + Stem(i) + ".json"
    ensures RecordPath(ReceiptSlot, i) == "receipts/" + Stem(i) + ".json"
  {
    hide Stem;
  }

  lemma RunFilesMean(k: Kernel, rawPolicy: string, raws: seq<string>, current: Value, run: Run)
    requires IsLawful(k) && Execute(k, rawPolicy, raws, current) == Success(run)
    ensures run.chain.Valid() && run.chain.raws == raws && run.chain.Length() == |raws|
    ensures forall path :: path in FRAME_PATHS ==> path in run.files
    ensures run.files[README] == k.origin(run.policy) && run.files[POLICY_RAW] == rawPolicy
    ensures run.files[POLICY] == CanonicalJson.CanonicalText(run.policy)
    ensures run.files[IMPLEMENTATION] == CanonicalJson.CanonicalText(current)
    ensures run.files[SUMMARY] == CanonicalJson.CanonicalText(run.summary)
    ensures run.files[EVENT_LOG] == EventLog(run.chain.receipts)
    ensures forall slot: Slot, i: nat :: i < |raws| ==> Holds(run.files, RecordPath(slot, i), Body(run.chain, slot, i))
  {
    hide Execute, IsLawful, Artifacts, EventLog, CanonicalJson.CanonicalText, RecordPath, Body;
    RunKeepsRaws(k, rawPolicy, raws, current, run);
    RunHasArtifacts(k, rawPolicy, raws, current, run);
    FrameMembers();
  }

  lemma RunKeepsRaws(k: Kernel, rawPolicy: string, raws: seq<string>, current: Value, run: Run)
    requires IsLawful(k) && Execute(k, rawPolicy, raws, current) == Success(run)
    ensures run.chain.Valid() && run.chain.raws == raws && run.chain.Length() == |raws|
  {
    hide Execute, IsLawful, RecordsUpTo, RunId, Summary, Artifacts, NormalizeActions, NormalizeAll, PolicyIdentity, Read,
      AreArtifacts, IsNormal;
    RunActionsAreNormal(k, rawPolicy, raws, current, run);
    ExecutedParts(k, rawPolicy, raws, current);
    WholeChain(k, raws, run.chain.actions, run.policy, PolicyIdentity(k, run.policy).value, run.chain);
  }

  lemma WholeChain(k: Kernel, raws: seq<string>, actions: seq<Value>, policy: Value, policyId: string, c: Chain)
    requires |raws| == |actions| && RecordsUpTo(k, raws, actions, policy, policyId, |raws|) == Success(c)
    ensures c.raws == raws
  {
    hide RecordsUpTo;
    Replay.RecordsKeepInputs(k, raws, actions, policy, policyId, |raws|);
    assert raws[..|raws|] == raws;
  }

  lemma RunHasArtifacts(k: Kernel, rawPolicy: string, raws: seq<string>, current: Value, run: Run)
    requires IsLawful(k) && Execute(k, rawPolicy, raws, current) == Success(run) && run.chain.Valid()
    ensures AreArtifacts(Frame(k.origin(run.policy), rawPolicy, run.policy, current, run.summary), run.chain,
      run.geometry.files, run.files)
  {
    ExecutedParts(k, rawPolicy, raws, current);
    hide Execute, IsLawful, RecordsUpTo, RunId, Summary, Artifacts, NormalizeActions, NormalizeAll, PolicyIdentity, Read,
      EventLog, CanonicalJson.CanonicalText, RecordPath, AreArtifacts, IsExpected;
    LawfulGeometry(k, run.chain, run.policy);
    ArtifactsMean(Frame(k.origin(run.policy), rawPolicy, run.policy, current, run.summary), run.chain, run.geometry.files);
  }

  // ---------- the two profiles ----------

  function Slots(policy: Value): nat {
    RulesOf(policy).boundaries.maxIpcSlots
  }

  function TypedV1(policy: Value): WindowsV1.Policy {
    GP.PolicyV1(Field(policy, "geometry"), Slots(policy))
  }

  function TypedV2(policy: Value): WindowsV2.Policy {
    GP.PolicyV2(Field(policy, "geometry"), Slots(policy))
  }

  /** The stored windows are those of a whole run of profile v1 over the stream. */
  ghost predicate AreWindowsV1(windows: seq<GeometryFiles.Window>, st: Receipts.Stream, p: WindowsV1.Policy, h: Actions.Digests,
    receipts: WindowsV1.Receipt -> Graphs.Digest, zero: Graphs.Digest, run: seq<WindowsV1.GeometryWindow>)
  {
    && st.Valid() && p.width >= 1 && WindowsV1.IsRun(st, p, h, receipts, zero, run)
    && |windows| == |run| == |Schedules.Starts(|st.actions|, p.width)|
    && forall i :: 0 <= i < |run| ==> windows[i].effect == run[i].verdict.effect
  }

  /** The stored windows are those of a whole run of profile v2 over the stream. */
  ghost predicate AreWindowsV2(windows: seq<GeometryFiles.Window>, st: Receipts.Stream, p: WindowsV2.Policy, h: Actions.Digests,
    receipts: WindowsV2.Receipt -> Graphs.Digest, zero: Graphs.Digest, run: seq<WindowsV2.GeometryWindow>)
  {
    && st.Valid() && p.stride >= 1
    && WindowsV2.IsRun(st, p, h, receipts, zero, Schedules.Endpoints(|st.actions|, p.stride), run)
    && |windows| == |run| == |Schedules.Endpoints(|st.actions|, p.stride)|
    && forall i :: 0 <= i < |run| ==> windows[i].effect == run[i].verdict.effect
  }

  /** What `Execute` has made of the windows. */
  lemma RunGeometry(s: Setting, c: Chain, policy: Value, windows: seq<GeometryFiles.Window>, g: Geometry)
    requires BuildGeometry(s, c, policy) == Success(g) && IsVersion2(policy) && s.windows(c, policy) == Success(windows)
    ensures g.deny == EffectCount(windows, Deny) && g.review == EffectCount(windows, Review)
  {
    hide GeometryFiles.ArtifactMap;
  }

  lemma LegalV1(policy: Value)
    requires IsNormal(policy) && PC.NormalizePolicy(policy) == Success(policy) && IsVersion2(policy)
    requires ProfileOf(policy) == GeometryFiles.Profile1
    ensures WindowsV1.IsLegal(TypedV1(policy))
  {
    hide IsNormal, PC.NormalizePolicy, GC.NormalizeV1, GC.NormalizeV2, GP.PolicyV1, WindowsV1.IsLegal, GC.IsPlain, Field;
    PC.NormalGeometry(policy);
    var g := Field(policy, "geometry");
    GeometryIsV1(g);
    GP.PolicyV1IsLegal(g, Slots(policy));
  }

  lemma GeometryIsV1(g: Value)
    requires GC.NormalizeGeometry(g) == Success(g) && Field(g, "version") != Str("2")
    ensures GC.NormalizeV1(g) == Success(g)
  {
    hide GC.NormalizeV2, GC.NormalizeV1;
  }

  lemma WeightsAreWellFormed(g: Value)
    requires GC.IsPlain(g, 4) && GC.NormalizeV2(g).Success?
    ensures WellFormed(Field(Field(g, "forman"), "weight_map"))
  {
    hide Field, Sorted, WellFormed, IsCanonizable, GC.IsV2, GC.NormalizeCycles, GC.IsWindow, Keys, KeySet;
    FieldIsKept(g, "forman", 3);
    FieldIsKept(Field(g, "forman"), "weight_map", 2);
  }

  lemma LegalV2(policy: Value)
    requires IsNormal(policy) && PC.NormalizePolicy(policy) == Success(policy) && IsVersion2(policy)
    requires ProfileOf(policy) == GeometryFiles.Profile2
    ensures WindowsV2.IsLegal(TypedV2(policy))
  {
    hide IsNormal, PC.NormalizePolicy, GC.NormalizeV1, GC.NormalizeV2, GP.PolicyV2, WindowsV2.IsLegal, GC.IsPlain, Field,
      WellFormed;
    PC.NormalGeometry(policy);
    var g := Field(policy, "geometry");
    assert GC.NormalizeGeometry(g) == Success(g);
    GeometryIsV2(g);
    WeightsAreWellFormed(g);
    GP.PolicyV2IsLegal(g, Slots(policy));
  }

  lemma GeometryIsV2(g: Value)
    requires GC.NormalizeGeometry(g) == Success(g) && Field(g, "version") == Str("2")
    ensures GC.NormalizeV2(g) == Success(g)
  {
    hide GC.NormalizeV2, GC.NormalizeV1;
  }

  /** The policy of a run is in normal form. */
  lemma RunPolicy(s: Setting, rawPolicy: string, raws: seq<string>, current: Value, run: Run)
    requires Ran(s, rawPolicy, raws, current, run)
    ensures IsNormal(run.policy) && PC.NormalizePolicy(run.policy) == Success(run.policy)
  {
    hide KernelOf, IsHashing, IsLawful, IsNormal, PC.NormalizePolicy, Execute, NormalizeAll, NormalizeActions, Read,
      PolicyIdentity, RecordsUpTo, RunId, Summary, Artifacts;
    EngineIsLawful(s);
    KernelNormalizes(s);
    ExecutedParts(KernelOf(s), rawPolicy, raws, current);
    ReadIsNormal(rawPolicy);
    Completeness.AcceptedPolicy(KernelOf(s), Read(rawPolicy).value);
  }

  /** The windows that the run stored are those of profile v1 over its own stream and policy. */
  ghost predicate HasWindowsV1(s: Setting, run: Run, windows: seq<GeometryFiles.Window>, number: string -> Graphs.Digest,
    h: Actions.Digests, receipts: WindowsV1.Receipt -> Graphs.Digest, zero: Graphs.Digest,
    geometry: seq<WindowsV1.GeometryWindow>)
  {
    && run.chain.Valid() && IsVersion2(run.policy) && ProfileOf(run.policy) == GeometryFiles.Profile1
    && s.windows(run.chain, run.policy) == Success(windows)
    && AreWindowsV1(windows, StreamOf(run.chain, s.digester.size, number), TypedV1(run.policy), h, receipts, zero, geometry)
  }

  /** A run under profile v1 ends ALLOWED just when every window of it may be relied on. */
  lemma AllowedMeansLoadBearingV1(s: Setting, rawPolicy: string, raws: seq<string>, current: Value, run: Run,
    windows: seq<GeometryFiles.Window>, number: string -> Graphs.Digest, h: Actions.Digests,
    receipts: WindowsV1.Receipt -> Graphs.Digest, zero: Graphs.Digest, geometry: seq<WindowsV1.GeometryWindow>)
    requires Ran(s, rawPolicy, raws, current, run) && HasWindowsV1(s, run, windows, number, h, receipts, zero, geometry)
    ensures Field(run.summary, "final_state") == Str("ALLOWED") <==> WindowsV1.AllLoadBearing(geometry)
  {
    hide KernelOf, Execute, BuildGeometry, FinalState, Field, IsNormal, PC.NormalizePolicy, WindowsV1.IsRun, WindowsV1.IsLegal,
      TypedV1, IsHashing;
    KernelNormalizes(s);
    RunState(KernelOf(s), rawPolicy, raws, current, run);
    RunGeometry(s, run.chain, run.policy, windows, run.geometry);
    AllowedMeansAll(run.chain.decisions, run.geometry, windows);
    RunPolicy(s, rawPolicy, raws, current, run);
    LegalV1(run.policy);
    var st := StreamOf(run.chain, s.digester.size, number);
    WindowsV1.RunIsAllowed(st, TypedV1(run.policy), h, receipts, zero, geometry);
    SameEffects(run.chain, st);
  }

  /** The windows that the run stored are those of profile v2 over its own stream and policy. */
  ghost predicate HasWindowsV2(s: Setting, run: Run, windows: seq<GeometryFiles.Window>, number: string -> Graphs.Digest,
    h: Actions.Digests, receipts: WindowsV2.Receipt -> Graphs.Digest, zero: Graphs.Digest,
    geometry: seq<WindowsV2.GeometryWindow>)
  {
    && run.chain.Valid() && IsVersion2(run.policy) && ProfileOf(run.policy) == GeometryFiles.Profile2
    && s.windows(run.chain, run.policy) == Success(windows)
    && AreWindowsV2(windows, StreamOf(run.chain, s.digester.size, number), TypedV2(run.policy), h, receipts, zero, geometry)
  }

  /** A run under profile v2 ends ALLOWED just when every window of it may be relied on. */
  lemma AllowedMeansLoadBearingV2(s: Setting, rawPolicy: string, raws: seq<string>, current: Value, run: Run,
    windows: seq<GeometryFiles.Window>, number: string -> Graphs.Digest, h: Actions.Digests,
    receipts: WindowsV2.Receipt -> Graphs.Digest, zero: Graphs.Digest, geometry: seq<WindowsV2.GeometryWindow>)
    requires Ran(s, rawPolicy, raws, current, run) && HasWindowsV2(s, run, windows, number, h, receipts, zero, geometry)
    ensures Field(run.summary, "final_state") == Str("ALLOWED") <==> WindowsV2.AllLoadBearing(geometry)
  {
    hide KernelOf, Execute, BuildGeometry, FinalState, Field, IsNormal, PC.NormalizePolicy, WindowsV2.IsRun, WindowsV2.IsLegal,
      TypedV2, IsHashing;
    KernelNormalizes(s);
    RunState(KernelOf(s), rawPolicy, raws, current, run);
    RunGeometry(s, run.chain, run.policy, windows, run.geometry);
    AllowedMeansAll(run.chain.decisions, run.geometry, windows);
    RunPolicy(s, rawPolicy, raws, current, run);
    LegalV2(run.policy);
    var st := StreamOf(run.chain, s.digester.size, number);
    WindowsV2.RunIsAllowed(st, TypedV2(run.policy), h, receipts, zero, geometry);
    SameEffects(run.chain, st);
  }

  lemma SameEffects(c: Chain, st: Receipts.Stream)
    requires c.Valid() && |st.effects| == c.Length()
    requires forall i :: 0 <= i < c.Length() ==> st.effects[i] == c.decisions[i].choice.effect
    ensures (forall k :: 0 <= k < |st.effects| ==> st.effects[k] == Allow) <==>
      forall i :: 0 <= i < |c.decisions| ==> c.decisions[i].choice.effect == Allow
  {
    assert forall i :: 0 <= i < c.Length() ==> (c.decisions[i].choice.effect == Allow <==> st.effects[i] == Allow);
  }
}
