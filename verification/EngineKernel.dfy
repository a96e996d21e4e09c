/** The engine with the functions it has: the contracts of actions and policies, the evaluation of
    rules, the checks of the implementation record, and the files of the geometry.  What stays open is
    SHA-256, the two origin texts, and the contents of the geometry windows. */
module EngineKernel {
  import opened Outcomes
  import opened Effects
  import opened Json
  import opened Fields
  import opened Records
  import opened Manifest
  import opened RunFiles
  import opened GeometryFiles
  import opened Engine
  import opened Verifier
  import opened Replay
  import CanonicalJson
  import Completeness
  import Policy
  import PolicyLaws
  import Implementation
  import Network
  import Choices
  import AC = ActionContract
  import PC = PolicyContract

  /** The open parts; `windows` is `build_geometry_windows` for a policy with geometry. */
  datatype Setting = Setting(digester: Digester, windows: (Chain, Value) -> Result<seq<Window>>, origin1: string,
    origin2: string)

  function ProfileOf(policy: Value): Profile {
    if Field(Field(policy, "geometry"), "version") == Str("2") then Profile2 else Profile1
  }

  function EffectCount(windows: seq<Window>, e: Effect): nat {
    if windows == [] then 0
    else EffectCount(windows[..|windows| - 1], e) + if windows[|windows| - 1].effect == e then 1 else 0
  }

  /** `build_geometry_windows` with all that is made of the windows. */
  function BuildGeometry(s: Setting, c: Chain, policy: Value): Result<Geometry> {
    if !IsVersion2(policy) then Success(Geometry(map[], "", 0, 0, 0, ""))
    else
      var windows :- s.windows(c, policy);
      Success(Geometry(ArtifactMap(ProfileOf(policy), windows), ProfileName(ProfileOf(policy)),
        EffectCount(windows, Allow), EffectCount(windows, Deny), EffectCount(windows, Review),
        if windows == [] then ZERO_HASH else windows[|windows| - 1].digest))
  }

  /** Every window is counted once. */
  lemma {:induction false} WindowsAddUp(windows: seq<Window>)
    ensures EffectCount(windows, Allow) + EffectCount(windows, Deny) + EffectCount(windows, Review) == |windows|
  {
    if windows != [] {
      WindowsAddUp(windows[..|windows| - 1]);
    }
  }

  /** The typed rules and boundaries of a normalised policy. */
  function RulesOf(policy: Value): Policy.Policy {
    match PC.NormalizeDocument(policy)
    case Success(d) => d.policy
    case Failure(_) => Policy.Policy(Deny, Policy.Boundaries([], 0, 0, false, [], [], false, [], []), [])
  }

  function DecideOn(s: Setting, action: Value, policy: Value): Choice {
    Choices.Choose(AC.ActionOf(action, s.digester.size), RulesOf(policy), Network.EndpointOf)
  }

  function Origin(s: Setting, policy: Value): string {
    if IsVersion2(policy) then s.origin2 else s.origin1
  }

  function KernelOf(s: Setting): Kernel {
    Kernel(s.digester, v => AC.NormalizeAction(v), v => PC.NormalizePolicy(v), v => Implementation.IsImplementation(v),
      (a, p) => DecideOn(s, a, p), (c, p) => BuildGeometry(s, c, p), p => Origin(s, p))
  }

  // ---------- the laws hold ----------

  /** The digester returns 64 lower-case hexadecimal digits, as SHA-256 does. */
  ghost predicate IsHashing(d: Digester) {
    forall text :: IsDigest(d.sha(text))
  }

  lemma PolicyIsStable(v: Value)
    requires IsNormal(v) && PC.NormalizePolicy(v).Success?
    ensures var p := PC.NormalizePolicy(v).value;
      IsNormal(p) && (PC.NormalizePolicy(p).Success? ==> PC.NormalizePolicy(p) == Success(p))
  {
    hide PC.NormalizePolicy, PC.NormalizeDocument, PC.ComesFrom, IsNormal, PolicyLaws.PrefixesStay;
    PC.NormalizingPolicyTwice(v);
  }

  lemma DecidesWell(s: Setting, a: Value, p: Value)
    requires PC.NormalizePolicy(p) == Success(p)
    ensures IsChoice(DecideOn(s, a, p))
  {
    hide AC.ActionOf, Choices.Choose, IsChoice;
    PC.DocumentRules(p);
    hide PC.NormalizeDocument, PC.SourcePolicy, Policy.IsPolicy, Policy.NormalPolicy, PC.DocumentValue;
    Choices.ChooseIsChoice(AC.ActionOf(a, s.digester.size), PC.SourcePolicy(p), Network.EndpointOf);
  }

  lemma GeometryIsApart(s: Setting, c: Chain, p: Value)
    requires BuildGeometry(s, c, p).Success?
    ensures AreGeometryFiles(BuildGeometry(s, c, p).value.files)
  {
    hide ArtifactMap;
    if IsVersion2(p) {
      ArtifactMapIsGeometry(ProfileOf(p), s.windows(c, p).value);
    }
  }

  /** The functions of the engine are lawful, whatever the open parts are. */
  lemma EngineIsLawful(s: Setting)
    requires IsHashing(s.digester)
    ensures IsLawful(KernelOf(s))
  {
    hide AC.NormalizeAction, PC.NormalizePolicy, DecideOn, BuildGeometry, IsNormal, IsChoice, IsDigest, AreGeometryFiles;
    forall v | IsNormal(v) && AC.NormalizeAction(v).Success?
      ensures var a := AC.NormalizeAction(v).value; IsNormal(a) && AC.NormalizeAction(a) == Success(a)
    {
      AC.ActionIsStable(v);
    }
    forall v | IsNormal(v) && PC.NormalizePolicy(v).Success?
      ensures var p := PC.NormalizePolicy(v).value;
        IsNormal(p) && (PC.NormalizePolicy(p).Success? ==> PC.NormalizePolicy(p) == Success(p))
    {
      PolicyIsStable(v);
    }
    forall a, p | PC.NormalizePolicy(p) == Success(p) ensures IsChoice(DecideOn(s, a, p)) {
      DecidesWell(s, a, p);
    }
    forall c, p | BuildGeometry(s, c, p).Success? ensures AreGeometryFiles(BuildGeometry(s, c, p).value.files) {
      GeometryIsApart(s, c, p);
    }
  }

  // ---------- the engine replays ----------

  /** The implementation record that the engine builds of its modules is one that it accepts. */
  lemma EngineRecord(s: Setting, version: string, sources: seq<Implementation.Source>)
    requires Implementation.AreSources(s.digester, sources)
    ensures var current := Implementation.BuildImplementation(s.digester, version, sources);
      IsNormal(current) && NormalizeImplementation(KernelOf(s), current) == Success(current)
  {
    hide Implementation.AreSources, Implementation.BuildImplementation, Implementation.IsImplementation, IsNormal,
      NormalizeImplementation;
    Implementation.BuiltIsAccepted(KernelOf(s), version, sources);
  }

  /** Which implementation records this engine accepts: those of the right form whose hash is that of
      their other fields. */
  lemma AcceptedRecords(s: Setting, v: Value, core: seq<Member>)
    requires IsNormal(v) && v.Obj? && Ascending(core)
    requires forall m :: m in core <==> m in v.members && m.key != "source_bundle_sha256"
    ensures NormalizeImplementation(KernelOf(s), v).Success? <==>
      Implementation.IsImplementation(v)
      && Field(v, "source_bundle_sha256") == Str(s.digester.sha(CanonicalJson.Preimage("HERESY-SEC/IMPLEMENTATION/v1", Obj(core))))
    ensures NormalizeImplementation(KernelOf(s), v).Success? ==> NormalizeImplementation(KernelOf(s), v).value == v
  {
    hide Implementation.IsImplementation, WellFormed, IsCanonizable, Sorted, Ascending, CanonicalJson.Preimage, Field, Others;
    AscendingMembers(v);
    OthersMean(v.members, "source_bundle_sha256");
    AscendingUnique(Others(v.members, "source_bundle_sha256"), core);
  }

  /** Replay accepts exactly the directories that hold a run of this engine. */
  lemma EngineReplayIsExact(s: Setting, files: Files, version: string, sources: seq<Implementation.Source>, current: Value)
    requires IsHashing(s.digester) && Implementation.AreSources(s.digester, sources)
    requires current == Implementation.BuildImplementation(s.digester, version, sources)
    requires IsNoCollision(KernelOf(s), files, current)
    ensures Replays(KernelOf(s), files, current) <==>
      exists rawPolicy, raws :: IsRunOf(KernelOf(s), files, rawPolicy, raws, current)
  {
    hide KernelOf, IsNoCollision, IsNormal, NormalizeImplementation, Replays, IsRunOf, IsHashing, Implementation.AreSources,
      Implementation.BuildImplementation;
    EngineIsLawful(s);
    EngineRecord(s, version, sources);
    Completeness.ReplayIsExact(KernelOf(s), files, current);
  }

  /** At most 256 rules of the policy match each action. */
  ghost predicate MatchesFew(s: Setting, policy: Value, actions: seq<Value>) {
    forall i :: 0 <= i < |actions| ==>
      |Policy.Matching(RulesOf(policy).rules, AC.ActionOf(actions[i], s.digester.size))| <= Policy.MAX_SET
  }

  lemma MatchedAreMatching(s: Setting, a: Value, p: Value)
    ensures |DecideOn(s, a, p).matched| == |Policy.Matching(RulesOf(p).rules, AC.ActionOf(a, s.digester.size))|
  {
    hide Policy.Matches, Policy.Crosses, Policy.ReasonsFor, PC.NormalizeDocument, AC.ActionOf, RulesOf, Policy.Matching,
      Policy.Crossed;
    var q, t := RulesOf(p), AC.ActionOf(a, s.digester.size);
    assert |Policy.Ranked(t, q)| == |Policy.Matching(q.rules, t)| by {
      assert |multiset(Policy.Ranked(t, q))| == |multiset(Policy.Matching(q.rules, t))|;
    }
  }

  /** What `run_actions` writes verifies, and replays, just when at most 256 rules match each action. */
  lemma WrittenRunReplays(s: Setting, k: Kernel, files: Files, rawPolicy: string, raws: seq<string>, version: string,
    sources: seq<Implementation.Source>, current: Value, run: Run, rows: seq<Row>)
    requires IsHashing(s.digester) && k == KernelOf(s) && Implementation.AreSources(s.digester, sources)
    requires current == Implementation.BuildImplementation(s.digester, version, sources)
    requires Execute(k, rawPolicy, raws, current) == Success(run) && IsInventory(s.digester, run.files, rows)
    requires files == run.files[MANIFEST := ManifestBody(s.digester.sha, rows, run.runId)]
    ensures NormalizeActions(k, raws) == Success(run.chain.actions)
    ensures Verifies(k, files) <==> MatchesFew(s, run.policy, run.chain.actions)
    ensures Replays(k, files, current) <==> MatchesFew(s, run.policy, run.chain.actions)
  {
    hide KernelOf, IsNormal, NormalizeImplementation, Replays, Verifies, IsHashing, Execute, IsInventory, ManifestBody,
      MANIFEST, IsReadable, MatchesFew, DecideOn, NormalizeActions, IsLawful, Implementation.AreSources,
      Implementation.BuildImplementation;
    KernelDecides(s);
    EngineIsLawful(s);
    EngineRecord(s, version, sources);
    Completeness.WrittenRunReplays(k, files, rawPolicy, raws, current, run, rows);
    Completeness.ChoicesOfRun(k, rawPolicy, raws, current, run);
    ReadableMeans(s, run.policy, run.chain);
  }

  lemma KernelDecides(s: Setting)
    ensures KernelOf(s).digester == s.digester
    ensures forall a, p :: KernelOf(s).decide(a, p) == DecideOn(s, a, p)
  {
    hide DecideOn;
  }

  lemma ReadableMeans(s: Setting, policy: Value, c: Chain)
    requires c.Valid()
    requires forall i :: 0 <= i < c.Length() ==> c.decisions[i].choice == DecideOn(s, c.actions[i], policy)
    ensures IsReadable(c) <==> MatchesFew(s, policy, c.actions)
  {
    hide DecideOn, RulesOf, Policy.Matching, AC.ActionOf;
    forall i | 0 <= i < c.Length()
      ensures |c.decisions[i].choice.matched|
           == |Policy.Matching(RulesOf(policy).rules, AC.ActionOf(c.actions[i], s.digester.size))|
    {
      MatchedAreMatching(s, c.actions[i], policy);
    }
  }

  // ---------- policies that stop a run ----------

  /** A run needs the identity of its policy, which normalises the policy again: a policy whose cleaned
      prefixes coincide or grow too long is accepted and then stops every run. */
  lemma RunNeedsStablePrefixes(s: Setting, rawPolicy: string, raws: seq<string>, current: Value)
    requires Read(rawPolicy).Success? && PC.NormalizePolicy(Read(rawPolicy).value).Success?
    requires NormalizeActions(KernelOf(s), raws).Success?
    ensures var prefixes := PC.SourcePolicy(Read(rawPolicy).value).boundaries.filePrefixes;
      && (Execute(KernelOf(s), rawPolicy, raws, current).Success? ==> PolicyLaws.PrefixesStay(prefixes))
      && (!PolicyLaws.PrefixesStay(prefixes) ==> Execute(KernelOf(s), rawPolicy, raws, current) == Failure(ContractInvalid))
  {
    hide PC.SourcePolicy, PC.NormalizePolicy, PC.NormalizeDocument, Read, NormalizeActions, PolicyLaws.PrefixesStay, IsNormal,
      AC.NormalizeAction, DecideOn, BuildGeometry, RecordsUpTo, Summary, Artifacts, Identities, PC.ComesFrom;
    var v := Read(rawPolicy).value;
    ReadIsNormal(rawPolicy);
    PC.NormalizingPolicyTwice(v);
    assert KernelOf(s).normalizePolicy(v) == PC.NormalizePolicy(v);
  }

  // ---------- what is recorded ----------

  /** The rules of a run are those of the policy that was read, normalised. */
  lemma RunRules(s: Setting, k: Kernel, rawPolicy: string, raws: seq<string>, current: Value, run: Run)
    requires IsHashing(s.digester) && k == KernelOf(s) && Execute(k, rawPolicy, raws, current) == Success(run)
    ensures Read(rawPolicy).Success? && PC.NormalizeDocument(Read(rawPolicy).value).Success?
    ensures RulesOf(run.policy) == Policy.NormalPolicy(PC.SourcePolicy(Read(rawPolicy).value))
    ensures Policy.IsPolicy(PC.SourcePolicy(Read(rawPolicy).value))
  {
    hide Execute, RecordsUpTo, RunId, Summary, Artifacts, NormalizeAll, NormalizeActions, Read, PC.NormalizePolicy, IsNormal,
      PC.NormalizeDocument, PC.SourcePolicy, PC.ComesFrom, Policy.NormalPolicy, PolicyLaws.PrefixesStay, Policy.IsPolicy;
    ExecutedParts(k, rawPolicy, raws, current);
    ReadIsNormal(rawPolicy);
    KernelPolicy(s, Read(rawPolicy).value);
    KernelPolicy(s, run.policy);
    hide KernelOf;
    PC.NormalizingPolicyTwice(Read(rawPolicy).value);
    PC.DocumentRules(Read(rawPolicy).value);
  }

  lemma KernelPolicy(s: Setting, v: Value)
    ensures KernelOf(s).normalizePolicy(v) == PC.NormalizePolicy(v)
    ensures PC.NormalizePolicy(v).Success? ==> PC.NormalizeDocument(v).Success?
    ensures PolicyIdentity(KernelOf(s), v).Success? ==> PC.NormalizePolicy(v).Success?
  {
    hide PC.NormalizeDocument, PC.DocumentValue;
  }

  /** What a run records is the decision on the action it captured, under the policy it read: the rules
      and boundaries of the source decide, and the record names the reasons. */
  lemma RecordedDecision(s: Setting, k: Kernel, rawPolicy: string, raws: seq<string>, current: Value, run: Run, i: nat)
    requires IsHashing(s.digester) && k == KernelOf(s) && Execute(k, rawPolicy, raws, current) == Success(run)
    requires run.chain.Valid() && i < run.chain.Length()
    ensures Read(rawPolicy).Success? && PC.NormalizeDocument(Read(rawPolicy).value).Success?
    ensures |raws| == run.chain.Length() && Read(raws[i]).Success?
    ensures AC.NormalizeAction(Read(raws[i]).value) == Success(run.chain.actions[i])
    ensures var action, source := AC.ActionOf(run.chain.actions[i], s.digester.size), PC.SourcePolicy(Read(rawPolicy).value);
      exists d :: Policy.IsDecision(action, Policy.NormalPolicy(source), Network.EndpointOf, d)
        && Choices.Represents(run.chain.decisions[i].choice, d)
  {
    hide KernelOf, IsHashing, Execute, NormalizeActions, NormalizeAll, Read, PC.NormalizeDocument, PC.SourcePolicy,
      AC.NormalizeAction, AC.ActionOf, DecideOn, Policy.NormalPolicy, Policy.IsPolicy, Policy.IsDecision, Choices.Represents,
      RulesOf, IsLawful, Completeness.AreNormalized;
    EngineIsLawful(s);
    RunRules(s, k, rawPolicy, raws, current, run);
    Completeness.ChoicesOfRun(k, rawPolicy, raws, current, run);
    CapturedAction(s, k, rawPolicy, raws, current, run, i);
    var action, source := AC.ActionOf(run.chain.actions[i], s.digester.size), PC.SourcePolicy(Read(rawPolicy).value);
    KernelDecides(s);
    ChoiceIsDecision(s, run.chain.actions[i], run.policy, source);
  }

  lemma CapturedAction(s: Setting, k: Kernel, rawPolicy: string, raws: seq<string>, current: Value, run: Run, i: nat)
    requires IsLawful(k) && k == KernelOf(s) && Execute(k, rawPolicy, raws, current) == Success(run)
    requires run.chain.Valid() && i < run.chain.Length() && NormalizeActions(k, raws) == Success(run.chain.actions)
    ensures |raws| == run.chain.Length() && Read(raws[i]).Success?
    ensures AC.NormalizeAction(Read(raws[i]).value) == Success(run.chain.actions[i])
  {
    hide Execute, NormalizeActions, NormalizeAll, Read, AC.NormalizeAction, IsNormal, IsLawful, RecordsUpTo, RunId, Summary,
      Artifacts, PolicyIdentity;
    ExecutedParts(k, rawPolicy, raws, current);
    Completeness.NormalizedActions(k, raws);
    assert k.normalizeAction(Read(raws[i]).value) == AC.NormalizeAction(Read(raws[i]).value);
  }

  lemma ChoiceIsDecision(s: Setting, a: Value, p: Value, source: Policy.Policy)
    requires Policy.IsPolicy(source) && RulesOf(p) == Policy.NormalPolicy(source)
    ensures var action := AC.ActionOf(a, s.digester.size);
      exists d :: Policy.IsDecision(action, Policy.NormalPolicy(source), Network.EndpointOf, d) && Choices.Represents(DecideOn(s, a, p), d)
  {
    hide Policy.NormalPolicy, Policy.IsPolicy, Policy.IsDecision, Choices.Represents, AC.ActionOf, RulesOf, Policy.Decide,
      Choices.Choose;
    var t, q := AC.ActionOf(a, s.digester.size), Policy.NormalPolicy(source);
    Policy.NormalIdsAreDistinct(source);
    Policy.DecideIsDecision(t, q, Network.EndpointOf);
    Choices.ChoiceRepresents(t, q, Network.EndpointOf);
  }
}
