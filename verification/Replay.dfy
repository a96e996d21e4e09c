/** Replay is sound and complete: a directory replays just when it is what the engine writes. */
module Replay {
  import opened Outcomes
  import opened Effects
  import opened Actions
  import opened Json
  import opened CanonicalJson
  import opened Fields
  import opened Records
  import opened Manifest
  import opened RunFiles
  import opened Engine
  import opened Verifier
  import Policy

  // ---------- the implementation record ----------

  /** What the bundle hash of an implementation record is the hash of. */
  function BundlePreimage(v: Value): string {
    Preimage("HERESY-SEC/IMPLEMENTATION/v1", WithoutBundle(v))
  }

  /** These two records are not a collision of SHA-256. */
  ghost predicate DoNotCollide(sha: string -> string, v: Value, w: Value) {
    sha(BundlePreimage(v)) == sha(BundlePreimage(w)) ==> BundlePreimage(v) == BundlePreimage(w)
  }

  lemma {:induction false} OthersMean(members: seq<Member>, key: string)
    requires Ascending(members)
    ensures Ascending(Others(members, key))
    ensures forall m :: m in Others(members, key) <==> m in members && m.key != key
  {
    hide Before;
    if members != [] {
      OthersMean(members[1..], key);
      assert members == [members[0]] + members[1..];
      forall m | m in Others(members[1..], key) ensures Before(members[0].key, m.key) {
        assert m in members[1..];
        var i :| 0 <= i < |members[1..]| && members[1..][i] == m;
        assert members[i + 1] == m;
      }
    }
  }

  lemma OthersAreNormal(v: Value, key: string)
    requires v.Obj? && IsNormal(v)
    ensures IsNormal(Obj(Others(v.members, key)))
  {
    AscendingMembers(v);
    OthersMean(v.members, key);
    var rest := Others(v.members, key);
    AscendingIsDistinct(rest);
    forall i | 0 <= i < |rest|
      ensures WellFormed(rest[i].value) && IsCanonizable(rest[i].value, MAX_JSON_NESTING - 1) && Sorted(rest[i].value) == rest[i].value
    {
      assert rest[i] in rest;
      var j :| 0 <= j < |v.members| && v.members[j] == rest[i];
      ValuesAreSorted(v, j);
    }
    hide Before, Sorted, WellFormed, IsCanonizable;
    assert SortedValues(rest) == rest;
    SortOfAscending(rest);
    ObjectIsNormal(rest);
  }

  const BUNDLE_KEY := "source_bundle_sha256"

  lemma BundleIsMember(v: Value)
    requires v.Obj? && IsNormal(v) && Bundle(v).Str?
    ensures forall m :: m in v.members <==> m == Member(BUNDLE_KEY, Bundle(v)) || m in Others(v.members, BUNDLE_KEY)
  {
    AscendingMembers(v);
    OthersMean(v.members, BUNDLE_KEY);
    hide Valid, Sorted, Ascending, Keys;
    forall m ensures m in v.members <==> m == Member(BUNDLE_KEY, Bundle(v)) || m in Others(v.members, BUNDLE_KEY) {
      GetMeans(v.members, BUNDLE_KEY, m.value);
      GetMeans(v.members, BUNDLE_KEY, Bundle(v));
    }
  }

  /** The bundle hash stands for the whole record. */
  lemma BundleFixesImplementation(k: Kernel, v: Value, w: Value)
    requires DoNotCollide(k.digester.sha, v, w) && IsNormal(v) && IsNormal(w)
    requires NormalizeImplementation(k, v) == Success(v) && NormalizeImplementation(k, w) == Success(w)
    requires Bundle(v) == Bundle(w)
    ensures v == w
  {
    AscendingMembers(v);
    AscendingMembers(w);
    hide IsNormal, Field, Others, Preimage, CanonicalText;
    var domain := "HERESY-SEC/IMPLEMENTATION/v1";
    assert k.digester.sha(BundlePreimage(v)) == k.digester.sha(BundlePreimage(w));
    OthersAreNormal(v, BUNDLE_KEY);
    OthersAreNormal(w, BUNDLE_KEY);
    SamePreimage(domain, WithoutBundle(v), WithoutBundle(w));
    BundleIsMember(v);
    BundleIsMember(w);
    hide Ascending;
    AscendingUnique(v.members, w.members);
  }

  lemma SamePreimage(domain: string, v: Value, w: Value)
    requires IsNormal(v) && IsNormal(w) && Preimage(domain, v) == Preimage(domain, w)
    ensures v == w
  {
    hide CanonicalText, Valid, Sorted;
    var p := Preimage(domain, v);
    assert p[|domain| + 1..] == CanonicalText(v) && p[|domain| + 1..] == CanonicalText(w);
    ReadsBack(v);
    ReadsBack(w);
  }

  // ---------- soundness ----------

  lemma {:induction false} RecordsKeepInputs(k: Kernel, raws: seq<string>, actions: seq<Value>, policy: Value, policyId: string, n: nat)
    requires n <= |raws| == |actions| && RecordsUpTo(k, raws, actions, policy, policyId, n).Success?
    ensures var c := RecordsUpTo(k, raws, actions, policy, policyId, n).value;
      c.raws == raws[..n] && c.actions == actions[..n]
  {
    hide Evaluate, ActionIdentity, BuildReceipt, Head;
    if n > 0 {
      RecordsKeepInputs(k, raws, actions, policy, policyId, n - 1);
    }
  }

  lemma {:induction false} SameLog(a: seq<Receipt>, b: seq<Receipt>)
    requires ReceiptTexts(a) == ReceiptTexts(b)
    ensures EventLog(a) == EventLog(b)
  {
    hide CanonicalText, ReceiptValue;
    assert |a| == |ReceiptTexts(a)| == |b|;
    if a != [] {
      var n := |a| - 1;
      assert ReceiptTexts(a)[n] == ReceiptTexts(b)[n];
      assert ReceiptTexts(a[..n]) == ReceiptTexts(a)[..n] && ReceiptTexts(b[..n]) == ReceiptTexts(b)[..n];
      SameLog(a[..n], b[..n]);
    }
  }

  lemma RecomputedSteps(k: Kernel, s: Semantics, current: Value)
    requires s.chain.Valid() && Recompute(k, s, current).Success?
    ensures var (chain, geometry, runId, summary) := Recompute(k, s, current).value;
      && PolicyIdentity(k, s.policy).Success?
      && RecordsUpTo(k, s.chain.raws, s.chain.actions, s.policy, PolicyIdentity(k, s.policy).value, s.chain.Length())
        == Success(chain)
      && k.geometry(chain, s.policy) == Success(geometry)
      && RunId(k, s.rawPolicy, s.policy, s.chain.raws, s.chain.actions, Bundle(current)) == Success(runId)
      && Summary(k, runId, s.rawPolicy, s.policy, chain, current, geometry) == Success(summary)
  {
    hide RecordsUpTo, PolicyIdentity, RunId, Summary, Bundle;
  }

  lemma ExecuteAssembles(k: Kernel, s: Semantics, current: Value, policyId: string, chain: Chain, geometry: Geometry,
    runId: string, summary: Value)
    requires s.chain.Valid() && chain.Valid()
    requires Read(s.rawPolicy).Success? && k.normalizePolicy(Read(s.rawPolicy).value) == Success(s.policy)
    requires NormalizeActions(k, s.chain.raws) == Success(s.chain.actions)
    requires PolicyIdentity(k, s.policy) == Success(policyId)
    requires RecordsUpTo(k, s.chain.raws, s.chain.actions, s.policy, policyId, s.chain.Length()) == Success(chain)
    requires k.geometry(chain, s.policy) == Success(geometry)
    requires RunId(k, s.rawPolicy, s.policy, s.chain.raws, s.chain.actions, Bundle(current)) == Success(runId)
    requires Summary(k, runId, s.rawPolicy, s.policy, chain, current, geometry) == Success(summary)
    ensures Execute(k, s.rawPolicy, s.chain.raws, current)
         == Success(Run(s.policy, chain, geometry, runId, summary,
           Artifacts(Frame(k.origin(s.policy), s.rawPolicy, s.policy, current, summary), chain, geometry.files)))
  {
    hide Read, NormalizeActions, RunId, Summary, RecordsUpTo, PolicyIdentity, Artifacts, Bundle;
  }

  /** The run that is computed from what the directory has captured. */
  lemma ReplayExecutes(k: Kernel, files: Files, current: Value)
    requires Replays(k, files, current)
    ensures Semantic(k, files).Success?
    ensures var s := Semantic(k, files).value;
      && Recompute(k, s, current).Success?
      && var (chain, geometry, runId, summary) := Recompute(k, s, current).value;
      chain.Valid() && Execute(k, s.rawPolicy, s.chain.raws, current)
        == Success(Run(s.policy, chain, geometry, runId, summary,
          Artifacts(Frame(k.origin(s.policy), s.rawPolicy, s.policy, current, summary), chain, geometry.files)))
  {
    hide Semantic, Verifies, RunId, Summary, RecordsUpTo, PolicyIdentity, Artifacts, Agrees, CheckRest, IsRecorded, Execute,
      Recompute, Read, NormalizeActions, CanonicalText, NormalizeImplementation, IsNormal, Bundle;
    VerifiesHasSemantics(k, files);
    SemanticsAreRead(k, files);
    var s := Semantic(k, files).value;
    RecomputedSteps(k, s, current);
    RecomputedParts(k, s, current);
    var (chain, geometry, runId, summary) := Recompute(k, s, current).value;
    ExecuteAssembles(k, s, current, PolicyIdentity(k, s.policy).value, chain, geometry, runId, summary);
  }

  /** Stored and replayed records have the same bodies. */
  lemma SameBodies(k: Kernel, s: Semantics, c: Chain, geometry: Geometry, summary: Value)
    requires s.chain.Valid() && c.Valid() && Agrees(s, c, geometry, summary)
    requires c.raws == s.chain.raws && c.actions == s.chain.actions
    ensures c.Length() == s.chain.Length()
    ensures forall slot: Slot, i: nat :: i < c.Length() ==> Body(c, slot, i) == Body(s.chain, slot, i)
    ensures EventLog(c.receipts) == EventLog(s.chain.receipts)
  {
    hide CanonicalText, DecisionValue, ReceiptValue, EventLog;
    SameLog(c.receipts, s.chain.receipts);
    forall i | 0 <= i < c.Length()
      ensures CanonicalText(DecisionValue(c.decisions[i])) == CanonicalText(DecisionValue(s.chain.decisions[i]))
      ensures CanonicalText(ReceiptValue(c.receipts[i])) == CanonicalText(ReceiptValue(s.chain.receipts[i]))
    {
      assert DecisionTexts(c.decisions)[i] == DecisionTexts(s.chain.decisions)[i];
      assert ReceiptTexts(c.receipts)[i] == ReceiptTexts(s.chain.receipts)[i];
    }
  }

  /** The directory holds the run of those bytes, under a manifest for it, and the reader accepts
      its decisions: no action matched more than 256 rules. */
  ghost predicate IsRunOf(k: Kernel, files: Files, rawPolicy: string, raws: seq<string>, current: Value) {
    && Execute(k, rawPolicy, raws, current).Success?
    && var run := Execute(k, rawPolicy, raws, current).value;
    && files - {MANIFEST} == run.files
    && (exists rows :: IsManifested(k.digester, files, rows, run.runId))
    && IsReadable(run.chain)
  }

  /** No decision matches more rules than the reader accepts. */
  ghost predicate IsReadable(c: Chain) {
    forall i :: 0 <= i < |c.decisions| ==> |c.decisions[i].choice.matched| <= Policy.MAX_SET
  }

  lemma ReplayedIsReadable(k: Kernel, files: Files, s: Semantics, c: Chain, geometry: Geometry, summary: Value)
    requires s.chain.Valid() && c.Valid() && Agrees(s, c, geometry, summary)
    requires HoldsRecords(k, files, s.policy, s.chain)
    ensures IsReadable(c)
  {
    hide CanonicalText, DecisionValue, RecordPath, Body, Read;
    assert |DecisionTexts(c.decisions)| == |DecisionTexts(s.chain.decisions)|;
    forall i | 0 <= i < |c.decisions| ensures |c.decisions[i].choice.matched| <= Policy.MAX_SET {
      assert DecisionTexts(c.decisions)[i] == DecisionTexts(s.chain.decisions)[i];
      SameTextSameMatches(c.decisions[i], s.chain.decisions[i]);
      assert IsRecorded(k, files, s.chain, i);
    }
  }

  /** If `replay_run` passes, the directory is what `run_actions` makes of the captured bytes, file
      by file; only the rows of the manifest may stand in another order. */
  lemma ReplayIsSound(k: Kernel, files: Files, current: Value)
    requires IsLawful(k) && IsNoCollision(k, files, current)
    requires IsNormal(current) && NormalizeImplementation(k, current) == Success(current)
    requires Replays(k, files, current)
    ensures exists rawPolicy, raws :: IsRunOf(k, files, rawPolicy, raws, current)
  {
    hide Semantic, ExpectedSummary, Recompute, Artifacts, IsFramed, IsRecorded, CheckRest, IsNormal,
      NormalizeImplementation, IsLawful, IsNoCollision, IsManifested, CanonicalText, RecordPath, Agrees, IsReadable;
    ReplayExecutes(k, files, current);
    SemanticsAreRead(k, files);
    var s := Semantic(k, files).value;
    var (chain, geometry, runId, summary) := Recompute(k, s, current).value;
    var frame := Frame(k.origin(s.policy), s.rawPolicy, s.policy, current, summary);
    RecomputedParts(k, s, current);
    ExpectedParts(k, s, current);
    FramedImplementation(k, files, s, current);
    LawfulGeometry(k, chain, s.policy);
    ReplayedFiles(k, files, s, frame, chain, geometry);
    ReplayedIsReadable(k, files, s, chain, geometry, summary);
    var run := Execute(k, s.rawPolicy, s.chain.raws, current).value;
    hide Execute, AreArtifacts;
    ArtifactsMean(frame, chain, geometry.files);
    ArtifactsAreUnique(frame, chain, geometry.files, run.files, files - {MANIFEST});
    var rows :| IsManifested(k.digester, files, rows, runId);
    assert IsRunOf(k, files, s.rawPolicy, s.chain.raws, current);
  }

  lemma RecomputedParts(k: Kernel, s: Semantics, current: Value)
    requires s.chain.Valid() && Recompute(k, s, current).Success?
    ensures var (chain, geometry, runId, summary) := Recompute(k, s, current).value;
      && chain.Valid() && chain.raws == s.chain.raws && chain.actions == s.chain.actions
      && k.geometry(chain, s.policy) == Success(geometry)
      && RunId(k, s.rawPolicy, s.policy, s.chain.raws, s.chain.actions, Bundle(current)) == Success(runId)
  {
    hide RecordsUpTo, PolicyIdentity, RunId, Summary;
    var policyId := PolicyIdentity(k, s.policy).value;
    var n := s.chain.Length();
    RecordsKeepInputs(k, s.chain.raws, s.chain.actions, s.policy, policyId, n);
    assert s.chain.raws[..n] == s.chain.raws && s.chain.actions[..n] == s.chain.actions;
  }

  lemma ExpectedParts(k: Kernel, s: Semantics, current: Value)
    requires s.chain.Valid() && ExpectedSummary(k, s).Success? && Recompute(k, s, current).Success?
    requires Bundle(current) == Bundle(s.implementation)
    ensures ExpectedSummary(k, s).value.0 == Recompute(k, s, current).value.2
  {
    hide RecordsUpTo, PolicyIdentity, RunId, Summary;
  }

  /** The stored implementation record and the current one are not a collision. */
  ghost predicate IsNoCollision(k: Kernel, files: Files, current: Value) {
    var stored := ReadJson(files, IMPLEMENTATION);
    stored.Success? ==> DoNotCollide(k.digester.sha, stored.value, current)
  }

  lemma FramedImplementation(k: Kernel, files: Files, s: Semantics, current: Value)
    requires IsFramed(k, files, s) && IsNoCollision(k, files, current)
    requires IsNormal(current) && NormalizeImplementation(k, current) == Success(current)
    requires Bundle(current) == Bundle(s.implementation)
    ensures s.implementation == current
  {
    hide IsNormal, NormalizeImplementation, DoNotCollide, CanonicalText, Read, ReadJson;
    BundleFixesImplementation(k, s.implementation, current);
  }

  lemma ReplayedRecords(k: Kernel, files: Files, s: Semantics, c: Chain, geometry: Geometry, summary: Value)
    requires s.chain.Valid() && c.Valid() && AreGeometryFiles(geometry.files)
    requires forall i :: 0 <= i < s.chain.Length() ==> IsRecorded(k, files, s.chain, i)
    requires c.raws == s.chain.raws && c.actions == s.chain.actions && Agrees(s, c, geometry, summary)
    ensures c.Length() == s.chain.Length() && EventLog(c.receipts) == EventLog(s.chain.receipts)
    ensures forall slot: Slot, i: nat :: i < c.Length() ==>
      RecordPath(slot, i) in files && files[RecordPath(slot, i)] == Body(c, slot, i) && RecordPath(slot, i) != MANIFEST
  {
    hide Agrees, CanonicalText, EventLog, RecordPath, Body, Read, AreGeometryFiles, FRAME_PATHS, MANIFEST;
    SameBodies(k, s, c, geometry, summary);
    forall slot: Slot, i: nat | i < c.Length()
      ensures RecordPath(slot, i) in files && files[RecordPath(slot, i)] == Body(c, slot, i)
      ensures RecordPath(slot, i) != MANIFEST
    {
      assert IsRecorded(k, files, s.chain, i);
      RecordsAreApart(slot, i, geometry.files);
    }
  }

  /** The other files survive without the manifest. */
  lemma FrameIsKept(k: Kernel, files: Files, s: Semantics)
    requires IsFramed(k, files, s) && EVENT_LOG in files
    ensures var rest := files - {MANIFEST};
      && {README, POLICY_RAW, POLICY, IMPLEMENTATION, SUMMARY} <= rest.Keys && EVENT_LOG in rest
      && rest[README] == k.origin(s.policy) && rest[POLICY_RAW] == s.rawPolicy && rest[POLICY] == CanonicalText(s.policy)
      && rest[IMPLEMENTATION] == CanonicalText(s.implementation) && rest[SUMMARY] == files[SUMMARY]
      && rest[EVENT_LOG] == files[EVENT_LOG]
  {
    FrameLetters();
    hide README, POLICY_RAW, POLICY, IMPLEMENTATION, SUMMARY, EVENT_LOG, MANIFEST, CanonicalText, IsNormal,
      NormalizeImplementation, Read, ReadJson;
  }

  lemma ReplayedFiles(k: Kernel, files: Files, s: Semantics, f: Frame, c: Chain, geometry: Geometry)
    requires IsFramed(k, files, s) && s.chain.Valid() && c.Valid()
    requires forall i :: 0 <= i < s.chain.Length() ==> IsRecorded(k, files, s.chain, i)
    requires EVENT_LOG in files && files[EVENT_LOG] == EventLog(s.chain.receipts)
    requires HasGeometry(files, s.geometry.files) && HasExpectedPaths(files, s.chain.Length(), s.geometry.files)
    requires c.raws == s.chain.raws && c.actions == s.chain.actions && Agrees(s, c, geometry, f.summary)
    requires f == Frame(k.origin(s.policy), s.rawPolicy, s.policy, s.implementation, f.summary)
    requires SUMMARY in files && files[SUMMARY] == CanonicalText(s.summary)
    requires AreGeometryFiles(geometry.files)
    ensures AreArtifacts(f, c, geometry.files, files - {MANIFEST})
  {
    AgreesOnFiles(s, c, geometry, f.summary);
    hide IsFramed, Agrees, CanonicalText, EventLog, RecordPath, Body, AreGeometryFiles, IsExpected, FRAME_PATHS, IsRecorded,
      README, POLICY_RAW, POLICY, IMPLEMENTATION, SUMMARY, EVENT_LOG, MANIFEST, HasExpectedPaths, HasGeometry, AreArtifacts;
    ReplayedRecords(k, files, s, c, geometry, f.summary);
    ManifestIsUnexpected(c.Length(), geometry.files);
    ExpectedFiles(files, c.Length(), geometry.files);
    GeometryIsKept(files, geometry.files);
    FrameIsKept(k, files, s);
    ArtifactsAssemble(f, c, geometry.files, files - {MANIFEST});
  }

  lemma GeometryIsKept(files: Files, geometry: Files)
    requires HasGeometry(files, geometry) && AreGeometryFiles(geometry)
    ensures HasGeometry(files - {MANIFEST}, geometry)
  {
    hide MANIFEST, AreGeometryFiles;
    FrameIsApart(MANIFEST, geometry);
  }

  lemma ArtifactsAssemble(f: Frame, c: Chain, geometry: Files, files: Files)
    requires c.Valid() && {README, POLICY_RAW, POLICY, IMPLEMENTATION, SUMMARY} <= files.Keys && EVENT_LOG in files
    requires forall path :: path in files <==> IsExpected(c.Length(), geometry, path)
    requires files[README] == f.origin && files[POLICY_RAW] == f.rawPolicy && files[POLICY] == CanonicalText(f.policy)
    requires files[IMPLEMENTATION] == CanonicalText(f.implementation) && files[SUMMARY] == CanonicalText(f.summary)
    requires files[EVENT_LOG] == EventLog(c.receipts)
    requires forall s: Slot, i: nat :: i < c.Length() ==>
      RecordPath(s, i) in files && files[RecordPath(s, i)] == Body(c, s, i)
    requires HasGeometry(files, geometry)
    ensures AreArtifacts(f, c, geometry, files)
  {
    hide IsExpected, CanonicalText, EventLog, RecordPath, Body, README, POLICY_RAW, POLICY, IMPLEMENTATION, SUMMARY,
      EVENT_LOG;
  }

  lemma AgreesOnFiles(s: Semantics, c: Chain, geometry: Geometry, summary: Value)
    requires Agrees(s, c, geometry, summary)
    ensures geometry.files == s.geometry.files && CanonicalText(summary) == CanonicalText(s.summary)
  {
    hide CanonicalText, DecisionTexts, ReceiptTexts;
  }

  lemma ExpectedFiles(files: Files, count: nat, geometry: Files)
    requires HasExpectedPaths(files, count, geometry) && !IsExpected(count, geometry, MANIFEST)
    ensures forall path :: path in files - {MANIFEST} <==> IsExpected(count, geometry, path)
  {
    hide IsExpected, MANIFEST;
  }

  lemma ManifestIsUnexpected(count: nat, geometry: Files)
    requires AreGeometryFiles(geometry)
    ensures !IsExpected(count, geometry, MANIFEST)
  {
    FrameMembers();
    hide FRAME_PATHS, MANIFEST, RecordPath;
    FrameIsApart(MANIFEST, geometry);
  }
}
