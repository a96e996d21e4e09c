/** Verifying and replaying stored runs: `verify_run_directory` and `replay_run` (engine.py). */
module Verifier {
  import opened Outcomes
  import opened Effects
  import opened Actions
  import opened Json
  import opened CanonicalJson
  import opened Fields
  import opened Records
  import opened Manifest
  import opened RunFiles
  import opened Engine
  import Policy

  // ---------- _semantic_records ----------

  function ReadFile(files: Files, path: string): Result<string> {
    if path in files then Success(files[path]) else Failure(RunArtifactMissing)
  }

  function ReadJson(files: Files, path: string): Result<Value> {
    var body :- ReadFile(files, path);
    Read(body)
  }

  predicate Binds(k: Kernel, r: Receipt, index: nat, raw: string, actionId: string, policyId: string, d: Decision, previous: string) {
    && r.index == index && r.capture == k.digester.sha(raw) && r.action == actionId && r.policy == policyId
    && r.decision == d.digest && r.previous == previous
  }

  /** The action of a record: in normal form what was captured, and stored canonically. */
  function ReadAction(k: Kernel, files: Files, i: nat, raw: string): Result<Value> {
    var stored :- ReadJson(files, RecordPath(ActionSlot, i));
    var action :- k.normalizeAction(stored);
    var captured :- Read(raw);
    var again :- k.normalizeAction(captured);
    if again != action then Failure(ActionCaptureMismatch)
    else if files[RecordPath(ActionSlot, i)] != CanonicalText(action) then Failure(ActionCanonicalMismatch)
    else Success(action)
  }

  function ReadDecision(k: Kernel, files: Files, i: nat): Result<Decision> {
    var stored :- ReadJson(files, RecordPath(DecisionSlot, i));
    NormalizeDecision(k.digester.sha, stored)
  }

  function ReadReceipt(k: Kernel, files: Files, i: nat): Result<Receipt> {
    var stored :- ReadJson(files, RecordPath(ReceiptSlot, i));
    NormalizeReceipt(k.digester.sha, stored)
  }

  /** Decision and receipt are stored canonically, and bind what comes before them. */
  function CheckLineage(k: Kernel, files: Files, i: nat, raw: string, action: Value, policy: Value, decision: Decision,
    receipt: Receipt, previous: string): Result<()>
  {
    if ReadFile(files, RecordPath(DecisionSlot, i)) != Success(CanonicalText(DecisionValue(decision))) then
      Failure(DecisionCanonicalMismatch)
    else if ReadFile(files, RecordPath(ReceiptSlot, i)) != Success(CanonicalText(ReceiptValue(receipt))) then
      Failure(ReceiptCanonicalMismatch)
    else
      var actionId :- ActionIdentity(k, action);
      if decision.action != actionId then Failure(DecisionLineageMismatch)
      else
        var policyId :- PolicyIdentity(k, policy);
        if decision.policy != policyId then Failure(DecisionLineageMismatch)
        else if !Binds(k, receipt, i, raw, actionId, policyId, decision, previous) then Failure(ReceiptLineageMismatch)
        else Success(())
  }

  /** One round of the loop of `_semantic_records`. */
  function ReadRecord(k: Kernel, files: Files, policy: Value, c: Chain): (r: Result<Chain>)
    requires c.Valid()
    ensures r.Success? ==> r.value.Valid() && r.value.Length() == c.Length() + 1
  {
    hide ReadAction, ReadDecision, ReadReceipt, CheckLineage, RecordPath, ReadFile, Head;
    var i := c.Length();
    var raw :- ReadFile(files, RecordPath(CaptureSlot, i));
    var action :- ReadAction(k, files, i, raw);
    var decision :- ReadDecision(k, files, i);
    var receipt :- ReadReceipt(k, files, i);
    var checked :- CheckLineage(k, files, i, raw, action, policy, decision, receipt, Head(c.receipts));
    Success(c.Plus(raw, action, decision, receipt))
  }

  function ReadUpTo(k: Kernel, files: Files, policy: Value, n: nat): (r: Result<Chain>)
    ensures r.Success? ==> r.value.Valid() && r.value.Length() == n
  {
    hide ReadRecord;
    if n == 0 then Success(EMPTY)
    else
      var before :- ReadUpTo(k, files, policy, n - 1);
      ReadRecord(k, files, policy, before)
  }

  // ---------- what reading a record establishes ----------

  /** What reading the records has established, record by record. */
  ghost predicate IsRecorded(k: Kernel, files: Files, c: Chain, i: nat)
    requires c.Valid() && i < c.Length()
  {
    && (forall s: Slot :: RecordPath(s, i) in files && files[RecordPath(s, i)] == Body(c, s, i))
    && Read(c.raws[i]).Success? && k.normalizeAction(Read(c.raws[i]).value) == Success(c.actions[i])
    && |c.decisions[i].choice.matched| <= Policy.MAX_SET
  }

  /** Decision and receipt of a record carry their own hashes, and bind what belongs to the record and
      the receipt before it. */
  ghost predicate IsLinked(k: Kernel, policy: Value, c: Chain, i: nat)
    requires c.Valid() && i < c.Length()
  {
    var d := c.decisions[i];
    && ActionIdentity(k, c.actions[i]) == Success(d.action) && PolicyIdentity(k, policy) == Success(d.policy)
    && IsBound(k, c, d.policy, i) && IsSealed(k, c, i)
  }

  lemma RecordParts(k: Kernel, files: Files, policy: Value, c: Chain)
    requires c.Valid() && ReadRecord(k, files, policy, c).Success?
    ensures var d, i := ReadRecord(k, files, policy, c).value, c.Length();
      && d == c.Plus(d.raws[i], d.actions[i], d.decisions[i], d.receipts[i])
      && ReadFile(files, RecordPath(CaptureSlot, i)) == Success(d.raws[i])
      && ReadAction(k, files, i, d.raws[i]) == Success(d.actions[i])
      && ReadDecision(k, files, i) == Success(d.decisions[i]) && ReadReceipt(k, files, i) == Success(d.receipts[i])
      && CheckLineage(k, files, i, d.raws[i], d.actions[i], policy, d.decisions[i], d.receipts[i], Head(c.receipts)).Success?
  {
    hide RecordPath, ReadAction, ReadDecision, ReadReceipt, CheckLineage, ReadFile, Head;
  }

  lemma ActionIsStored(k: Kernel, files: Files, i: nat, raw: string, action: Value)
    requires ReadAction(k, files, i, raw) == Success(action)
    ensures ReadFile(files, RecordPath(ActionSlot, i)) == Success(CanonicalText(action))
    ensures Read(raw).Success? && k.normalizeAction(Read(raw).value) == Success(action)
  {
    hide RecordPath, Read, CanonicalText;
  }

  lemma DecisionIsShort(k: Kernel, files: Files, i: nat)
    requires ReadDecision(k, files, i).Success?
    ensures |ReadDecision(k, files, i).value.choice.matched| <= Policy.MAX_SET
  {
    hide RecordPath, Read, NormalizeDecision;
    ReadDecisionIsShort(k.digester.sha, ReadJson(files, RecordPath(DecisionSlot, i)).value);
  }

  lemma LineageIsStored(k: Kernel, files: Files, i: nat, raw: string, action: Value, policy: Value, decision: Decision,
    receipt: Receipt, previous: string)
    requires CheckLineage(k, files, i, raw, action, policy, decision, receipt, previous).Success?
    ensures ReadFile(files, RecordPath(DecisionSlot, i)) == Success(CanonicalText(DecisionValue(decision)))
    ensures ReadFile(files, RecordPath(ReceiptSlot, i)) == Success(CanonicalText(ReceiptValue(receipt)))
  {
    hide RecordPath, ReadFile, CanonicalText, ActionIdentity, PolicyIdentity, Binds, DecisionValue, ReceiptValue;
  }

  lemma SlotsAreStored(files: Files, c: Chain, i: nat)
    requires c.Valid() && i < c.Length()
    requires ReadFile(files, RecordPath(CaptureSlot, i)) == Success(c.raws[i])
    requires ReadFile(files, RecordPath(ActionSlot, i)) == Success(CanonicalText(c.actions[i]))
    requires ReadFile(files, RecordPath(DecisionSlot, i)) == Success(CanonicalText(DecisionValue(c.decisions[i])))
    requires ReadFile(files, RecordPath(ReceiptSlot, i)) == Success(CanonicalText(ReceiptValue(c.receipts[i])))
    ensures forall s: Slot :: RecordPath(s, i) in files && files[RecordPath(s, i)] == Body(c, s, i)
  {
    hide RecordPath, CanonicalText, DecisionValue, ReceiptValue;
    forall s: Slot ensures RecordPath(s, i) in files && files[RecordPath(s, i)] == Body(c, s, i) {
      match s
      case CaptureSlot =>
      case ActionSlot =>
      case DecisionSlot =>
      case ReceiptSlot =>
    }
  }

  lemma RecordIsRead(k: Kernel, files: Files, policy: Value, c: Chain)
    requires c.Valid() && ReadRecord(k, files, policy, c).Success?
    ensures IsRecorded(k, files, ReadRecord(k, files, policy, c).value, c.Length())
  {
    RecordParts(k, files, policy, c);
    hide ReadRecord, RecordPath, Read, ReadFile, ReadAction, ReadDecision, CheckLineage, CanonicalText, DecisionValue,
      ReceiptValue, Head, Body, IsRecorded;
    var d, i := ReadRecord(k, files, policy, c).value, c.Length();
    ActionIsStored(k, files, i, d.raws[i], d.actions[i]);
    DecisionIsShort(k, files, i);
    LineageIsStored(k, files, i, d.raws[i], d.actions[i], policy, d.decisions[i], d.receipts[i], Head(c.receipts));
    RecordedAssembles(k, files, d, i);
  }

  lemma ReadIsSealed(k: Kernel, files: Files, c: Chain, i: nat)
    requires c.Valid() && i < c.Length()
    requires ReadDecision(k, files, i) == Success(c.decisions[i]) && ReadReceipt(k, files, i) == Success(c.receipts[i])
    ensures IsSealed(k, c, i)
  {
    hide RecordPath, Read, DecisionDigest, ReceiptDigest, Keys, Field, ReasonsOf, MatchedOf, IsSelected, SelectedOf, IsDigest,
      Policy.AreIdentifiers, EffectOfName;
  }

  lemma LineageIsLinked(k: Kernel, files: Files, policy: Value, c: Chain, raw: string, action: Value, decision: Decision,
    receipt: Receipt, d: Chain)
    requires c.Valid() && d == c.Plus(raw, action, decision, receipt)
    requires CheckLineage(k, files, c.Length(), raw, action, policy, decision, receipt, Head(c.receipts)).Success?
    requires IsSealed(k, d, c.Length())
    ensures IsLinked(k, policy, d, c.Length())
  {
    hide RecordPath, ReadFile, CanonicalText, ActionIdentity, PolicyIdentity, DecisionValue, ReceiptValue, ZERO_HASH,
      IsSealed;
    assert d.actions[c.Length()] == action && d.decisions[c.Length()] == decision;
  }

  lemma RecordIsLinked(k: Kernel, files: Files, policy: Value, c: Chain)
    requires c.Valid() && ReadRecord(k, files, policy, c).Success?
    ensures IsLinked(k, policy, ReadRecord(k, files, policy, c).value, c.Length())
  {
    RecordParts(k, files, policy, c);
    hide ReadRecord, RecordPath, ReadFile, ReadAction, ReadDecision, ReadReceipt, CheckLineage, Head, IsLinked, IsSealed;
    var d, i := ReadRecord(k, files, policy, c).value, c.Length();
    ReadIsSealed(k, files, d, i);
    LineageIsLinked(k, files, policy, c, d.raws[i], d.actions[i], d.decisions[i], d.receipts[i], d);
  }

  lemma LinkStays(k: Kernel, policy: Value, c: Chain, d: Chain, i: nat)
    requires c.Valid() && d.Valid() && i < c.Length() <= d.Length() && IsLinked(k, policy, c, i)
    requires d.raws[..c.Length()] == c.raws && d.actions[..c.Length()] == c.actions
    requires d.decisions[..c.Length()] == c.decisions && d.receipts[..c.Length()] == c.receipts
    ensures IsLinked(k, policy, d, i)
  {
    hide ActionIdentity, PolicyIdentity, ZERO_HASH, DecisionDigest, ReceiptDigest;
    assert d.raws[..c.Length()][i] == d.raws[i] && d.actions[..c.Length()][i] == d.actions[i];
    assert d.decisions[..c.Length()][i] == d.decisions[i] && d.receipts[..c.Length()][i] == d.receipts[i];
    assert i > 0 ==> d.receipts[..c.Length()][i - 1] == d.receipts[i - 1];
  }

  lemma RecordedAssembles(k: Kernel, files: Files, c: Chain, i: nat)
    requires c.Valid() && i < c.Length()
    requires ReadFile(files, RecordPath(CaptureSlot, i)) == Success(c.raws[i])
    requires ReadFile(files, RecordPath(ActionSlot, i)) == Success(CanonicalText(c.actions[i]))
    requires ReadFile(files, RecordPath(DecisionSlot, i)) == Success(CanonicalText(DecisionValue(c.decisions[i])))
    requires ReadFile(files, RecordPath(ReceiptSlot, i)) == Success(CanonicalText(ReceiptValue(c.receipts[i])))
    requires Read(c.raws[i]).Success? && k.normalizeAction(Read(c.raws[i]).value) == Success(c.actions[i])
    requires |c.decisions[i].choice.matched| <= Policy.MAX_SET
    ensures IsRecorded(k, files, c, i)
  {
    hide RecordPath, Read, ReadFile, CanonicalText, DecisionValue, ReceiptValue, Body;
    SlotsAreStored(files, c, i);
  }

  lemma RecordBegins(k: Kernel, files: Files, policy: Value, c: Chain)
    requires c.Valid() && ReadRecord(k, files, policy, c).Success?
    ensures var d := ReadRecord(k, files, policy, c).value;
      d.raws[..c.Length()] == c.raws && d.actions[..c.Length()] == c.actions
      && d.decisions[..c.Length()] == c.decisions && d.receipts[..c.Length()] == c.receipts
  {
    RecordParts(k, files, policy, c);
    hide ReadRecord, RecordPath, ReadFile, ReadAction, ReadDecision, CheckLineage, Head;
  }

  lemma SameRecord(k: Kernel, files: Files, c: Chain, d: Chain, i: nat)
    requires c.Valid() && d.Valid() && i < c.Length() <= d.Length() && IsRecorded(k, files, c, i)
    requires d.raws[..c.Length()] == c.raws && d.actions[..c.Length()] == c.actions
    requires d.decisions[..c.Length()] == c.decisions && d.receipts[..c.Length()] == c.receipts
    ensures IsRecorded(k, files, d, i)
  {
    hide RecordPath, Read, CanonicalText, DecisionValue, ReceiptValue;
    assert d.raws[..c.Length()][i] == d.raws[i] && d.actions[..c.Length()][i] == d.actions[i];
    assert d.decisions[..c.Length()][i] == d.decisions[i] && d.receipts[..c.Length()][i] == d.receipts[i];
  }

  ghost predicate HoldsRecords(k: Kernel, files: Files, policy: Value, c: Chain) {
    && c.Valid()
    && (forall i :: 0 <= i < c.Length() ==> IsRecorded(k, files, c, i))
    && forall i :: 0 <= i < c.Length() ==> IsLinked(k, policy, c, i)
  }

  /** Records that were read are stored as they are, with their captures, and form a chain. */
  lemma {:induction false} RecordsAreRead(k: Kernel, files: Files, policy: Value, n: nat)
    requires ReadUpTo(k, files, policy, n).Success?
    ensures HoldsRecords(k, files, policy, ReadUpTo(k, files, policy, n).value)
  {
    hide ReadRecord, IsRecorded, IsLinked;
    if n > 0 {
      RecordsAreRead(k, files, policy, n - 1);
      var before := ReadUpTo(k, files, policy, n - 1).value;
      RecordIsRead(k, files, policy, before);
      RecordIsLinked(k, files, policy, before);
      RecordBegins(k, files, policy, before);
      var after := ReadUpTo(k, files, policy, n).value;
      forall i | 0 <= i < n - 1 ensures IsRecorded(k, files, after, i) && IsLinked(k, policy, after, i) {
        SameRecord(k, files, before, after, i);
        LinkStays(k, policy, before, after, i);
      }
    }
  }

  lemma {:induction false} ReadFailureStays(k: Kernel, files: Files, policy: Value, m: nat, n: nat)
    requires m <= n && ReadUpTo(k, files, policy, m).Failure?
    ensures ReadUpTo(k, files, policy, n) == ReadUpTo(k, files, policy, m)
  {
    hide ReadRecord;
    if m < n {
      ReadFailureStays(k, files, policy, m, n - 1);
    }
  }

  /** The loop of `_semantic_records`, with `previous` moving along the receipts. */
  method ReadRecords(k: Kernel, files: Files, policy: Value, count: nat) returns (result: Result<Chain>)
    ensures result == ReadUpTo(k, files, policy, count)
    ensures result.Success? ==> result.value.Length() == count && HoldsRecords(k, files, policy, result.value)
  {
    hide ReadRecord, HoldsRecords;
    if ReadUpTo(k, files, policy, count).Success? {
      RecordsAreRead(k, files, policy, count);
    }
    var chain := EMPTY;
    for index := 0 to count
      invariant ReadUpTo(k, files, policy, index) == Success(chain)
    {
      var next := ReadRecord(k, files, policy, chain);
      assert ReadUpTo(k, files, policy, index + 1) == next;
      if next.Failure? {
        ReadFailureStays(k, files, policy, index + 1, count);
        return next;
      }
      chain := next.value;
    }
    result := Success(chain);
  }

  // ---------- the other files ----------

  function WithoutBundle(v: Value): Value {
    if v.Obj? then Obj(Others(v.members, "source_bundle_sha256")) else v
  }

  /** `without_self_hash` */
  function Others(members: seq<Member>, key: string): seq<Member> {
    if members == [] then []
    else (if members[0].key == key then [] else [members[0]]) + Others(members[1..], key)
  }

  /** `normalize_implementation` */
  function NormalizeImplementation(k: Kernel, v: Value): Result<Value> {
    if !v.Obj? || !k.isImplementation(v) then Failure(ImplementationInvalid)
    else if Bundle(v) != Str(DomainHash(k.digester.sha, "HERESY-SEC/IMPLEMENTATION/v1", WithoutBundle(v))) then
      Failure(ImplementationHashMismatch)
    else Success(v)
  }

  datatype Semantics = Semantics(rawPolicy: string, policy: Value, chain: Chain, implementation: Value, summary: Value,
    geometry: Geometry)

  predicate HasGeometry(files: Files, geometry: Files) {
    forall path :: path in geometry ==> path in files && files[path] == geometry[path]
  }

  /** The checks of `_semantic_records` before its loop. */
  function ReadFrame(k: Kernel, files: Files): Result<(nat, string, Value, Value, Value)> {
    var summary :- ReadJson(files, SUMMARY);
    if !summary.Obj? || !Field(summary, "action_count").Int? || Field(summary, "action_count").n < 1 then Failure(SummaryInvalid)
    else
      var rawPolicy :- ReadFile(files, POLICY_RAW);
      var stored :- ReadJson(files, POLICY);
      var policy :- k.normalizePolicy(stored);
      var captured :- Read(rawPolicy);
      var again :- k.normalizePolicy(captured);
      if again != policy then Failure(PolicyCaptureMismatch)
      else if files[POLICY] != CanonicalText(policy) then Failure(PolicyCanonicalMismatch)
      else
        var storedImplementation :- ReadJson(files, IMPLEMENTATION);
        var implementation :- NormalizeImplementation(k, storedImplementation);
        if files[IMPLEMENTATION] != CanonicalText(implementation) then Failure(ImplementationCanonicalMismatch)
        else
          var origin :- ReadFile(files, README);
          if origin != k.origin(policy) then Failure(RunOriginMismatch)
          else Success((Field(summary, "action_count").n, rawPolicy, policy, implementation, summary))
  }

  /** The checks of `_semantic_records` after its loop. */
  ghost function CheckRest(k: Kernel, files: Files, policy: Value, c: Chain): Result<Geometry>
    requires c.Valid()
  {
    var actions :- NormalizeActions(k, c.raws);
    var log :- ReadFile(files, EVENT_LOG);
    if log != EventLog(c.receipts) then Failure(EventLogMismatch)
    else
      var geometry :- k.geometry(c, policy);
      if !HasGeometry(files, geometry.files) then Failure(GeometryArtifactMismatch)
      else if !HasExpectedPaths(files, c.Length(), geometry.files) then Failure(RunArtifactSetMismatch)
      else Success(geometry)
  }

  ghost predicate HasExpectedPaths(files: Files, count: nat, geometry: Files) {
    forall path :: path in files <==> path == MANIFEST || IsExpected(count, geometry, path)
  }

  /** `_semantic_records` */
  ghost function Semantic(k: Kernel, files: Files): (r: Result<Semantics>)
    ensures r.Success? ==> r.value.chain.Valid()
  {
    hide ReadFrame, ReadUpTo, CheckRest;
    var frame :- ReadFrame(k, files);
    var chain :- ReadUpTo(k, files, frame.2, frame.0);
    var geometry :- CheckRest(k, files, frame.2, chain);
    Success(Semantics(frame.1, frame.2, chain, frame.3, frame.4, geometry))
  }

  /** What `_semantic_records` has established of the other files. */
  ghost predicate IsFramed(k: Kernel, files: Files, s: Semantics) {
    && {README, POLICY_RAW, POLICY, IMPLEMENTATION, SUMMARY} <= files.Keys
    && files[POLICY_RAW] == s.rawPolicy && files[POLICY] == CanonicalText(s.policy)
    && files[IMPLEMENTATION] == CanonicalText(s.implementation) && files[README] == k.origin(s.policy)
    && Read(s.rawPolicy).Success? && k.normalizePolicy(Read(s.rawPolicy).value) == Success(s.policy)
    && ReadJson(files, IMPLEMENTATION) == Success(s.implementation)
    && IsNormal(s.implementation) && NormalizeImplementation(k, s.implementation) == Success(s.implementation)
  }

  lemma FrameIsRead(k: Kernel, files: Files, geometry: Geometry, chain: Chain)
    requires ReadFrame(k, files).Success?
    ensures var f := ReadFrame(k, files).value;
      IsFramed(k, files, Semantics(f.1, f.2, chain, f.3, f.4, geometry))
  {
    hide IsNormal, CanonicalText, WithoutBundle, Field, Read, README, POLICY_RAW, POLICY, IMPLEMENTATION, SUMMARY;
    var f := ReadFrame(k, files).value;
    ReadIsNormal(files[IMPLEMENTATION]);
  }

  lemma {:induction false} SameActions(k: Kernel, raws: seq<string>, actions: seq<Value>)
    requires |raws| == |actions|
    requires forall i :: 0 <= i < |raws| ==> Read(raws[i]).Success? && k.normalizeAction(Read(raws[i]).value) == Success(actions[i])
    ensures NormalizeAll(k, raws) == Success(actions)
  {
    hide Read;
    if raws != [] {
      var n := |raws| - 1;
      SameActions(k, raws[..n], actions[..n]);
      assert actions == actions[..n] + [actions[n]];
    }
  }

  lemma CapturedActions(k: Kernel, files: Files, s: Semantics)
    requires HoldsRecords(k, files, s.policy, s.chain)
    requires CheckRest(k, files, s.policy, s.chain).Success?
    ensures NormalizeActions(k, s.chain.raws) == Success(s.chain.actions)
  {
    hide Read, CanonicalText, EventLog, HasGeometry, HasExpectedPaths, RecordPath;
    assert NormalizeActions(k, s.chain.raws).Success?;
    forall i | 0 <= i < s.chain.Length()
      ensures Read(s.chain.raws[i]).Success? && k.normalizeAction(Read(s.chain.raws[i]).value) == Success(s.chain.actions[i])
    {
      assert IsRecorded(k, files, s.chain, i);
    }
    SameActions(k, s.chain.raws, s.chain.actions);
  }

  lemma RestIsRead(k: Kernel, files: Files, s: Semantics)
    requires s.chain.Valid() && CheckRest(k, files, s.policy, s.chain) == Success(s.geometry)
    ensures EVENT_LOG in files && files[EVENT_LOG] == EventLog(s.chain.receipts)
    ensures HasGeometry(files, s.geometry.files) && HasExpectedPaths(files, s.chain.Length(), s.geometry.files)
    ensures k.geometry(s.chain, s.policy) == Success(s.geometry)
  {
    hide EventLog, HasGeometry, HasExpectedPaths, NormalizeActions;
  }

  /** A directory that holds a run: the frame, every record in its place, the log of the receipts, the
      geometry of those records, and no other file. */
  ghost predicate HoldsRun(k: Kernel, files: Files, s: Semantics) {
    && IsFramed(k, files, s) && HoldsRecords(k, files, s.policy, s.chain)
    && NormalizeActions(k, s.chain.raws) == Success(s.chain.actions)
    && EVENT_LOG in files && files[EVENT_LOG] == EventLog(s.chain.receipts)
    && k.geometry(s.chain, s.policy) == Success(s.geometry) && HasGeometry(files, s.geometry.files)
    && HasExpectedPaths(files, s.chain.Length(), s.geometry.files)
  }

  /** What `_semantic_records` accepts is a run. */
  lemma SemanticsAreRead(k: Kernel, files: Files)
    requires Semantic(k, files).Success?
    ensures HoldsRun(k, files, Semantic(k, files).value)
  {
    hide ReadFrame, ReadUpTo, CheckRest, IsFramed, HoldsRecords, NormalizeActions, HasGeometry, HasExpectedPaths, EventLog,
      EVENT_LOG;
    var f := ReadFrame(k, files).value;
    var s := Semantic(k, files).value;
    assert CheckRest(k, files, s.policy, s.chain) == Success(s.geometry);
    FrameIsRead(k, files, s.geometry, s.chain);
    RecordsAreRead(k, files, f.2, f.0);
    CapturedActions(k, files, s);
    RestIsRead(k, files, s);
  }

  method ExpectedPaths(count: nat, geometry: Files) returns (paths: set<string>)
    ensures forall path :: path in paths <==> IsExpected(count, geometry, path)
  {
    hide RecordPath, FRAME_PATHS;
    paths := FRAME_PATHS + geometry.Keys;
    for index := 0 to count
      invariant forall path :: path in paths <==> IsExpected(index, geometry, path)
    {
      var more := {RecordPath(CaptureSlot, index), RecordPath(ActionSlot, index), RecordPath(DecisionSlot, index),
        RecordPath(ReceiptSlot, index)};
      ExpectedStep(index, geometry, more);
      paths := paths + more;
    }
  }

  lemma ExpectedStep(index: nat, geometry: Files, more: set<string>)
    requires more == {RecordPath(CaptureSlot, index), RecordPath(ActionSlot, index), RecordPath(DecisionSlot, index),
      RecordPath(ReceiptSlot, index)}
    ensures forall path :: IsExpected(index + 1, geometry, path) <==> IsExpected(index, geometry, path) || path in more
  {
    hide RecordPath, FRAME_PATHS;
    forall path | IsExpected(index + 1, geometry, path) ensures IsExpected(index, geometry, path) || path in more {
      if path !in FRAME_PATHS && path !in geometry {
        var s: Slot, i: nat :| i < index + 1 && path == RecordPath(s, i);
        if i == index {
          match s
          case CaptureSlot => assert path in more;
          case ActionSlot => assert path in more;
          case DecisionSlot => assert path in more;
          case ReceiptSlot => assert path in more;
        }
      }
    }
  }

  method SemanticRecords(k: Kernel, files: Files) returns (result: Result<Semantics>)
    ensures result == Semantic(k, files)
    ensures result.Success? ==> HoldsRun(k, files, result.value)
  {
    hide HoldsRun, HoldsRecords;
    if Semantic(k, files).Success? {
      SemanticsAreRead(k, files);
    }
    hide ReadFrame, ReadUpTo, NormalizeActions, EventLog, HasGeometry, RecordPath, IsExpected;
    var frame := ReadFrame(k, files);
    if frame.Failure? {
      return Failure(frame.error);
    }
    var (count, rawPolicy, policy, implementation, summary) := frame.value;
    var read := ReadRecords(k, files, policy, count);
    if read.Failure? {
      return Failure(read.error);
    }
    var chain := read.value;
    var actions := NormalizeActions(k, chain.raws);
    if actions.Failure? {
      return Failure(actions.error);
    }
    var log := ReadFile(files, EVENT_LOG);
    if log.Failure? {
      return Failure(log.error);
    }
    if log.value != EventLog(chain.receipts) {
      return Failure(EventLogMismatch);
    }
    var geometry := k.geometry(chain, policy);
    if geometry.Failure? {
      return Failure(geometry.error);
    }
    if !HasGeometry(files, geometry.value.files) {
      return Failure(GeometryArtifactMismatch);
    }
    var expected := ExpectedPaths(count, geometry.value.files);
    SamePaths(files, count, geometry.value.files, expected);
    if files.Keys != expected + {MANIFEST} {
      return Failure(RunArtifactSetMismatch);
    }
    result := Success(Semantics(rawPolicy, policy, chain, implementation, summary, geometry.value));
  }

  lemma SamePaths(files: Files, count: nat, geometry: Files, expected: set<string>)
    requires forall path :: path in expected <==> IsExpected(count, geometry, path)
    ensures HasExpectedPaths(files, count, geometry) <==> files.Keys == expected + {MANIFEST}
  {
    hide IsExpected, MANIFEST;
  }

  // ---------- verify_run_directory and replay_run ----------

  /** What a run of these semantics must be called and summed up as. */
  ghost function ExpectedSummary(k: Kernel, s: Semantics): Result<(string, Value)> {
    var runId :- RunId(k, s.rawPolicy, s.policy, s.chain.raws, s.chain.actions, Bundle(s.implementation));
    var summary :- Summary(k, runId, s.rawPolicy, s.policy, s.chain, s.implementation, s.geometry);
    Success((runId, summary))
  }

  /** A directory that `verify_run_directory` accepts. */
  ghost predicate Verifies(k: Kernel, files: Files) {
    && Semantic(k, files).Success?
    && var s := Semantic(k, files).value;
    && ExpectedSummary(k, s).Success?
    && var (runId, summary) := ExpectedSummary(k, s).value;
    && s.summary == summary && SUMMARY in files && files[SUMMARY] == CanonicalText(summary)
    && exists rows :: IsManifested(k.digester, files, rows, runId)
  }

  /** `verify_run_directory` */
  method VerifyRun(k: Kernel, files: Files) returns (result: Result<string>)
    ensures result.Success? <==> Verifies(k, files)
  {
    hide Semantic, RunId, Summary, IsManifested, HoldsRun, HoldsRecords;
    var manifest := VerifyManifest(k.digester, files);
    if manifest.Failure? {
      return Failure(manifest.error);
    }
    var semantic := SemanticRecords(k, files);
    if semantic.Failure? {
      return Failure(semantic.error);
    }
    var s := semantic.value;
    var runId := RunId(k, s.rawPolicy, s.policy, s.chain.raws, s.chain.actions, Bundle(s.implementation));
    if runId.Failure? {
      return Failure(runId.error);
    }
    var summary := Summary(k, runId.value, s.rawPolicy, s.policy, s.chain, s.implementation, s.geometry);
    if summary.Failure? {
      return Failure(summary.error);
    }
    if s.summary != summary.value || SUMMARY !in files || files[SUMMARY] != CanonicalText(summary.value) {
      return Failure(SummaryMismatch);
    }
    if manifest.value.runId != runId.value {
      return Failure(ManifestRunMismatch);
    }
    result := Success(runId.value);
  }

  function DecisionTexts(decisions: seq<Decision>): (r: seq<string>)
    ensures |r| == |decisions| && forall i :: 0 <= i < |decisions| ==> r[i] == CanonicalText(DecisionValue(decisions[i]))
  {
    seq(|decisions|, i requires 0 <= i < |decisions| => CanonicalText(DecisionValue(decisions[i])))
  }

  function ReceiptTexts(receipts: seq<Receipt>): (r: seq<string>)
    ensures |r| == |receipts| && forall i :: 0 <= i < |receipts| ==> r[i] == CanonicalText(ReceiptValue(receipts[i]))
  {
    seq(|receipts|, i requires 0 <= i < |receipts| => CanonicalText(ReceiptValue(receipts[i])))
  }

  /** The run computed again from the captured actions and the stored policy. */
  function Recompute(k: Kernel, s: Semantics, current: Value): Result<(Chain, Geometry, string, Value)>
    requires s.chain.Valid()
  {
    var policyId :- PolicyIdentity(k, s.policy);
    var chain :- RecordsUpTo(k, s.chain.raws, s.chain.actions, s.policy, policyId, s.chain.Length());
    var geometry :- k.geometry(chain, s.policy);
    var runId :- RunId(k, s.rawPolicy, s.policy, s.chain.raws, s.chain.actions, Bundle(current));
    var summary :- Summary(k, runId, s.rawPolicy, s.policy, chain, current, geometry);
    Success((chain, geometry, runId, summary))
  }

  /** The comparison at the end of `replay_run`. */
  predicate Agrees(s: Semantics, c: Chain, g: Geometry, summary: Value) {
    && DecisionTexts(c.decisions) == DecisionTexts(s.chain.decisions)
    && ReceiptTexts(c.receipts) == ReceiptTexts(s.chain.receipts)
    && g.files == s.geometry.files
    && CanonicalText(summary) == CanonicalText(s.summary)
  }

  /** The checks of `replay_run` on what `_semantic_records` returned. */
  predicate SameRun(k: Kernel, s: Semantics, current: Value)
    requires s.chain.Valid()
  {
    hide Recompute;
    && Bundle(current) == Bundle(s.implementation)
    && Recompute(k, s, current).Success?
    && var (chain, geometry, runId, summary) := Recompute(k, s, current).value;
    Agrees(s, chain, geometry, summary)
  }

  /** A directory that `replay_run` accepts. */
  ghost predicate Replays(k: Kernel, files: Files, current: Value) {
    hide Semantic, ExpectedSummary;
    Verifies(k, files) && SameRun(k, Semantic(k, files).value, current)
  }

  /** The last part of `replay_run`. */
  method CompareRuns(k: Kernel, s: Semantics, current: Value) returns (result: Result<string>)
    requires s.chain.Valid()
    ensures result.Success? <==> SameRun(k, s, current)
  {
    hide RunId, Summary, RecordsUpTo, Agrees, PolicyIdentity;
    if Bundle(current) != Bundle(s.implementation) {
      return Failure(ReplayImplementationMismatch);
    }
    var policyId := PolicyIdentity(k, s.policy);
    if policyId.Failure? {
      return Failure(policyId.error);
    }
    var chain := BuildRecords(k, s.chain.raws, s.chain.actions, s.policy, policyId.value);
    if chain.Failure? {
      return Failure(chain.error);
    }
    var geometry := k.geometry(chain.value, s.policy);
    if geometry.Failure? {
      return Failure(geometry.error);
    }
    var runId := RunId(k, s.rawPolicy, s.policy, s.chain.raws, s.chain.actions, Bundle(current));
    if runId.Failure? {
      return Failure(runId.error);
    }
    var summary := Summary(k, runId.value, s.rawPolicy, s.policy, chain.value, current, geometry.value);
    if summary.Failure? {
      return Failure(summary.error);
    }
    if !Agrees(s, chain.value, geometry.value, summary.value) {
      return Failure(ReplayDivergence);
    }
    result := Success(runId.value);
  }

  /** `replay_run` */
  method ReplayRun(k: Kernel, files: Files, current: Value) returns (result: Result<string>)
    ensures result.Success? <==> Replays(k, files, current)
  {
    hide Verifies, SameRun, Semantic;
    var verified := VerifyRun(k, files);
    if verified.Failure? {
      return Failure(verified.error);
    }
    VerifiesHasSemantics(k, files);
    var semantic := SemanticRecords(k, files);
    result := CompareRuns(k, semantic.value, current);
  }

  lemma VerifiesHasSemantics(k: Kernel, files: Files)
    requires Verifies(k, files)
    ensures Semantic(k, files).Success?
  {
    hide Semantic, ExpectedSummary;
  }
}
