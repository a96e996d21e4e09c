/** Building, verifying and replaying runs (engine.py). */
module Engine {
  import opened Outcomes
  import opened Effects
  import opened Actions
  import opened Json
  import opened CanonicalJson
  import opened Fields
  import opened Records
  import opened Manifest
  import opened RunFiles

  /** What the geometry of a run yields: its files, its profile, how many windows came to each effect, and the
      digest of the last geometry receipt. */
  datatype Geometry = Geometry(files: Files, profile: string, allow: nat, deny: nat, review: nat, head: string)

  /** The pure functions the engine is made of.  `normalizeAction` and `normalizePolicy` are
      `normalize_action` and `normalize_policy`, `isImplementation` the record checks of
      `normalize_implementation`, `decide` the choice of `evaluate_action` for normalized arguments,
      and `geometry` is `build_geometry_windows` with `geometry_artifact_map`. */
  datatype Kernel = Kernel(
    digester: Digester,
    normalizeAction: Value -> Result<Value>,
    normalizePolicy: Value -> Result<Value>,
    isImplementation: Value -> bool,
    decide: (Value, Value) -> Choice,
    geometry: (Chain, Value) -> Result<Geometry>,
    origin: Value -> string)

  /** What the engine needs of these functions; `EngineKernel.EngineIsLawful` proves it of the ones it
      has.  Normal forms of what was read are accepted JSON in sorted form; an action is its own
      normal form, and so is a policy if it is accepted again; choices are such that
      `build_decision` takes them as they are; geometry files have names of their own. */
  ghost predicate IsLawful(k: Kernel) {
    && (forall text :: IsDigest(k.digester.sha(text)))
    && (forall v :: IsNormal(v) && k.normalizeAction(v).Success? ==>
      IsNormal(k.normalizeAction(v).value) && k.normalizeAction(k.normalizeAction(v).value) == k.normalizeAction(v))
    && (forall v :: IsNormal(v) && k.normalizePolicy(v).Success? ==>
      IsNormal(k.normalizePolicy(v).value)
      && (k.normalizePolicy(k.normalizePolicy(v).value).Success? ==>
        k.normalizePolicy(k.normalizePolicy(v).value) == k.normalizePolicy(v)))
    && (forall a, p :: k.normalizePolicy(p) == Success(p) ==> IsChoice(k.decide(a, p)))
    && (forall c, p :: k.geometry(c, p).Success? ==> AreGeometryFiles(k.geometry(c, p).value.files))
  }

  const ZERO_HASH := Zeros(64)

  // ---------- identities and records ----------

  function ActionIdentity(k: Kernel, action: Value): Result<string> {
    var a :- k.normalizeAction(action);
    Success(DomainHash(k.digester.sha, "HERESY-SEC/ACTION/v1", a))
  }

  predicate IsVersion2(policy: Value) {
    Field(policy, "schema") == Str("heresy-sec.policy/v2")
  }

  function PolicyIdentity(k: Kernel, policy: Value): Result<string> {
    var p :- k.normalizePolicy(policy);
    Success(DomainHash(k.digester.sha, if IsVersion2(p) then "HERESY-SEC/POLICY/v2" else "HERESY-SEC/POLICY/v1", p))
  }

  /** `evaluate_action`: both arguments are normalized again. */
  function Evaluate(k: Kernel, action: Value, policy: Value): Result<Decision> {
    var a :- k.normalizeAction(action);
    var p :- k.normalizePolicy(policy);
    var actionId :- ActionIdentity(k, a);
    var policyId :- PolicyIdentity(k, p);
    Success(BuildDecision(k.digester.sha, actionId, policyId, k.decide(a, p)))
  }

  function Head(receipts: seq<Receipt>): string {
    if receipts == [] then ZERO_HASH else receipts[|receipts| - 1].digest
  }

  /** One round of the loop of `_build_records`. */
  function NextRecord(k: Kernel, c: Chain, raw: string, action: Value, policy: Value, policyId: string): Result<Chain>
    requires c.Valid()
  {
    var decision :- Evaluate(k, action, policy);
    var actionId :- ActionIdentity(k, action);
    var index := c.Length();
    if index > MAX_SAFE_INTEGER then Failure(ContractInvalid)
    else
      var receipt := BuildReceipt(k.digester.sha, index, k.digester.sha(raw), actionId, policyId, decision.digest, Head(c.receipts));
      Success(c.Plus(raw, action, decision, receipt))
  }

  /** The records of the first n actions. */
  function RecordsUpTo(k: Kernel, raws: seq<string>, actions: seq<Value>, policy: Value, policyId: string, n: nat): (r: Result<Chain>)
    requires n <= |raws| == |actions|
    ensures r.Success? ==> r.value.Valid() && r.value.Length() == n
  {
    if n == 0 then Success(EMPTY)
    else
      var before :- RecordsUpTo(k, raws, actions, policy, policyId, n - 1);
      NextRecord(k, before, raws[n - 1], actions[n - 1], policy, policyId)
  }

  /** Record i of a chain: the decision is that of its action, and the receipt carries its place, binds
      what belongs to it, and names the receipt before it. */
  ghost predicate IsBound(k: Kernel, c: Chain, policyId: string, i: nat)
    requires c.Valid() && i < c.Length()
  {
    var r := c.receipts[i];
    && r.index == i && r.capture == k.digester.sha(c.raws[i]) && ActionIdentity(k, c.actions[i]) == Success(r.action)
    && r.policy == policyId && r.decision == c.decisions[i].digest
    && r.previous == (if i == 0 then ZERO_HASH else c.receipts[i - 1].digest)
  }

  /** Decision and receipt i carry their own hashes. */
  ghost predicate IsSealed(k: Kernel, c: Chain, i: nat)
    requires c.Valid() && i < c.Length()
  {
    var d, r := c.decisions[i], c.receipts[i];
    && d.digest == DecisionDigest(k.digester.sha, d.action, d.policy, d.choice)
    && r.digest == ReceiptDigest(k.digester.sha, r.index, r.capture, r.action, r.policy, r.decision, r.previous)
    && r.index <= MAX_SAFE_INTEGER
  }

  ghost predicate IsRecord(k: Kernel, c: Chain, policy: Value, policyId: string, i: nat)
    requires c.Valid() && i < c.Length()
  {
    Evaluate(k, c.actions[i], policy) == Success(c.decisions[i]) && IsBound(k, c, policyId, i) && IsSealed(k, c, i)
  }

  ghost predicate AreRecords(k: Kernel, c: Chain, policy: Value, policyId: string) {
    c.Valid() && forall i :: 0 <= i < c.Length() ==> IsRecord(k, c, policy, policyId, i)
  }

  /** An action for which a record can be made. */
  predicate IsRecordable(k: Kernel, action: Value, policy: Value, index: nat) {
    Evaluate(k, action, policy).Success? && index <= MAX_SAFE_INTEGER
  }

  lemma LastRecord(k: Kernel, c: Chain, raw: string, action: Value, policy: Value, policyId: string)
    requires c.Valid()
    ensures NextRecord(k, c, raw, action, policy, policyId).Success? <==> IsRecordable(k, action, policy, c.Length())
    ensures NextRecord(k, c, raw, action, policy, policyId).Success? ==>
      var d := NextRecord(k, c, raw, action, policy, policyId).value;
      && IsRecord(k, d, policy, policyId, c.Length())
      && d == c.Plus(raw, action, d.decisions[c.Length()], d.receipts[c.Length()])
  {
    hide PolicyIdentity, ReceiptDigest, DecisionDigest, ZERO_HASH, DomainHash;
    if Evaluate(k, action, policy).Success? {
      EvaluatedIsSealed(k, action, policy);
    }
    hide Evaluate, ActionIdentity;
  }

  lemma EvaluatedIsSealed(k: Kernel, action: Value, policy: Value)
    requires Evaluate(k, action, policy).Success?
    ensures ActionIdentity(k, action).Success?
    ensures var d := Evaluate(k, action, policy).value;
      d.digest == DecisionDigest(k.digester.sha, d.action, d.policy, d.choice)
  {
    hide PolicyIdentity, DecisionDigest, DomainHash;
  }

  lemma EarlierRecordStays(k: Kernel, c: Chain, d: Chain, policy: Value, policyId: string, i: nat)
    requires c.Valid() && d.Valid() && i < c.Length() < d.Length() && IsRecord(k, c, policy, policyId, i)
    requires d == c.Plus(d.raws[c.Length()], d.actions[c.Length()], d.decisions[c.Length()], d.receipts[c.Length()])
    ensures IsRecord(k, d, policy, policyId, i)
  {
    hide Evaluate, ActionIdentity, ReceiptDigest, DecisionDigest, ZERO_HASH;
    assert d.raws[i] == c.raws[i] && d.actions[i] == c.actions[i] && d.decisions[i] == c.decisions[i];
    assert d.receipts[i] == c.receipts[i] && (i > 0 ==> d.receipts[i - 1] == c.receipts[i - 1]);
  }

  lemma RecordsGrow(k: Kernel, c: Chain, raw: string, action: Value, policy: Value, policyId: string, d: Chain)
    requires AreRecords(k, c, policy, policyId) && NextRecord(k, c, raw, action, policy, policyId) == Success(d)
    ensures AreRecords(k, d, policy, policyId) && d.raws == c.raws + [raw] && d.actions == c.actions + [action]
  {
    hide NextRecord, IsRecord, IsRecordable;
    LastRecord(k, c, raw, action, policy, policyId);
    assert |d.raws| == c.Length() + 1;
    forall i | 0 <= i < d.Length() ensures IsRecord(k, d, policy, policyId, i) {
      if i < c.Length() {
        EarlierRecordStays(k, c, d, policy, policyId, i);
      }
    }
  }

  /** The loop succeeds if every action can be recorded, and then the receipts form a chain that binds
      each capture, action and decision in its place. */
  lemma {:induction false} RecordsMean(k: Kernel, raws: seq<string>, actions: seq<Value>, policy: Value, policyId: string, n: nat)
    requires n <= |raws| == |actions|
    ensures RecordsUpTo(k, raws, actions, policy, policyId, n).Success? <==>
      forall i :: 0 <= i < n ==> IsRecordable(k, actions[i], policy, i)
    ensures RecordsUpTo(k, raws, actions, policy, policyId, n).Success? ==>
      var c := RecordsUpTo(k, raws, actions, policy, policyId, n).value;
      AreRecords(k, c, policy, policyId) && c.raws == raws[..n] && c.actions == actions[..n]
  {
    hide NextRecord, IsRecord, IsRecordable;
    if n > 0 {
      RecordsMean(k, raws, actions, policy, policyId, n - 1);
      var before := RecordsUpTo(k, raws, actions, policy, policyId, n - 1);
      if before.Success? {
        LastRecord(k, before.value, raws[n - 1], actions[n - 1], policy, policyId);
        var next := NextRecord(k, before.value, raws[n - 1], actions[n - 1], policy, policyId);
        if next.Success? {
          RecordsGrow(k, before.value, raws[n - 1], actions[n - 1], policy, policyId, next.value);
        }
      }
    }
  }

  /** `_build_records` */
  method BuildRecords(k: Kernel, raws: seq<string>, actions: seq<Value>, policy: Value, policyId: string)
    returns (result: Result<Chain>)
    requires |raws| == |actions|
    ensures result == RecordsUpTo(k, raws, actions, policy, policyId, |raws|)
    ensures result.Success? <==> forall i :: 0 <= i < |raws| ==> IsRecordable(k, actions[i], policy, i)
    ensures result.Success? ==>
      AreRecords(k, result.value, policy, policyId) && result.value.raws == raws && result.value.actions == actions
  {
    hide NextRecord, IsRecord, IsRecordable;
    RecordsMean(k, raws, actions, policy, policyId, |raws|);
    assert raws[..|raws|] == raws && actions[..|actions|] == actions;
    hide AreRecords;
    var chain := EMPTY;
    for index := 0 to |raws|
      invariant chain.Valid() && RecordsUpTo(k, raws, actions, policy, policyId, index) == Success(chain)
    {
      var next := NextRecord(k, chain, raws[index], actions[index], policy, policyId);
      assert RecordsUpTo(k, raws, actions, policy, policyId, index + 1) == next;
      if next.Failure? {
        FailureStays(k, raws, actions, policy, policyId, index + 1, |raws|);
        return next;
      }
      chain := next.value;
    }
    result := Success(chain);
  }

  lemma {:induction false} FailureStays(k: Kernel, raws: seq<string>, actions: seq<Value>, policy: Value, policyId: string, m: nat, n: nat)
    requires m <= n <= |raws| == |actions| && RecordsUpTo(k, raws, actions, policy, policyId, m).Failure?
    ensures RecordsUpTo(k, raws, actions, policy, policyId, n) == RecordsUpTo(k, raws, actions, policy, policyId, m)
  {
    hide NextRecord;
    if m < n {
      FailureStays(k, raws, actions, policy, policyId, m, n - 1);
    }
  }

  // ---------- the stream of actions ----------

  function NormalizeAll(k: Kernel, raws: seq<string>): (r: Result<seq<Value>>)
    ensures r.Success? ==> |r.value| == |raws|
  {
    if raws == [] then Success([])
    else
      var front :- NormalizeAll(k, raws[..|raws| - 1]);
      var v :- Read(raws[|raws| - 1]);
      var action :- k.normalizeAction(v);
      Success(front + [action])
  }

  function SequenceOf(action: Value): int {
    if Field(action, "sequence").Int? then Field(action, "sequence").n else 0
  }

  predicate HasDistinctActionIds(actions: seq<Value>) {
    forall i, j :: 0 <= i < j < |actions| ==> Field(actions[i], "action_id") != Field(actions[j], "action_id")
  }

  predicate HasDistinctSequences(actions: seq<Value>) {
    forall i, j :: 0 <= i < j < |actions| ==> SequenceOf(actions[i]) != SequenceOf(actions[j])
  }

  predicate HasOrderedSequences(actions: seq<Value>) {
    forall i, j :: 0 <= i < j < |actions| ==> SequenceOf(actions[i]) <= SequenceOf(actions[j])
  }

  /** `_normalize_actions` */
  function NormalizeActions(k: Kernel, raws: seq<string>): (r: Result<seq<Value>>)
    ensures r.Success? ==> |r.value| == |raws| >= 1
  {
    if raws == [] then Failure(ActionStreamEmpty)
    else
      var actions :- NormalizeAll(k, raws);
      if !HasDistinctActionIds(actions) then Failure(ActionIdDuplicate)
      else if !HasDistinctSequences(actions) then Failure(ActionSequenceDuplicate)
      else if !HasOrderedSequences(actions) then Failure(ActionSequenceOrder)
      else Success(actions)
  }

  // ---------- run identity and summary ----------

  /** A stream is accepted just when it holds something, every capture is an action, no identifier recurs
      and the sequence numbers increase; otherwise the first of these that fails is named. */
  lemma StreamMeans(k: Kernel, raws: seq<string>)
    ensures var r, all := NormalizeActions(k, raws), NormalizeAll(k, raws);
      && (r == Failure(ActionStreamEmpty) <== raws == [])
      && (raws != [] && all.Failure? ==> r == Failure(all.error))
      && (r.Success? <==> (raws != [] && all.Success?
        && (forall i, j :: 0 <= i < j < |all.value| ==> Field(all.value[i], "action_id") != Field(all.value[j], "action_id"))
        && (forall i, j :: 0 <= i < j < |all.value| ==> SequenceOf(all.value[i]) < SequenceOf(all.value[j]))))
      && (r.Success? ==> r == all)
      && (raws != [] && all.Success? ==>
        ((exists i, j :: 0 <= i < j < |all.value| && Field(all.value[i], "action_id") == Field(all.value[j], "action_id"))
        <==> r == Failure(ActionIdDuplicate)))
      && (raws != [] && all.Success? && r.Failure? && r.error != ActionIdDuplicate ==>
        if exists i, j :: 0 <= i < j < |all.value| && SequenceOf(all.value[i]) == SequenceOf(all.value[j])
        then r.error == ActionSequenceDuplicate else r.error == ActionSequenceOrder)
  {
    hide NormalizeAll, Field, SequenceOf;
  }

  /** Normalising a stream reads and normalises every capture by itself. */
  lemma {:induction false} AllAreNormalized(k: Kernel, raws: seq<string>)
    ensures NormalizeAll(k, raws).Success? <==>
      forall i :: 0 <= i < |raws| ==> Read(raws[i]).Success? && k.normalizeAction(Read(raws[i]).value).Success?
    ensures NormalizeAll(k, raws).Success? ==>
      forall i :: 0 <= i < |raws| ==> k.normalizeAction(Read(raws[i]).value) == Success(NormalizeAll(k, raws).value[i])
  {
    hide Read;
    if raws != [] {
      AllAreNormalized(k, raws[..|raws| - 1]);
    }
  }

  function Identities(k: Kernel, actions: seq<Value>): Result<seq<string>> {
    if actions == [] then Success([])
    else
      var front :- Identities(k, actions[..|actions| - 1]);
      var last :- ActionIdentity(k, actions[|actions| - 1]);
      Success(front + [last])
  }

  function Captures(k: Kernel, raws: seq<string>): (r: seq<string>) {
    seq(|raws|, i requires 0 <= i < |raws| => k.digester.sha(raws[i]))
  }

  /** `_run_id` */
  function RunId(k: Kernel, rawPolicy: string, policy: Value, raws: seq<string>, actions: seq<Value>, bundle: Value): Result<string> {
    var policyId :- PolicyIdentity(k, policy);
    var ids :- Identities(k, actions);
    Success(DomainHash(k.digester.sha, "HERESY-SEC/RUN/v1",
      Obj(RunMembers(policyId, k.digester.sha(rawPolicy), ids, Captures(k, raws), bundle))))
  }

  function RunMembers(policyId: string, capture: string, ids: seq<string>, captures: seq<string>, bundle: Value): seq<Member> {
    [Member("schema", Str("heresy-sec.run/v1")), Member("policy_sha256", Str(policyId)),
      Member("policy_capture_sha256", Str(capture)), Member("action_sha256s", Arr(Strs(ids))),
      Member("capture_sha256s", Arr(Strs(captures))), Member("implementation_sha256", bundle)]
  }

  function Bundle(implementation: Value): Value {
    Field(implementation, "source_bundle_sha256")
  }

  function CountOf(decisions: seq<Decision>, e: Effect): nat {
    if decisions == [] then 0
    else
      CountOf(decisions[..|decisions| - 1], e) + if decisions[|decisions| - 1].choice.effect == e then 1 else 0
  }

  function FinalState(decisions: seq<Decision>, g: Geometry): string {
    if CountOf(decisions, Deny) > 0 || g.deny > 0 then "DENIED"
    else if CountOf(decisions, Review) > 0 || g.review > 0 then "REVIEW_REQUIRED"
    else "ALLOWED"
  }

  lemma {:induction false} CountMeans(decisions: seq<Decision>, e: Effect)
    ensures CountOf(decisions, e) > 0 <==> exists i :: 0 <= i < |decisions| && decisions[i].choice.effect == e
  {
    if decisions != [] {
      var n := |decisions| - 1;
      CountMeans(decisions[..n], e);
      if i :| 0 <= i < n && decisions[..n][i].choice.effect == e {
        assert decisions[i].choice.effect == e;
      }
    }
  }

  /** Every decision is counted once. */
  lemma {:induction false} CountsAddUp(decisions: seq<Decision>)
    ensures CountOf(decisions, Allow) + CountOf(decisions, Deny) + CountOf(decisions, Review) == |decisions|
  {
    if decisions != [] {
      CountsAddUp(decisions[..|decisions| - 1]);
    }
  }

  ghost predicate Decides(decisions: seq<Decision>, e: Effect) {
    exists i :: 0 <= i < |decisions| && decisions[i].choice.effect == e
  }

  /** The final state is the strictest effect of all: denied if anything is, allowed if everything is. */
  lemma FinalStateMeans(decisions: seq<Decision>, g: Geometry)
    ensures FinalState(decisions, g) == "DENIED" <==> Decides(decisions, Deny) || g.deny > 0
    ensures FinalState(decisions, g) == "ALLOWED" <==>
      (forall i :: 0 <= i < |decisions| ==> decisions[i].choice.effect == Allow) && g.deny == 0 && g.review == 0
  {
    CountMeans(decisions, Deny);
    CountMeans(decisions, Review);
    assert "DENIED"[0] != "ALLOWED"[0] && "REVIEW_REQUIRED"[0] != "ALLOWED"[0] && "REVIEW_REQUIRED"[0] != "DENIED"[0];
    forall i | 0 <= i < |decisions| ensures decisions[i].choice.effect in {Allow, Deny, Review} {
    }
  }

  function Counts(allow: nat, deny: nat, review: nat): Value {
    Obj([Member("ALLOW", Int(allow)), Member("DENY", Int(deny)), Member("REVIEW", Int(review))])
  }

  /** The inputs that the summary is made from. */
  datatype Digest = Digest(runId: string, policyId: string, capture: string, bundle: Value)

  function SummaryMembers(d: Digest, c: Chain, g: Geometry, version2: bool): seq<Member> {
    [Member("schema", Str(if version2 then "heresy-sec.summary/v2" else "heresy-sec.summary/v1")),
      Member("run_id", Str(d.runId)), Member("final_state", Str(FinalState(c.decisions, g))),
      Member("action_count", Int(|c.decisions|)),
      Member("effect_counts", Counts(CountOf(c.decisions, Allow), CountOf(c.decisions, Deny), CountOf(c.decisions, Review))),
      Member("policy_sha256", Str(d.policyId)), Member("policy_capture_sha256", Str(d.capture)),
      Member("implementation_sha256", d.bundle), Member("head_receipt_sha256", Str(Head(c.receipts))),
      Member("actions_executed", Bool(false))]
    + if version2 then
        [Member("geometry_profile", Str(g.profile)), Member("geometry_window_count", Int(g.allow + g.deny + g.review)),
          Member("geometry_effect_counts", Counts(g.allow, g.deny, g.review)),
          Member("head_geometry_receipt_sha256", Str(g.head))]
      else []
  }

  function SummaryOf(d: Digest, c: Chain, g: Geometry, version2: bool): Value {
    Sorted(Obj(SummaryMembers(d, c, g, version2)))
  }

  /** `_summary`, with the policy identity computed inside.  Whoever calls it goes on to write the
      summary canonically, which fails for a count out of range. */
  function Summary(k: Kernel, runId: string, rawPolicy: string, policy: Value, c: Chain, implementation: Value, g: Geometry): Result<Value> {
    var policyId :- PolicyIdentity(k, policy);
    var summary := SummaryOf(Digest(runId, policyId, k.digester.sha(rawPolicy), Bundle(implementation)), c, g, IsVersion2(policy));
    if IsCanonizable(summary, MAX_JSON_NESTING) then Success(summary) else Failure(CanonicalInvalid)
  }

  // ---------- run_actions ----------

  datatype Run = Run(policy: Value, chain: Chain, geometry: Geometry, runId: string, summary: Value, files: Files)

  /** Everything `run_actions` computes before the manifest. */
  function Execute(k: Kernel, rawPolicy: string, raws: seq<string>, implementation: Value): Result<Run> {
    var parsed :- Read(rawPolicy);
    var policy :- k.normalizePolicy(parsed);
    var actions :- NormalizeActions(k, raws);
    var runId :- RunId(k, rawPolicy, policy, raws, actions, Bundle(implementation));
    var policyId :- PolicyIdentity(k, policy);
    var chain :- RecordsUpTo(k, raws, actions, policy, policyId, |raws|);
    var geometry :- k.geometry(chain, policy);
    var summary :- Summary(k, runId, rawPolicy, policy, chain, implementation, geometry);
    Success(Run(policy, chain, geometry, runId, summary,
      Artifacts(Frame(k.origin(policy), rawPolicy, policy, implementation, summary), chain, geometry.files)))
  }

  /** `run_actions`, with the directory as its result.  Besides what `Execute` may find wrong, a file
      longer than the safe integers has no place in the inventory. */
  method RunActions(k: Kernel, rawPolicy: string, raws: seq<string>, current: Value) returns (result: Result<Files>)
    requires IsLawful(k)
    ensures result.Success? <==>
      Execute(k, rawPolicy, raws, current).Success? && HasSafeSizes(k.digester, Execute(k, rawPolicy, raws, current).value.files)
    ensures result.Success? ==>
      var run := Execute(k, rawPolicy, raws, current).value;
      exists rows :: result.value == run.files[MANIFEST := ManifestBody(k.digester.sha, rows, run.runId)]
        && IsInventory(k.digester, run.files, rows) && IsSortedByPath(rows)
  {
    hide ManifestBody, IsInventory, Artifacts, AreArtifacts, AreGeometryFiles, HasSafeSizes;
    var executed := Execute(k, rawPolicy, raws, current);
    if executed.Failure? {
      return Failure(executed.error);
    }
    var run := executed.value;
    RunFilesAreSafe(k, rawPolicy, raws, current);
    var body := BuildManifest(k.digester, run.files, run.runId);
    if body.Failure? {
      return Failure(body.error);
    }
    result := Success(run.files[MANIFEST := body.value]);
  }

  /** The steps of `run_actions`, each as it went. */
  lemma ExecutedParts(k: Kernel, rawPolicy: string, raws: seq<string>, current: Value)
    requires Execute(k, rawPolicy, raws, current).Success?
    ensures var run := Execute(k, rawPolicy, raws, current).value;
      && Read(rawPolicy).Success? && k.normalizePolicy(Read(rawPolicy).value) == Success(run.policy)
      && NormalizeActions(k, raws).Success? && NormalizeAll(k, raws) == NormalizeActions(k, raws) && |raws| >= 1
      && RunId(k, rawPolicy, run.policy, raws, NormalizeActions(k, raws).value, Bundle(current)) == Success(run.runId)
      && PolicyIdentity(k, run.policy).Success?
      && RecordsUpTo(k, raws, NormalizeActions(k, raws).value, run.policy, PolicyIdentity(k, run.policy).value, |raws|)
        == Success(run.chain)
      && k.geometry(run.chain, run.policy) == Success(run.geometry)
      && Summary(k, run.runId, rawPolicy, run.policy, run.chain, current, run.geometry) == Success(run.summary)
      && run.files == Artifacts(Frame(k.origin(run.policy), rawPolicy, run.policy, current, run.summary), run.chain,
        run.geometry.files)
  {
    hide RecordsUpTo, RunId, Summary, PolicyIdentity, Artifacts, NormalizeAll, HasDistinctActionIds, HasDistinctSequences,
      HasOrderedSequences;
  }

  lemma LawfulGeometry(k: Kernel, c: Chain, p: Value)
    requires IsLawful(k) && k.geometry(c, p).Success?
    ensures AreGeometryFiles(k.geometry(c, p).value.files)
  {
    hide AreGeometryFiles, IsDigest, IsNormal, IsChoice;
  }

  lemma RunFilesAreSafe(k: Kernel, rawPolicy: string, raws: seq<string>, current: Value)
    requires IsLawful(k) && Execute(k, rawPolicy, raws, current).Success?
    ensures var run := Execute(k, rawPolicy, raws, current).value;
      && run.chain.Valid() && AreGeometryFiles(run.geometry.files)
      && MANIFEST !in run.files && forall path :: path in run.files ==> IsSafePath(path)
  {
    ExecutedParts(k, rawPolicy, raws, current);
    hide Execute, IsLawful, RecordsUpTo, RunId, Summary, IsSafePath, Artifacts, AreGeometryFiles, NormalizeActions,
      NormalizeAll, PolicyIdentity, Read, MANIFEST;
    var run := Execute(k, rawPolicy, raws, current).value;
    LawfulGeometry(k, run.chain, run.policy);
    ArtifactsMean(Frame(k.origin(run.policy), rawPolicy, run.policy, current, run.summary), run.chain, run.geometry.files);
    forall path | path in run.files ensures IsSafePath(path) {
      ExpectedIsSafe(run.chain.Length(), run.geometry.files, path);
    }
  }
}
