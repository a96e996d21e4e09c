/** The head of a chain of records stands for all of it: no record can be changed, left out or moved
    without changing the last receipt, as long as SHA-256 does not collide on the records at hand. */
module Lineage {
  import opened Outcomes
  import opened Actions
  import opened Effects
  import opened Json
  import opened CanonicalJson
  import opened Fields
  import opened Records
  import opened RunFiles
  import opened Engine
  import opened Verifier
  import opened Manifest
  import Replay
  import Completeness

  // ---------- what the digests are taken of ----------

  ghost function ReceiptPreimage(r: Receipt): string {
    Preimage("HERESY-SEC/RECEIPT/v1", Obj(ReceiptCore(r.index, r.capture, r.action, r.policy, r.decision, r.previous)))
  }

  ghost function DecisionPreimage(d: Decision): string {
    Preimage("HERESY-SEC/DECISION/v1", Obj(DecisionCore(d.action, d.policy, d.choice)))
  }

  ghost function ActionPreimage(action: Value): string {
    Preimage("HERESY-SEC/ACTION/v1", action)
  }

  /** The hash tells the two texts apart, if they differ. */
  ghost predicate TellsApart(sha: string -> string, a: string, b: string) {
    sha(a) == sha(b) ==> a == b
  }

  /** SHA-256 does not collide between a record of the one chain and a record of the other. */
  ghost predicate ChainsDoNotCollide(sha: string -> string, c: Chain, d: Chain)
    requires c.Valid() && d.Valid()
  {
    forall i, j | 0 <= i < c.Length() && 0 <= j < d.Length() ::
      && TellsApart(sha, ReceiptPreimage(c.receipts[i]), ReceiptPreimage(d.receipts[j]))
      && TellsApart(sha, DecisionPreimage(c.decisions[i]), DecisionPreimage(d.decisions[j]))
      && TellsApart(sha, ActionPreimage(c.actions[i]), ActionPreimage(d.actions[j]))
      && TellsApart(sha, c.raws[i], d.raws[j])
  }

  // ---------- equal preimages ----------

  lemma SortedPreimage(domain: string, v: Value)
    requires WellFormed(v)
    ensures Preimage(domain, v) == Preimage(domain, Sorted(v))
  {
    SortedKeeps(v, 0);
  }

  lemma SameCore(domain: string, a: seq<Member>, b: seq<Member>)
    requires WellFormed(Obj(a)) && WellFormed(Obj(b)) && IsNormal(Sorted(Obj(a))) && IsNormal(Sorted(Obj(b)))
    requires Preimage(domain, Obj(a)) == Preimage(domain, Obj(b))
    ensures Sorted(Obj(a)) == Sorted(Obj(b))
  {
    hide WellFormed, IsNormal, Sorted, Preimage;
    SortedPreimage(domain, Obj(a));
    SortedPreimage(domain, Obj(b));
    Replay.SamePreimage(domain, Sorted(Obj(a)), Sorted(Obj(b)));
  }

  /** The first members of a record whose keys are distinct. */
  lemma FrontKeysDiffer(m: seq<Member>, n: nat)
    requires DistinctKeys(m) && n <= |m|
    ensures DistinctKeys(m[..n])
  {
  }

  lemma ReceiptCoreIsNormal(r: Receipt)
    requires r.index <= MAX_SAFE_INTEGER
    ensures var m := ReceiptCore(r.index, r.capture, r.action, r.policy, r.decision, r.previous);
      DistinctKeys(m) && WellFormed(Obj(m)) && IsNormal(Sorted(Obj(m)))
  {
    hide DistinctKeys, Keys, IsNormal, Sorted;
    var m := ReceiptCore(r.index, r.capture, r.action, r.policy, r.decision, r.previous);
    ReceiptKeysDiffer(r);
    FrontKeysDiffer(ReceiptMembers(r), 7);
    assert ReceiptMembers(r)[..7] == m;
    forall i | 0 <= i < |m| ensures IsScalar(m[i].value) {
      assert m[i].value.Str? || m[i].value == Int(r.index);
    }
    MembersAreNormal(m);
  }

  /** The fields of a receipt, but for its own hash. */
  ghost predicate SameReceiptCore(r: Receipt, s: Receipt) {
    && r.index == s.index && r.capture == s.capture && r.action == s.action && r.policy == s.policy
    && r.decision == s.decision && r.previous == s.previous
  }

  lemma ReceiptCoreFields(r: Receipt)
    requires r.index <= MAX_SAFE_INTEGER
    ensures var v := Sorted(Obj(ReceiptCore(r.index, r.capture, r.action, r.policy, r.decision, r.previous)));
      && Field(v, "index") == Int(r.index) && Field(v, "capture_sha256") == Str(r.capture)
      && Field(v, "action_sha256") == Str(r.action) && Field(v, "policy_sha256") == Str(r.policy)
      && Field(v, "decision_sha256") == Str(r.decision) && Field(v, "previous_receipt_sha256") == Str(r.previous)
  {
    var m := ReceiptCore(r.index, r.capture, r.action, r.policy, r.decision, r.previous);
    ReceiptCoreIsNormal(r);
    hide DistinctKeys, Field, Keys, IsNormal;
    FieldOf(m, 1);
    FieldOf(m, 2);
    FieldOf(m, 3);
    FieldOf(m, 4);
    FieldOf(m, 5);
    FieldOf(m, 6);
  }

  lemma ReceiptIsFixed(r: Receipt, s: Receipt)
    requires r.index <= MAX_SAFE_INTEGER && s.index <= MAX_SAFE_INTEGER && ReceiptPreimage(r) == ReceiptPreimage(s)
    ensures SameReceiptCore(r, s)
  {
    hide Preimage, DistinctKeys, IsNormal, WellFormed, Sorted, Field, ReceiptCore;
    ReceiptCoreIsNormal(r);
    ReceiptCoreIsNormal(s);
    SameCore("HERESY-SEC/RECEIPT/v1", ReceiptCore(r.index, r.capture, r.action, r.policy, r.decision, r.previous),
      ReceiptCore(s.index, s.capture, s.action, s.policy, s.decision, s.previous));
    ReceiptCoreFields(r);
    ReceiptCoreFields(s);
  }

  lemma DecisionCoreIsNormal(d: Decision)
    ensures var m := DecisionCore(d.action, d.policy, d.choice);
      DistinctKeys(m) && WellFormed(Obj(m)) && IsNormal(Sorted(Obj(m)))
  {
    hide DistinctKeys, Keys, IsNormal, Sorted;
    var m := DecisionCore(d.action, d.policy, d.choice);
    DecisionKeysDiffer(d);
    FrontKeysDiffer(DecisionMembers(d), 7);
    assert DecisionMembers(d)[..7] == m;
    assert IsScalarList(m[4].value) && IsScalarList(m[5].value);
    MembersAreNormal(m);
  }

  lemma DecisionCoreFields(d: Decision)
    ensures var v := Sorted(Obj(DecisionCore(d.action, d.policy, d.choice)));
      && Field(v, "action_sha256") == Str(d.action) && Field(v, "policy_sha256") == Str(d.policy)
      && Field(v, "effect") == Str(EffectName(d.choice.effect)) && Field(v, "reason_codes") == Arr(Strs(d.choice.reasons))
      && Field(v, "matched_rule_ids") == Arr(Strs(d.choice.matched))
      && Field(v, "selected_rule_id") == SelectedValue(d.choice.selected)
  {
    var m := DecisionCore(d.action, d.policy, d.choice);
    DecisionCoreIsNormal(d);
    StringsRoundTrip(d.choice.reasons);
    StringsRoundTrip(d.choice.matched);
    hide DistinctKeys, Field, Keys, IsNormal, Strs, EffectName, SortedItems;
    FieldOf(m, 1);
    FieldOf(m, 2);
    FieldOf(m, 3);
    FieldOf(m, 4);
    FieldOf(m, 5);
    FieldOf(m, 6);
  }

  lemma SameEffect(a: Effect, b: Effect)
    requires EffectName(a) == EffectName(b)
    ensures a == b
  {
    var s, t := EffectName(a), EffectName(b);
    assert s[0] == (if a == Deny then 'D' else if a == Review then 'R' else 'A');
    assert t[0] == (if b == Deny then 'D' else if b == Review then 'R' else 'A');
    assert s[0] == t[0];
  }

  lemma DecisionIsFixed(d: Decision, e: Decision)
    requires DecisionPreimage(d) == DecisionPreimage(e)
    ensures d.action == e.action && d.policy == e.policy && d.choice == e.choice
  {
    hide Preimage, DistinctKeys, IsNormal, WellFormed, Sorted, Field, DecisionCore, EffectName, Strs, StringsOf;
    DecisionCoreIsNormal(d);
    DecisionCoreIsNormal(e);
    SameCore("HERESY-SEC/DECISION/v1", DecisionCore(d.action, d.policy, d.choice), DecisionCore(e.action, e.policy, e.choice));
    DecisionCoreFields(d);
    DecisionCoreFields(e);
    SameEffect(d.choice.effect, e.choice.effect);
    StringsRoundTrip(d.choice.reasons);
    StringsRoundTrip(e.choice.reasons);
    StringsRoundTrip(d.choice.matched);
    StringsRoundTrip(e.choice.matched);
  }

  // ---------- the chain ----------

  /** A chain whose records carry their hashes, bind what belongs to them and name the receipt before,
      with actions in normal form. */
  ghost predicate IsChain(k: Kernel, c: Chain, policyId: string) {
    && c.Valid()
    && (forall i :: 0 <= i < c.Length() ==> IsBound(k, c, policyId, i) && IsSealed(k, c, i))
    && forall i :: 0 <= i < c.Length() ==> IsNormal(c.actions[i]) && k.normalizeAction(c.actions[i]) == Success(c.actions[i])
  }

  lemma SealedReceipt(k: Kernel, c: Chain, d: Chain, i: nat, j: nat)
    requires c.Valid() && d.Valid() && i < c.Length() && j < d.Length() && IsSealed(k, c, i) && IsSealed(k, d, j)
    requires TellsApart(k.digester.sha, ReceiptPreimage(c.receipts[i]), ReceiptPreimage(d.receipts[j]))
    requires c.receipts[i].digest == d.receipts[j].digest
    ensures c.receipts[i] == d.receipts[j]
  {
    hide Preimage, ReceiptCore, DecisionDigest;
    ReceiptIsFixed(c.receipts[i], d.receipts[j]);
  }

  /** Going back from equal heads, receipt by receipt. */
  lemma {:induction false} SameReceipts(k: Kernel, c: Chain, d: Chain, p: string, q: string, i: nat)
    requires IsChain(k, c, p) && IsChain(k, d, q) && ChainsDoNotCollide(k.digester.sha, c, d)
    requires c.Length() == d.Length() && i < c.Length() && Head(c.receipts) == Head(d.receipts)
    ensures c.receipts[i] == d.receipts[i]
    decreases c.Length() - i
  {
    hide IsSealed, TellsApart, ZERO_HASH, ReceiptPreimage, DecisionPreimage, ActionPreimage, IsNormal, ActionIdentity;
    if i + 1 < c.Length() {
      SameReceipts(k, c, d, p, q, i + 1);
      assert IsBound(k, c, p, i + 1) && IsBound(k, d, q, i + 1);
    }
    SealedReceipt(k, c, d, i, i);
  }

  lemma SameLength(k: Kernel, c: Chain, d: Chain, p: string, q: string)
    requires IsChain(k, c, p) && IsChain(k, d, q) && ChainsDoNotCollide(k.digester.sha, c, d)
    requires c.Length() >= 1 && d.Length() >= 1 && Head(c.receipts) == Head(d.receipts)
    ensures c.Length() == d.Length()
  {
    hide IsSealed, TellsApart, ZERO_HASH, ReceiptPreimage, DecisionPreimage, ActionPreimage, IsNormal, ActionIdentity;
    var i, j := c.Length() - 1, d.Length() - 1;
    SealedReceipt(k, c, d, i, j);
    assert IsBound(k, c, p, i) && IsBound(k, d, q, j);
  }

  lemma SameAction(k: Kernel, a: Value, b: Value)
    requires IsNormal(a) && k.normalizeAction(a) == Success(a) && IsNormal(b) && k.normalizeAction(b) == Success(b)
    requires ActionIdentity(k, a) == ActionIdentity(k, b) && TellsApart(k.digester.sha, ActionPreimage(a), ActionPreimage(b))
    ensures a == b
  {
    hide IsNormal, Preimage;
    Replay.SamePreimage("HERESY-SEC/ACTION/v1", a, b);
  }

  lemma SameDecision(k: Kernel, d: Decision, e: Decision)
    requires d.digest == DecisionDigest(k.digester.sha, d.action, d.policy, d.choice)
    requires e.digest == DecisionDigest(k.digester.sha, e.action, e.policy, e.choice)
    requires d.digest == e.digest && TellsApart(k.digester.sha, DecisionPreimage(d), DecisionPreimage(e))
    ensures d == e
  {
    hide Preimage, DecisionCore;
    DecisionIsFixed(d, e);
  }

  lemma SameRecordAt(k: Kernel, c: Chain, d: Chain, p: string, q: string, i: nat)
    requires IsChain(k, c, p) && IsChain(k, d, q) && ChainsDoNotCollide(k.digester.sha, c, d)
    requires i < c.Length() && i < d.Length() && c.receipts[i] == d.receipts[i]
    ensures c.raws[i] == d.raws[i] && c.actions[i] == d.actions[i] && c.decisions[i] == d.decisions[i]
  {
    hide ZERO_HASH, ReceiptPreimage, DecisionPreimage, ActionPreimage, IsNormal, ActionIdentity, DecisionDigest, ReceiptDigest;
    assert IsBound(k, c, p, i) && IsBound(k, d, q, i) && IsSealed(k, c, i) && IsSealed(k, d, i);
    SameAction(k, c.actions[i], d.actions[i]);
    SameDecision(k, c.decisions[i], d.decisions[i]);
  }

  /** Equal heads, equal chains: captures, actions, decisions, receipts and the digest of the policy. */
  lemma HeadFixesChain(k: Kernel, c: Chain, d: Chain, p: string, q: string)
    requires IsChain(k, c, p) && IsChain(k, d, q) && ChainsDoNotCollide(k.digester.sha, c, d)
    requires c.Length() >= 1 && d.Length() >= 1 && Head(c.receipts) == Head(d.receipts)
    ensures c == d && p == q
  {
    SameLength(k, c, d, p, q);
    assert IsBound(k, c, p, 0) && IsBound(k, d, q, 0);
    hide IsChain, ChainsDoNotCollide, Head;
    forall i | 0 <= i < c.Length()
      ensures c.receipts[i] == d.receipts[i] && c.raws[i] == d.raws[i] && c.actions[i] == d.actions[i]
      ensures c.decisions[i] == d.decisions[i]
    {
      SameReceipts(k, c, d, p, q, i);
      SameRecordAt(k, c, d, p, q, i);
    }
    assert c.raws == d.raws && c.actions == d.actions && c.decisions == d.decisions && c.receipts == d.receipts;
  }

  // ---------- runs and directories ----------

  /** The records of a run form such a chain. */
  lemma RunIsChain(k: Kernel, rawPolicy: string, raws: seq<string>, current: Value, run: Run)
    requires IsLawful(k) && Execute(k, rawPolicy, raws, current) == Success(run)
    ensures PolicyIdentity(k, run.policy).Success?
    ensures IsChain(k, run.chain, PolicyIdentity(k, run.policy).value) && run.chain.Length() == |raws| >= 1
  {
    ExecutedParts(k, rawPolicy, raws, current);
    hide Execute, IsLawful, NormalizeAll, NormalizeActions, Read, PolicyIdentity, RecordsUpTo, RunId, Summary, Artifacts,
      Completeness.AreNormalized, CanonicalText, EventLog, IsChain;
    Completeness.NormalizedActions(k, raws);
    Completeness.NormalizedLengths(k, raws, NormalizeAll(k, raws).value);
    RecordsAreChain(k, raws, NormalizeAll(k, raws).value, run.policy, PolicyIdentity(k, run.policy).value, run.chain);
  }

  lemma RecordsAreChain(k: Kernel, raws: seq<string>, actions: seq<Value>, policy: Value, policyId: string, c: Chain)
    requires Completeness.AreNormalized(k, raws, actions) && |raws| == |actions|
    requires RecordsUpTo(k, raws, actions, policy, policyId, |raws|) == Success(c)
    ensures IsChain(k, c, policyId) && c.Length() == |raws|
  {
    hide RecordsUpTo, Evaluate, IsBound, IsSealed, IsNormal, Read;
    RecordsMean(k, raws, actions, policy, policyId, |raws|);
    assert raws[..|raws|] == raws && actions[..|actions|] == actions;
    forall i | 0 <= i < c.Length() ensures IsBound(k, c, policyId, i) && IsSealed(k, c, i) {
      assert IsRecord(k, c, policy, policyId, i);
    }
  }

  /** The records of a directory that `_semantic_records` accepts form such a chain. */
  lemma StoredIsChain(k: Kernel, files: Files, policy: Value, c: Chain, policyId: string)
    requires IsLawful(k) && HoldsRecords(k, files, policy, c) && PolicyIdentity(k, policy) == Success(policyId)
    ensures IsChain(k, c, policyId)
  {
    hide IsLawful, IsBound, IsSealed, IsNormal, Read, PolicyIdentity, ActionIdentity, RecordPath, Body;
    forall i | 0 <= i < c.Length()
      ensures IsBound(k, c, policyId, i) && IsSealed(k, c, i)
      ensures IsNormal(c.actions[i]) && k.normalizeAction(c.actions[i]) == Success(c.actions[i])
    {
      assert IsRecorded(k, files, c, i) && IsLinked(k, policy, c, i);
      ReadIsNormal(c.raws[i]);
      Completeness.LawfulAction(k, Read(c.raws[i]).value);
    }
  }

  /** Two directories that pass the semantic checks under the same last receipt hold the same captures,
      actions, decisions and receipts. */
  lemma HeadFixesDirectory(k: Kernel, files: Files, other: Files)
    requires IsLawful(k) && Semantic(k, files).Success? && Semantic(k, other).Success?
    requires var s, t := Semantic(k, files).value, Semantic(k, other).value;
      Head(s.chain.receipts) == Head(t.chain.receipts) && ChainsDoNotCollide(k.digester.sha, s.chain, t.chain)
    ensures Semantic(k, files).value.chain == Semantic(k, other).value.chain
  {
    hide IsLawful, Head, ChainsDoNotCollide, HoldsRecords, IsFramed, HasGeometry, HasExpectedPaths, EventLog;
    var s, t := Semantic(k, files).value, Semantic(k, other).value;
    StoredHasPolicy(k, files);
    StoredHasPolicy(k, other);
    hide Semantic;
    StoredIsChain(k, files, s.policy, s.chain, PolicyIdentity(k, s.policy).value);
    StoredIsChain(k, other, t.policy, t.chain, PolicyIdentity(k, t.policy).value);
    HeadFixesChain(k, s.chain, t.chain, PolicyIdentity(k, s.policy).value, PolicyIdentity(k, t.policy).value);
  }

  lemma StoredHasPolicy(k: Kernel, files: Files)
    requires Semantic(k, files).Success?
    ensures var s := Semantic(k, files).value;
      s.chain.Length() >= 1 && PolicyIdentity(k, s.policy).Success? && HoldsRecords(k, files, s.policy, s.chain)
  {
    SemanticsAreRead(k, files);
    hide Semantic, IsFramed, IsRecorded, HasGeometry, HasExpectedPaths, EventLog, PolicyIdentity, IsBound, IsSealed,
      ActionIdentity, NormalizeAll, Read, EVENT_LOG;
    var s := Semantic(k, files).value;
    assert IsLinked(k, s.policy, s.chain, 0);
  }
}
