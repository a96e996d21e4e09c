/** A run that the engine writes replays just when no action matches more than 256 rules. */
module Completeness {
  import opened Outcomes
  import opened Effects
  import opened Actions
  import opened Json
  import opened CanonicalJson
  import opened Fields
  import opened Records
  import opened Manifest
  import opened RunFiles
  import opened Engine
  import opened Verifier
  import opened Replay
  import Policy

  // ---------- what the laws give ----------

  lemma LawfulAction(k: Kernel, v: Value)
    requires IsLawful(k) && IsNormal(v) && k.normalizeAction(v).Success?
    ensures var a := k.normalizeAction(v).value;
      IsNormal(a) && k.normalizeAction(a) == Success(a)
  {
    hide IsNormal, IsDigest, IsChoice, AreGeometryFiles;
  }

  lemma LawfulPolicy(k: Kernel, v: Value)
    requires IsLawful(k) && IsNormal(v) && k.normalizePolicy(v).Success?
    ensures var p := k.normalizePolicy(v).value;
      IsNormal(p) && (k.normalizePolicy(p).Success? ==> k.normalizePolicy(p) == Success(p))
  {
    hide IsNormal, IsDigest, IsChoice, AreGeometryFiles;
  }

  lemma LawfulHashes(k: Kernel, text: string)
    requires IsLawful(k)
    ensures IsDigest(k.digester.sha(text))
  {
    hide IsNormal, IsDigest, IsChoice, AreGeometryFiles;
  }

  lemma LawfulChoice(k: Kernel, a: Value, p: Value)
    requires IsLawful(k) && k.normalizePolicy(p) == Success(p)
    ensures IsChoice(k.decide(a, p))
  {
    hide IsNormal, IsDigest, IsChoice, AreGeometryFiles;
  }

  lemma ZeroIsDigest()
    ensures IsDigest(ZERO_HASH)
  {
  }

  // ---------- one record ----------

  /** A decision and a receipt as the engine builds them. */
  ghost predicate IsBuilt(k: Kernel, d: Decision, r: Receipt) {
    && IsChoice(d.choice) && IsDigest(d.action) && IsDigest(d.policy)
    && d == BuildDecision(k.digester.sha, d.action, d.policy, d.choice)
    && IsDigest(r.capture) && IsDigest(r.action) && IsDigest(r.policy) && IsDigest(r.decision) && IsDigest(r.previous)
    && r.index <= MAX_SAFE_INTEGER
    && r == BuildReceipt(k.digester.sha, r.index, r.capture, r.action, r.policy, r.decision, r.previous)
    && IsDigest(r.digest)
  }

  /** The last record of a chain, and how it was made. */
  ghost predicate IsNext(k: Kernel, c: Chain, raw: string, action: Value, policy: Value, policyId: string, d: Chain)
    requires c.Valid()
  {
    && d.Valid() && d.Length() == c.Length() + 1
    && var decision, receipt := d.decisions[c.Length()], d.receipts[c.Length()];
    && d == c.Plus(raw, action, decision, receipt)
    && IsBuilt(k, decision, receipt)
    && ActionIdentity(k, action) == Success(decision.action) && decision.policy == policyId
    && Binds(k, receipt, c.Length(), raw, decision.action, policyId, decision, Head(c.receipts))
  }

  lemma IdentityIsDigest(k: Kernel, action: Value, policy: Value)
    requires IsLawful(k)
    ensures ActionIdentity(k, action).Success? ==> IsDigest(ActionIdentity(k, action).value)
    ensures PolicyIdentity(k, policy).Success? ==> IsDigest(PolicyIdentity(k, policy).value)
  {
    hide IsLawful, IsDigest, Preimage;
    if ActionIdentity(k, action).Success? {
      LawfulHashes(k, Preimage("HERESY-SEC/ACTION/v1", k.normalizeAction(action).value));
    }
    if PolicyIdentity(k, policy).Success? {
      var p := k.normalizePolicy(policy).value;
      LawfulHashes(k, Preimage(if IsVersion2(p) then "HERESY-SEC/POLICY/v2" else "HERESY-SEC/POLICY/v1", p));
    }
  }

  lemma EvaluatedDecision(k: Kernel, action: Value, policy: Value)
    requires IsLawful(k) && Evaluate(k, action, policy).Success?
    requires k.normalizeAction(action) == Success(action) && k.normalizePolicy(policy) == Success(policy)
    ensures var d := Evaluate(k, action, policy).value;
      && ActionIdentity(k, action) == Success(d.action) && PolicyIdentity(k, policy) == Success(d.policy)
      && IsChoice(d.choice) && d == BuildDecision(k.digester.sha, d.action, d.policy, d.choice)
  {
    hide IsLawful, IsChoice, ActionIdentity, PolicyIdentity, DecisionDigest;
    LawfulChoice(k, action, policy);
  }

  lemma BuiltRecord(k: Kernel, c: Chain, raw: string, action: Value, policy: Value, policyId: string)
    requires IsLawful(k) && c.Valid() && IsDigest(Head(c.receipts))
    requires k.normalizeAction(action) == Success(action) && k.normalizePolicy(policy) == Success(policy)
    requires PolicyIdentity(k, policy) == Success(policyId)
    requires NextRecord(k, c, raw, action, policy, policyId).Success?
    ensures IsNext(k, c, raw, action, policy, policyId, NextRecord(k, c, raw, action, policy, policyId).value)
  {
    hide IsLawful, IsDigest, ActionIdentity, PolicyIdentity, DecisionDigest, ReceiptDigest, Head, IsChoice, Evaluate;
    EvaluatedDecision(k, action, policy);
    IdentityIsDigest(k, action, policy);
    LawfulHashes(k, raw);
    var d := Evaluate(k, action, policy).value;
    DigestsAreDigests(k, d, NextRecord(k, c, raw, action, policy, policyId).value.receipts[c.Length()]);
  }

  lemma DigestsAreDigests(k: Kernel, d: Decision, r: Receipt)
    requires IsLawful(k)
    requires d == BuildDecision(k.digester.sha, d.action, d.policy, d.choice)
    requires r == BuildReceipt(k.digester.sha, r.index, r.capture, r.action, r.policy, r.decision, r.previous)
    ensures IsDigest(d.digest) && IsDigest(r.digest)
  {
    hide IsLawful, IsDigest, Preimage;
    LawfulHashes(k, Preimage("HERESY-SEC/DECISION/v1", Obj(DecisionCore(d.action, d.policy, d.choice))));
    LawfulHashes(k, Preimage("HERESY-SEC/RECEIPT/v1",
      Obj(ReceiptCore(r.index, r.capture, r.action, r.policy, r.decision, r.previous))));
  }

  /** The four files of a record. */
  ghost predicate HasRecord(files: Files, c: Chain, i: nat)
    requires c.Valid() && i < c.Length()
  {
    forall s: Slot :: RecordPath(s, i) in files && files[RecordPath(s, i)] == Body(c, s, i)
  }

  lemma BuiltActionReads(k: Kernel, files: Files, i: nat, raw: string, action: Value)
    requires RecordPath(ActionSlot, i) in files && files[RecordPath(ActionSlot, i)] == CanonicalText(action)
    requires IsNormal(action) && k.normalizeAction(action) == Success(action)
    requires Read(raw).Success? && k.normalizeAction(Read(raw).value) == Success(action)
    ensures ReadAction(k, files, i, raw) == Success(action)
  {
    hide RecordPath, Read, CanonicalText, IsNormal;
    ReadsBack(action);
  }

  lemma BuiltDecisionReads(k: Kernel, files: Files, i: nat, d: Decision, r: Receipt)
    requires RecordPath(DecisionSlot, i) in files && files[RecordPath(DecisionSlot, i)] == CanonicalText(DecisionValue(d))
    requires RecordPath(ReceiptSlot, i) in files && files[RecordPath(ReceiptSlot, i)] == CanonicalText(ReceiptValue(r))
    requires IsBuilt(k, d, r) && |d.choice.matched| <= Policy.MAX_SET
    ensures ReadDecision(k, files, i) == Success(d) && ReadReceipt(k, files, i) == Success(r)
  {
    hide RecordPath, Read, CanonicalText, IsNormal, DecisionValue, ReceiptValue, NormalizeDecision, NormalizeReceipt,
      IsChoice, IsDigest, BuildDecision, BuildReceipt;
    DecisionIsNormal(d);
    ReceiptIsNormal(r);
    ReadsBack(DecisionValue(d));
    ReadsBack(ReceiptValue(r));
    DecisionRoundTrip(k.digester.sha, d);
    ReceiptRoundTrip(k.digester.sha, r);
  }

  lemma LineageHolds(k: Kernel, files: Files, i: nat, raw: string, action: Value, policy: Value, policyId: string,
    d: Decision, r: Receipt, previous: string)
    requires RecordPath(DecisionSlot, i) in files && files[RecordPath(DecisionSlot, i)] == CanonicalText(DecisionValue(d))
    requires RecordPath(ReceiptSlot, i) in files && files[RecordPath(ReceiptSlot, i)] == CanonicalText(ReceiptValue(r))
    requires ActionIdentity(k, action) == Success(d.action) && PolicyIdentity(k, policy) == Success(policyId)
    requires d.policy == policyId && Binds(k, r, i, raw, d.action, policyId, d, previous)
    ensures CheckLineage(k, files, i, raw, action, policy, d, r, previous) == Success(())
  {
    hide RecordPath, CanonicalText, DecisionValue, ReceiptValue, ActionIdentity, PolicyIdentity, Binds;
  }

  lemma RecordAssembles(k: Kernel, files: Files, policy: Value, c: Chain, raw: string, action: Value, decision: Decision,
    receipt: Receipt)
    requires c.Valid() && ReadFile(files, RecordPath(CaptureSlot, c.Length())) == Success(raw)
    requires ReadAction(k, files, c.Length(), raw) == Success(action)
    requires ReadDecision(k, files, c.Length()) == Success(decision) && ReadReceipt(k, files, c.Length()) == Success(receipt)
    requires CheckLineage(k, files, c.Length(), raw, action, policy, decision, receipt, Head(c.receipts)) == Success(())
    ensures ReadRecord(k, files, policy, c) == Success(c.Plus(raw, action, decision, receipt))
  {
    hide RecordPath, ReadFile, ReadAction, ReadDecision, ReadReceipt, CheckLineage, Head;
  }

  /** The bodies of the last record. */
  lemma LastBodies(files: Files, d: Chain, i: nat)
    requires d.Valid() && i < d.Length() && HasRecord(files, d, i)
    ensures ReadFile(files, RecordPath(CaptureSlot, i)) == Success(d.raws[i])
    ensures RecordPath(ActionSlot, i) in files && files[RecordPath(ActionSlot, i)] == CanonicalText(d.actions[i])
    ensures RecordPath(DecisionSlot, i) in files
    ensures files[RecordPath(DecisionSlot, i)] == CanonicalText(DecisionValue(d.decisions[i]))
    ensures RecordPath(ReceiptSlot, i) in files
    ensures files[RecordPath(ReceiptSlot, i)] == CanonicalText(ReceiptValue(d.receipts[i]))
  {
    hide RecordPath, CanonicalText, DecisionValue, ReceiptValue;
    assert Body(d, CaptureSlot, i) == d.raws[i];
    assert Body(d, ActionSlot, i) == CanonicalText(d.actions[i]);
    assert Body(d, DecisionSlot, i) == CanonicalText(DecisionValue(d.decisions[i]));
    assert Body(d, ReceiptSlot, i) == CanonicalText(ReceiptValue(d.receipts[i]));
  }

  /** A record that was built and written is read back as it was. */
  lemma RecordReads(k: Kernel, files: Files, policy: Value, policyId: string, c: Chain, d: Chain, raw: string, action: Value)
    requires c.Valid() && IsNext(k, c, raw, action, policy, policyId, d) && HasRecord(files, d, c.Length())
    requires IsNormal(action) && k.normalizeAction(action) == Success(action)
    requires Read(raw).Success? && k.normalizeAction(Read(raw).value) == Success(action)
    requires PolicyIdentity(k, policy) == Success(policyId) && IsReadable(d)
    ensures ReadRecord(k, files, policy, c) == Success(d)
  {
    hide RecordPath, Read, CanonicalText, IsNormal, DecisionValue, ReceiptValue, ReadAction, ReadDecision, ReadReceipt,
      CheckLineage, Binds, ActionIdentity, PolicyIdentity, IsBuilt, ReadFile, Head, ReadRecord, HasRecord;
    var i := c.Length();
    var decision, receipt := d.decisions[i], d.receipts[i];
    LastBodies(files, d, i);
    assert d.raws[i] == raw && d.actions[i] == action;
    BuiltActionReads(k, files, i, raw, action);
    BuiltDecisionReads(k, files, i, decision, receipt);
    LineageHolds(k, files, i, raw, action, policy, policyId, decision, receipt, Head(c.receipts));
    RecordAssembles(k, files, policy, c, raw, action, decision, receipt);
  }

  // ---------- all records ----------

  /** c is the beginning of d. */
  ghost predicate Begins(c: Chain, d: Chain) {
    && c.Valid() && d.Valid() && c.Length() <= d.Length()
    && d.raws[..c.Length()] == c.raws && d.actions[..c.Length()] == c.actions
    && d.decisions[..c.Length()] == c.decisions && d.receipts[..c.Length()] == c.receipts
  }

  lemma BeginningIs(c: Chain, d: Chain, i: nat)
    requires Begins(c, d) && i < c.Length()
    ensures c.raws[i] == d.raws[i] && c.actions[i] == d.actions[i]
    ensures c.decisions[i] == d.decisions[i] && c.receipts[i] == d.receipts[i]
  {
    assert d.raws[..c.Length()][i] == d.raws[i] && d.actions[..c.Length()][i] == d.actions[i];
    assert d.decisions[..c.Length()][i] == d.decisions[i] && d.receipts[..c.Length()][i] == d.receipts[i];
  }

  lemma BeginsLonger(c: Chain, d: Chain, e: Chain)
    requires Begins(c, d) && Begins(d, e)
    ensures Begins(c, e)
  {
    assert e.raws[..c.Length()] == e.raws[..d.Length()][..c.Length()];
    assert e.actions[..c.Length()] == e.actions[..d.Length()][..c.Length()];
    assert e.decisions[..c.Length()] == e.decisions[..d.Length()][..c.Length()];
    assert e.receipts[..c.Length()] == e.receipts[..d.Length()][..c.Length()];
  }

  lemma NextBegins(k: Kernel, c: Chain, raw: string, action: Value, policy: Value, policyId: string)
    requires c.Valid() && NextRecord(k, c, raw, action, policy, policyId).Success?
    ensures Begins(c, NextRecord(k, c, raw, action, policy, policyId).value)
  {
    hide Evaluate, ActionIdentity, BuildReceipt, Head;
  }

  lemma {:induction false} RecordsBegin(k: Kernel, raws: seq<string>, actions: seq<Value>, policy: Value, policyId: string, m: nat, n: nat)
    requires m <= n <= |raws| == |actions| && RecordsUpTo(k, raws, actions, policy, policyId, n).Success?
    ensures RecordsUpTo(k, raws, actions, policy, policyId, m).Success?
    ensures Begins(RecordsUpTo(k, raws, actions, policy, policyId, m).value, RecordsUpTo(k, raws, actions, policy, policyId, n).value)
  {
    hide NextRecord, Begins;
    if m < n {
      RecordsBegin(k, raws, actions, policy, policyId, m, n - 1);
      var c := RecordsUpTo(k, raws, actions, policy, policyId, n - 1).value;
      NextBegins(k, c, raws[n - 1], actions[n - 1], policy, policyId);
      BeginsLonger(RecordsUpTo(k, raws, actions, policy, policyId, m).value, c, RecordsUpTo(k, raws, actions, policy, policyId, n).value);
    } else {
      BeginsItself(RecordsUpTo(k, raws, actions, policy, policyId, n).value);
    }
  }

  lemma BeginsItself(c: Chain)
    requires c.Valid()
    ensures Begins(c, c)
  {
  }

  /** Normalized actions, with where they come from. */
  ghost predicate AreNormalized(k: Kernel, raws: seq<string>, actions: seq<Value>) {
    && |raws| == |actions|
    && forall i :: 0 <= i < |raws| ==>
      && Read(raws[i]).Success? && k.normalizeAction(Read(raws[i]).value) == Success(actions[i])
      && IsNormal(actions[i]) && k.normalizeAction(actions[i]) == Success(actions[i])
  }

  lemma {:induction false} NormalizedActions(k: Kernel, raws: seq<string>)
    requires IsLawful(k) && NormalizeAll(k, raws).Success?
    ensures AreNormalized(k, raws, NormalizeAll(k, raws).value)
  {
    hide IsLawful, Read, IsNormal;
    if raws != [] {
      var n := |raws| - 1;
      NormalizedActions(k, raws[..n]);
      ReadIsNormal(raws[n]);
      LawfulAction(k, Read(raws[n]).value);
    }
  }

  lemma HeadOfBuilt(k: Kernel, c: Chain, raw: string, action: Value, policy: Value, policyId: string, d: Chain)
    requires c.Valid() && IsNext(k, c, raw, action, policy, policyId, d)
    ensures IsDigest(Head(d.receipts))
  {
    hide IsDigest, ActionIdentity, Binds, BuildDecision, BuildReceipt, IsChoice, ZERO_HASH;
  }

  ghost predicate HasRecords(files: Files, c: Chain)
    requires c.Valid()
  {
    forall i :: 0 <= i < c.Length() ==> HasRecord(files, c, i)
  }

  lemma EarlierRecord(files: Files, c: Chain, d: Chain, i: nat)
    requires Begins(c, d) && i < c.Length() && HasRecords(files, d)
    ensures HasRecord(files, c, i)
  {
    hide RecordPath, CanonicalText, DecisionValue, ReceiptValue;
    BeginningIs(c, d, i);
    assert HasRecord(files, d, i);
  }

  lemma EarlierReadable(c: Chain, d: Chain)
    requires Begins(c, d) && IsReadable(d)
    ensures IsReadable(c)
  {
    forall i | 0 <= i < |c.decisions| ensures |c.decisions[i].choice.matched| <= Policy.MAX_SET {
      BeginningIs(c, d, i);
    }
  }

  /** How the record after c is built, and that it is read back. */
  lemma NextRecordReads(k: Kernel, files: Files, raws: seq<string>, actions: seq<Value>, policy: Value, policyId: string,
    c: Chain, i: nat, whole: Chain)
    requires IsLawful(k) && AreNormalized(k, raws, actions) && i < |raws|
    requires k.normalizePolicy(policy) == Success(policy) && PolicyIdentity(k, policy) == Success(policyId)
    requires c.Valid() && c.Length() == i && IsDigest(Head(c.receipts))
    requires NextRecord(k, c, raws[i], actions[i], policy, policyId).Success?
    requires Begins(NextRecord(k, c, raws[i], actions[i], policy, policyId).value, whole)
    requires HasRecords(files, whole) && IsReadable(whole)
    ensures var d := NextRecord(k, c, raws[i], actions[i], policy, policyId).value;
      ReadRecord(k, files, policy, c) == Success(d) && IsDigest(Head(d.receipts))
  {
    var d := NextRecord(k, c, raws[i], actions[i], policy, policyId).value;
    hide IsLawful, PolicyIdentity, IsReadable, HasRecords, NextRecord, ReadRecord, Begins, IsNext, Head, IsDigest, Read,
      IsNormal, HasRecord;
    BuiltRecord(k, c, raws[i], actions[i], policy, policyId);
    HeadOfBuilt(k, c, raws[i], actions[i], policy, policyId, d);
    NextIsLonger(k, c, raws[i], actions[i], policy, policyId, d);
    EarlierRecord(files, d, whole, i);
    EarlierReadable(d, whole);
    RecordReads(k, files, policy, policyId, c, d, raws[i], actions[i]);
  }

  lemma NextIsLonger(k: Kernel, c: Chain, raw: string, action: Value, policy: Value, policyId: string, d: Chain)
    requires c.Valid() && IsNext(k, c, raw, action, policy, policyId, d)
    ensures d.Valid() && d.Length() == c.Length() + 1
  {
    hide IsBuilt, ActionIdentity, Binds;
  }

  lemma OneMore(k: Kernel, files: Files, raws: seq<string>, actions: seq<Value>, policy: Value, policyId: string, n: nat)
    requires 1 <= n <= |raws| == |actions| && RecordsUpTo(k, raws, actions, policy, policyId, n).Success?
    ensures RecordsUpTo(k, raws, actions, policy, policyId, n - 1).Success?
    ensures var c := RecordsUpTo(k, raws, actions, policy, policyId, n - 1).value;
      RecordsUpTo(k, raws, actions, policy, policyId, n) == NextRecord(k, c, raws[n - 1], actions[n - 1], policy, policyId)
      && (ReadUpTo(k, files, policy, n - 1) == Success(c) ==> ReadUpTo(k, files, policy, n) == ReadRecord(k, files, policy, c))
  {
    hide NextRecord, ReadRecord;
  }

  /** The records of a run are read back one after the other. */
  lemma {:induction false} RecordsRead(k: Kernel, files: Files, raws: seq<string>, actions: seq<Value>, policy: Value,
    policyId: string, whole: Chain, n: nat)
    requires IsLawful(k) && n <= |raws| && AreNormalized(k, raws, actions)
    requires k.normalizePolicy(policy) == Success(policy) && PolicyIdentity(k, policy) == Success(policyId)
    requires |raws| == |actions| && RecordsUpTo(k, raws, actions, policy, policyId, |raws|) == Success(whole)
    requires HasRecords(files, whole) && IsReadable(whole)
    ensures RecordsUpTo(k, raws, actions, policy, policyId, n).Success?
    ensures ReadUpTo(k, files, policy, n) == RecordsUpTo(k, raws, actions, policy, policyId, n)
    ensures IsDigest(Head(RecordsUpTo(k, raws, actions, policy, policyId, n).value.receipts))
    decreases n
  {
    hide IsLawful, PolicyIdentity, IsReadable, HasRecords, NextRecord, ReadRecord, Begins, IsDigest, AreNormalized;
    RecordsBegin(k, raws, actions, policy, policyId, n, |raws|);
    if n == 0 {
      ZeroIsDigest();
    } else {
      hide Head;
      RecordsRead(k, files, raws, actions, policy, policyId, whole, n - 1);
      OneMore(k, files, raws, actions, policy, policyId, n);
      hide RecordsUpTo, ReadUpTo;
      NextRecordReads(k, files, raws, actions, policy, policyId,
        RecordsUpTo(k, raws, actions, policy, policyId, n - 1).value, n - 1, whole);
    }
  }

  // ---------- the summary ----------

  const LETTERS: seq<char> := ['s', 'r', 'f', 'a', 'e', 'p', 'p', 'i', 'h', 'a', 'g', 'g', 'g', 'h']
  const LENGTHS: seq<nat> := [6, 6, 11, 12, 13, 13, 21, 21, 19, 16, 16, 21, 22, 28]

  lemma SummaryTag(d: Digest, c: Chain, g: Geometry, version2: bool, i: nat)
    requires i < |SummaryMembers(d, c, g, version2)|
    ensures i < 14 && |LETTERS| == |LENGTHS| == 14 && |SummaryMembers(d, c, g, version2)| <= 14
    ensures var key := SummaryMembers(d, c, g, version2)[i].key;
      key != [] && key[0] == LETTERS[i] && |key| == LENGTHS[i]
  {
    hide FinalState, Counts, CountOf, Head;
    var m := SummaryMembers(d, c, g, version2);
    if i < 5 {
      assert m[0].key == "schema" && m[1].key == "run_id" && m[2].key == "final_state" && m[3].key == "action_count";
      assert m[4].key == "effect_counts";
    } else if i < 10 {
      assert m[5].key == "policy_sha256" && m[6].key == "policy_capture_sha256" && m[7].key == "implementation_sha256";
      assert m[8].key == "head_receipt_sha256" && m[9].key == "actions_executed";
    } else {
      assert m[10].key == "geometry_profile" && m[11].key == "geometry_window_count";
      assert m[12].key == "geometry_effect_counts" && m[13].key == "head_geometry_receipt_sha256";
    }
  }

  lemma SummaryKeysDiffer(d: Digest, c: Chain, g: Geometry, version2: bool)
    ensures DistinctKeys(SummaryMembers(d, c, g, version2))
  {
    hide SummaryMembers, LETTERS, LENGTHS;
    var m := SummaryMembers(d, c, g, version2);
    TagsDiffer();
    forall i | 0 <= i < |m|
      ensures |m| <= 14 && m[i].key != [] && m[i].key[0] == LETTERS[i] && |m[i].key| == LENGTHS[i]
    {
      SummaryTag(d, c, g, version2, i);
    }
    if m != [] {
      SummaryTag(d, c, g, version2, 0);
      TaggedKeysDiffer(m, LETTERS[..|m|], LENGTHS[..|m|]);
    }
  }

  lemma TagsDiffer()
    ensures |LETTERS| == |LENGTHS| == 14
    ensures forall i, j :: 0 <= i < j < 14 ==> LETTERS[i] != LETTERS[j] || LENGTHS[i] != LENGTHS[j]
  {
  }

  lemma CountsAreWellFormed(allow: nat, deny: nat, review: nat)
    ensures WellFormed(Counts(allow, deny, review))
  {
    var m := Counts(allow, deny, review).members;
    assert m[0].key[0] == 'A' && m[1].key[0] == 'D' && m[2].key[0] == 'R';
    assert |m| == 3;
  }

  lemma SummaryIsWellFormed(d: Digest, c: Chain, g: Geometry, version2: bool)
    requires d.bundle.Str?
    ensures WellFormed(Obj(SummaryMembers(d, c, g, version2)))
  {
    hide FinalState, Counts, CountOf, Head, DistinctKeys;
    CountsAreWellFormed(CountOf(c.decisions, Allow), CountOf(c.decisions, Deny), CountOf(c.decisions, Review));
    CountsAreWellFormed(g.allow, g.deny, g.review);
    SummaryKeysDiffer(d, c, g, version2);
  }

  /** The summary of a run is read back as it was, and tells the number of actions. */
  lemma SummaryReads(d: Digest, c: Chain, g: Geometry, version2: bool)
    requires d.bundle.Str? && IsCanonizable(SummaryOf(d, c, g, version2), MAX_JSON_NESTING)
    ensures var v := SummaryOf(d, c, g, version2);
      && Read(CanonicalText(v)) == Success(v) && v.Obj?
      && Field(v, "action_count") == Int(|c.decisions|)
  {
    hide SummaryMembers, DistinctKeys, Field, Read, CanonicalText, WellFormed, IsCanonizable, Sorted, IsNormal;
    var m := SummaryMembers(d, c, g, version2);
    SummaryKeysDiffer(d, c, g, version2);
    SummaryIsWellFormed(d, c, g, version2);
    CountIsMember(d, c, g, version2);
    SortedObject(m);
    FieldOf(m, 3);
    SummaryIsNormal(Obj(m));
    ReadsBack(Sorted(Obj(m)));
  }

  lemma CountIsMember(d: Digest, c: Chain, g: Geometry, version2: bool)
    ensures var m := SummaryMembers(d, c, g, version2);
      |m| > 3 && m[3] == Member("action_count", Int(|c.decisions|)) && Sorted(m[3].value) == m[3].value
  {
    hide FinalState, Counts, CountOf, Head;
  }

  lemma SummaryIsNormal(v: Value)
    requires WellFormed(v) && IsCanonizable(Sorted(v), MAX_JSON_NESTING)
    ensures IsNormal(Sorted(v))
  {
    SortedKeeps(v, MAX_JSON_NESTING);
  }

  // ---------- the whole directory ----------

  lemma InventoryStays(k: Digester, files: Files, rows: seq<Row>, body: string)
    requires IsInventory(k, files, rows) && MANIFEST !in files
    ensures IsInventory(k, files[MANIFEST := body], rows)
  {
    hide MANIFEST;
    var more := files[MANIFEST := body];
    forall i | 0 <= i < |rows| ensures Describes(k, more, rows[i]) {
      assert Describes(k, files, rows[i]);
    }
  }

  /** What the semantic checks of the directory must yield. */
  function SemanticsOf(rawPolicy: string, run: Run, current: Value): Semantics {
    Semantics(rawPolicy, run.policy, run.chain, current, run.summary, run.geometry)
  }

  lemma FrameReads(k: Kernel, files: Files, rawPolicy: string, policy: Value, current: Value, summary: Value, count: nat)
    requires {README, POLICY_RAW, POLICY, IMPLEMENTATION, SUMMARY} <= files.Keys
    requires files[README] == k.origin(policy) && files[POLICY_RAW] == rawPolicy && files[POLICY] == CanonicalText(policy)
    requires files[IMPLEMENTATION] == CanonicalText(current) && files[SUMMARY] == CanonicalText(summary)
    requires Read(CanonicalText(summary)) == Success(summary) && summary.Obj?
    requires Field(summary, "action_count") == Int(count) && count >= 1
    requires IsNormal(policy) && k.normalizePolicy(policy) == Success(policy)
    requires Read(rawPolicy).Success? && k.normalizePolicy(Read(rawPolicy).value) == Success(policy)
    requires IsNormal(current) && NormalizeImplementation(k, current) == Success(current)
    ensures ReadFrame(k, files) == Success((count, rawPolicy, policy, current, summary))
  {
    hide Read, CanonicalText, IsNormal, Field, NormalizeImplementation, README, POLICY_RAW, POLICY, IMPLEMENTATION, SUMMARY;
    ReadsBack(policy);
    ReadsBack(current);
  }

  lemma RestPasses(k: Kernel, files: Files, policy: Value, c: Chain, geometry: Geometry)
    requires c.Valid() && NormalizeActions(k, c.raws).Success?
    requires EVENT_LOG in files && files[EVENT_LOG] == EventLog(c.receipts)
    requires k.geometry(c, policy) == Success(geometry) && HasGeometry(files, geometry.files)
    requires HasExpectedPaths(files, c.Length(), geometry.files)
    ensures CheckRest(k, files, policy, c) == Success(geometry)
  {
    hide NormalizeActions, EventLog, HasGeometry, HasExpectedPaths, EVENT_LOG;
  }

  /** The directory with its manifest, by its description. */
  lemma WrittenFiles(f: Frame, c: Chain, geometry: Files, files: Files, body: string)
    requires c.Valid() && AreGeometryFiles(geometry) && AreArtifacts(f, c, geometry, files) && MANIFEST !in files
    ensures var all := files[MANIFEST := body];
      && {README, POLICY_RAW, POLICY, IMPLEMENTATION, SUMMARY} <= all.Keys && EVENT_LOG in all
      && all[README] == f.origin && all[POLICY_RAW] == f.rawPolicy && all[POLICY] == CanonicalText(f.policy)
      && all[IMPLEMENTATION] == CanonicalText(f.implementation) && all[SUMMARY] == CanonicalText(f.summary)
      && all[EVENT_LOG] == EventLog(c.receipts)
      && HasGeometry(all, geometry) && HasExpectedPaths(all, c.Length(), geometry) && HasRecords(all, c)
  {
    FrameLetters();
    FrameMembers();
    hide README, POLICY_RAW, POLICY, IMPLEMENTATION, SUMMARY, EVENT_LOG, MANIFEST, FRAME_PATHS, RecordPath, Body, EventLog,
      CanonicalText, AreGeometryFiles;
    var all := files[MANIFEST := body];
    forall path | path in geometry ensures path in all && all[path] == geometry[path] {
      assert IsExpected(c.Length(), geometry, path);
    }
    forall i, s: Slot | 0 <= i < c.Length() ensures RecordPath(s, i) in all && all[RecordPath(s, i)] == Body(c, s, i) {
      assert IsExpected(c.Length(), geometry, RecordPath(s, i));
    }
  }

  /** The directory that `run_actions` leaves, as the checks look at it. */
  ghost predicate IsWritten(k: Kernel, files: Files, rawPolicy: string, run: Run, current: Value) {
    && run.chain.Valid()
    && {README, POLICY_RAW, POLICY, IMPLEMENTATION, SUMMARY} <= files.Keys && EVENT_LOG in files
    && files[README] == k.origin(run.policy) && files[POLICY_RAW] == rawPolicy && files[POLICY] == CanonicalText(run.policy)
    && files[IMPLEMENTATION] == CanonicalText(current) && files[SUMMARY] == CanonicalText(run.summary)
    && files[EVENT_LOG] == EventLog(run.chain.receipts)
    && HasGeometry(files, run.geometry.files) && HasExpectedPaths(files, run.chain.Length(), run.geometry.files)
    && HasRecords(files, run.chain)
  }

  lemma RunIsWritten(k: Kernel, rawPolicy: string, raws: seq<string>, current: Value, body: string)
    requires IsLawful(k) && Execute(k, rawPolicy, raws, current).Success?
    ensures var run := Execute(k, rawPolicy, raws, current).value;
      IsWritten(k, run.files[MANIFEST := body], rawPolicy, run, current) && MANIFEST !in run.files
  {
    var run := Execute(k, rawPolicy, raws, current).value;
    ExecutedParts(k, rawPolicy, raws, current);
    RunFilesAreSafe(k, rawPolicy, raws, current);
    hide Execute, IsLawful, AreGeometryFiles, Artifacts, AreArtifacts, NormalizeAll, Read, PolicyIdentity, RecordsUpTo,
      HasGeometry, HasExpectedPaths, RunId, Summary, HasRecords, NormalizeActions, CanonicalText;
    var frame := Frame(k.origin(run.policy), rawPolicy, run.policy, current, run.summary);
    ArtifactsMean(frame, run.chain, run.geometry.files);
    WrittenFiles(frame, run.chain, run.geometry.files, run.files, body);
  }

  lemma ChainReads(k: Kernel, files: Files, raws: seq<string>, parsed: Value, policy: Value, policyId: string, whole: Chain)
    requires IsLawful(k) && NormalizeAll(k, raws).Success? && IsNormal(parsed) && k.normalizePolicy(parsed) == Success(policy)
    requires PolicyIdentity(k, policy) == Success(policyId)
    requires RecordsUpTo(k, raws, NormalizeAll(k, raws).value, policy, policyId, |raws|) == Success(whole)
    requires HasRecords(files, whole) && IsReadable(whole)
    ensures ReadUpTo(k, files, policy, |raws|) == Success(whole)
    ensures whole.raws == raws && whole.actions == NormalizeAll(k, raws).value
    ensures IsNormal(policy) && k.normalizePolicy(policy) == Success(policy)
  {
    hide IsLawful, IsNormal, NormalizeAll, PolicyIdentity, RecordsUpTo, ReadUpTo, IsReadable, HasRecords, AreNormalized;
    var actions := NormalizeAll(k, raws).value;
    AcceptedPolicy(k, parsed);
    NormalizedActions(k, raws);
    NormalizedLengths(k, raws, actions);
    RecordsKeepInputs(k, raws, actions, policy, policyId, |raws|);
    assert raws[..|raws|] == raws && actions[..|raws|] == actions;
    RecordsRead(k, files, raws, actions, policy, policyId, whole, |raws|);
  }

  lemma SemanticAssembles(k: Kernel, files: Files, rawPolicy: string, run: Run, current: Value)
    requires run.chain.Valid()
    requires ReadFrame(k, files) == Success((run.chain.Length(), rawPolicy, run.policy, current, run.summary))
    requires ReadUpTo(k, files, run.policy, run.chain.Length()) == Success(run.chain)
    requires CheckRest(k, files, run.policy, run.chain) == Success(run.geometry)
    ensures Semantic(k, files) == Success(SemanticsOf(rawPolicy, run, current))
  {
    hide ReadFrame, ReadUpTo, CheckRest;
  }

  /** The semantic checks accept what the engine wrote, and recover the run. */
  lemma SemanticAccepts(k: Kernel, files: Files, rawPolicy: string, raws: seq<string>, current: Value)
    requires IsLawful(k) && IsNormal(current) && NormalizeImplementation(k, current) == Success(current)
    requires Execute(k, rawPolicy, raws, current).Success?
    requires var run := Execute(k, rawPolicy, raws, current).value;
      IsReadable(run.chain) && IsWritten(k, files, rawPolicy, run, current)
    ensures var run := Execute(k, rawPolicy, raws, current).value;
      && Semantic(k, files) == Success(SemanticsOf(rawPolicy, run, current))
      && run.chain.Valid() && run.chain.raws == raws && NormalizeActions(k, raws) == Success(run.chain.actions)
  {
    var run := Execute(k, rawPolicy, raws, current).value;
    ExecutedParts(k, rawPolicy, raws, current);
    hide Execute, IsLawful, IsNormal, NormalizeImplementation, NormalizeAll, Read, PolicyIdentity, RecordsUpTo, ReadUpTo,
      HasGeometry, HasExpectedPaths, CheckRest, ReadFrame, RunId, Summary, IsReadable, HasRecords, NormalizeActions,
      CanonicalText, Semantic, EventLog, README, POLICY_RAW, POLICY, IMPLEMENTATION, SUMMARY, EVENT_LOG;
    ReadIsNormal(rawPolicy);
    ChainReads(k, files, raws, Read(rawPolicy).value, run.policy, PolicyIdentity(k, run.policy).value, run.chain);
    SummaryIsRead(k, rawPolicy, run, current);
    FrameReads(k, files, rawPolicy, run.policy, current, run.summary, |raws|);
    RestPasses(k, files, run.policy, run.chain, run.geometry);
    SemanticAssembles(k, files, rawPolicy, run, current);
  }

  lemma NormalizedLengths(k: Kernel, raws: seq<string>, actions: seq<Value>)
    requires AreNormalized(k, raws, actions)
    ensures |raws| == |actions|
  {
  }

  /** A policy whose identity could be computed is its own normal form. */
  lemma AcceptedPolicy(k: Kernel, v: Value)
    requires IsLawful(k) && IsNormal(v) && k.normalizePolicy(v).Success?
    requires PolicyIdentity(k, k.normalizePolicy(v).value).Success?
    ensures var p := k.normalizePolicy(v).value;
      IsNormal(p) && k.normalizePolicy(p) == Success(p)
  {
    hide IsLawful, IsNormal;
    LawfulPolicy(k, v);
  }

  lemma SummaryIsRead(k: Kernel, rawPolicy: string, run: Run, current: Value)
    requires IsLawful(k) && k.geometry(run.chain, run.policy) == Success(run.geometry)
    requires Summary(k, run.runId, rawPolicy, run.policy, run.chain, current, run.geometry) == Success(run.summary)
    requires run.chain.Valid()
    requires NormalizeImplementation(k, current) == Success(current)
    ensures Read(CanonicalText(run.summary)) == Success(run.summary) && run.summary.Obj?
    ensures Field(run.summary, "action_count") == Int(run.chain.Length())
  {
    hide IsLawful, PolicyIdentity, SummaryOf, Read, CanonicalText, Preimage, Field, IsCanonizable;
    var policyId := PolicyIdentity(k, run.policy).value;
    SummaryReads(Digest(run.runId, policyId, k.digester.sha(rawPolicy), Bundle(current)), run.chain, run.geometry,
      IsVersion2(run.policy));
  }

  lemma RunAgrees(k: Kernel, rawPolicy: string, run: Run, current: Value, policyId: string)
    requires run.chain.Valid() && PolicyIdentity(k, run.policy) == Success(policyId)
    requires RunId(k, rawPolicy, run.policy, run.chain.raws, run.chain.actions, Bundle(current)) == Success(run.runId)
    requires RecordsUpTo(k, run.chain.raws, run.chain.actions, run.policy, policyId, run.chain.Length()) == Success(run.chain)
    requires k.geometry(run.chain, run.policy) == Success(run.geometry)
    requires Summary(k, run.runId, rawPolicy, run.policy, run.chain, current, run.geometry) == Success(run.summary)
    ensures var s := SemanticsOf(rawPolicy, run, current);
      ExpectedSummary(k, s) == Success((run.runId, run.summary)) && SameRun(k, s, current)
  {
    hide RunId, Summary, RecordsUpTo, PolicyIdentity, DecisionTexts, ReceiptTexts, CanonicalText, Bundle;
    var s := SemanticsOf(rawPolicy, run, current);
    assert Recompute(k, s, current) == Success((run.chain, run.geometry, run.runId, run.summary));
  }

  lemma ExecutedAgrees(k: Kernel, rawPolicy: string, raws: seq<string>, current: Value)
    requires Execute(k, rawPolicy, raws, current).Success?
    requires var run := Execute(k, rawPolicy, raws, current).value;
      run.chain.Valid() && run.chain.raws == raws && NormalizeActions(k, raws) == Success(run.chain.actions)
    ensures var run := Execute(k, rawPolicy, raws, current).value;
      var s := SemanticsOf(rawPolicy, run, current);
      ExpectedSummary(k, s) == Success((run.runId, run.summary)) && SameRun(k, s, current)
  {
    hide Execute, RunId, Summary, RecordsUpTo, PolicyIdentity, Artifacts, NormalizeAll, NormalizeActions, Read, Bundle,
      ExpectedSummary, SameRun;
    var run := Execute(k, rawPolicy, raws, current).value;
    ExecutedParts(k, rawPolicy, raws, current);
    RunAgrees(k, rawPolicy, run, current, PolicyIdentity(k, run.policy).value);
  }

  lemma Assembles(k: Kernel, files: Files, rawPolicy: string, run: Run, current: Value, rows: seq<Row>)
    requires run.chain.Valid() && Semantic(k, files) == Success(SemanticsOf(rawPolicy, run, current))
    requires ExpectedSummary(k, SemanticsOf(rawPolicy, run, current)) == Success((run.runId, run.summary))
    requires SameRun(k, SemanticsOf(rawPolicy, run, current), current)
    requires SUMMARY in files && files[SUMMARY] == CanonicalText(run.summary)
    requires IsManifested(k.digester, files, rows, run.runId)
    ensures Verifies(k, files) && Replays(k, files, current)
  {
    hide Semantic, ExpectedSummary, SameRun, IsManifested, CanonicalText, SUMMARY;
  }

  /** Every run that `run_actions` writes, with at most 256 matching rules for each action, passes
      verification and replays unchanged. */
  lemma ReplayIsComplete(k: Kernel, files: Files, rawPolicy: string, raws: seq<string>, current: Value, rows: seq<Row>)
    requires IsLawful(k) && IsNormal(current) && NormalizeImplementation(k, current) == Success(current)
    requires Execute(k, rawPolicy, raws, current).Success?
    requires var run := Execute(k, rawPolicy, raws, current).value;
      && IsReadable(run.chain) && IsInventory(k.digester, run.files, rows)
      && files == run.files[MANIFEST := ManifestBody(k.digester.sha, rows, run.runId)]
    ensures Verifies(k, files) && Replays(k, files, current)
  {
    hide Execute, IsLawful, IsNormal, NormalizeImplementation, IsReadable, ManifestBody, Semantic, CanonicalText, IsInventory,
      ExpectedSummary, SameRun, HasGeometry, HasExpectedPaths, HasRecords, EventLog, MANIFEST, NormalizeActions;
    var run := Execute(k, rawPolicy, raws, current).value;
    var body := ManifestBody(k.digester.sha, rows, run.runId);
    RunIsWritten(k, rawPolicy, raws, current, body);
    SemanticAccepts(k, files, rawPolicy, raws, current);
    ExecutedAgrees(k, rawPolicy, raws, current);
    InventoryStays(k.digester, run.files, rows, body);
    assert IsManifested(k.digester, files, rows, run.runId);
    Assembles(k, files, rawPolicy, run, current, rows);
  }

  lemma WithoutManifest(k: Digester, files: Files, rows: seq<Row>, runId: string)
    requires IsManifested(k, files, rows, runId)
    ensures IsInventory(k, files - {MANIFEST}, rows)
    ensures files == (files - {MANIFEST})[MANIFEST := ManifestBody(k.sha, rows, runId)]
  {
    hide MANIFEST, ManifestBody;
    var rest := files - {MANIFEST};
    forall i | 0 <= i < |rows| ensures Describes(k, rest, rows[i]) {
      assert Describes(k, files, rows[i]);
    }
  }

  /** Replay accepts exactly the directories that hold a run of the engine: a policy and actions for
      which every file is what the engine writes, with at most 256 matching rules an action. */
  lemma ReplayIsExact(k: Kernel, files: Files, current: Value)
    requires IsLawful(k) && IsNoCollision(k, files, current)
    requires IsNormal(current) && NormalizeImplementation(k, current) == Success(current)
    ensures Replays(k, files, current) <==> exists rawPolicy, raws :: IsRunOf(k, files, rawPolicy, raws, current)
  {
    if Replays(k, files, current) {
      ReplayIsSound(k, files, current);
    }
    hide Execute, IsLawful, IsNoCollision, IsNormal, NormalizeImplementation, IsReadable, Replays, Verifies, IsManifested,
      IsInventory, ManifestBody, MANIFEST;
    if rawPolicy, raws :| IsRunOf(k, files, rawPolicy, raws, current) {
      var run := Execute(k, rawPolicy, raws, current).value;
      var rows :| IsManifested(k.digester, files, rows, run.runId);
      WithoutManifest(k.digester, files, rows, run.runId);
      ReplayIsComplete(k, files, rawPolicy, raws, current, rows);
    }
  }

  // ---------- runs that do not replay ----------

  lemma CountIsRead(k: Kernel, files: Files)
    requires Semantic(k, files).Success?
    ensures ReadJson(files, SUMMARY).Success?
    ensures Field(ReadJson(files, SUMMARY).value, "action_count") == Int(Semantic(k, files).value.chain.Length())
  {
    FrameCount(k, files);
    hide ReadFrame, ReadUpTo, CheckRest, ReadJson, Field;
  }

  lemma FrameCount(k: Kernel, files: Files)
    requires ReadFrame(k, files).Success?
    ensures ReadJson(files, SUMMARY).Success?
    ensures Field(ReadJson(files, SUMMARY).value, "action_count") == Int(ReadFrame(k, files).value.0)
  {
    hide Read, CanonicalText, Field, NormalizeImplementation, Bundle;
  }

  /** A verified directory reads as many records as the engine wrote. */
  lemma SameCount(k: Kernel, files: Files, rawPolicy: string, run: Run, current: Value)
    requires IsWritten(k, files, rawPolicy, run, current) && Semantic(k, files).Success?
    requires Read(CanonicalText(run.summary)) == Success(run.summary)
    requires Field(run.summary, "action_count") == Int(run.chain.Length())
    ensures Semantic(k, files).value.chain.Length() == run.chain.Length()
  {
    hide Read, CanonicalText, Field, Semantic, EventLog, HasGeometry, HasExpectedPaths, HasRecords, README, POLICY_RAW,
      POLICY, IMPLEMENTATION, SUMMARY, EVENT_LOG;
    CountIsRead(k, files);
  }

  lemma SameMatches(k: Kernel, files: Files, c: Chain, d: Chain, i: nat)
    requires c.Valid() && d.Valid() && i < c.Length() && i < d.Length()
    requires IsRecorded(k, files, c, i) && HasRecord(files, d, i)
    ensures |d.decisions[i].choice.matched| <= Policy.MAX_SET
  {
    hide RecordPath, CanonicalText, DecisionValue, ReceiptValue, Read;
    assert Body(c, DecisionSlot, i) == Body(d, DecisionSlot, i);
    SameTextSameMatches(c.decisions[i], d.decisions[i]);
  }

  lemma VerifiedIsReadable(k: Kernel, files: Files, rawPolicy: string, run: Run, current: Value)
    requires IsWritten(k, files, rawPolicy, run, current) && Semantic(k, files).Success?
    requires Read(CanonicalText(run.summary)) == Success(run.summary)
    requires Field(run.summary, "action_count") == Int(run.chain.Length())
    ensures IsReadable(run.chain)
  {
    SameCount(k, files, rawPolicy, run, current);
    SemanticsAreRead(k, files);
    hide Read, CanonicalText, Field, Semantic, EventLog, HasGeometry, HasExpectedPaths, HasRecord, README, POLICY_RAW,
      POLICY, IMPLEMENTATION, SUMMARY, EVENT_LOG, IsFramed, IsRecorded, IsLinked, NormalizeActions;
    var c := Semantic(k, files).value.chain;
    forall i | 0 <= i < |run.chain.decisions| ensures |run.chain.decisions[i].choice.matched| <= Policy.MAX_SET {
      SameMatches(k, files, c, run.chain, i);
    }
  }

  lemma WrittenSummaryIsRead(k: Kernel, rawPolicy: string, raws: seq<string>, current: Value)
    requires IsLawful(k) && NormalizeImplementation(k, current) == Success(current)
    requires Execute(k, rawPolicy, raws, current).Success?
    ensures var run := Execute(k, rawPolicy, raws, current).value;
      && Read(CanonicalText(run.summary)) == Success(run.summary)
      && Field(run.summary, "action_count") == Int(run.chain.Length())
  {
    ExecutedParts(k, rawPolicy, raws, current);
    hide Execute, IsLawful, IsNormal, NormalizeImplementation, NormalizeAll, NormalizeActions, Read, PolicyIdentity,
      RecordsUpTo, RunId, Summary, CanonicalText, Artifacts, Field;
    SummaryIsRead(k, rawPolicy, Execute(k, rawPolicy, raws, current).value, current);
  }

  /** What `run_actions` writes passes verification, and passes replay, just when no action matches
      more than 256 rules.  The writer has no such limit. */
  lemma WrittenRunReplays(k: Kernel, files: Files, rawPolicy: string, raws: seq<string>, current: Value, run: Run,
    rows: seq<Row>)
    requires IsLawful(k) && IsNormal(current) && NormalizeImplementation(k, current) == Success(current)
    requires Execute(k, rawPolicy, raws, current) == Success(run) && IsInventory(k.digester, run.files, rows)
    requires files == run.files[MANIFEST := ManifestBody(k.digester.sha, rows, run.runId)]
    ensures Verifies(k, files) <==> IsReadable(run.chain)
    ensures Replays(k, files, current) <==> IsReadable(run.chain)
  {
    hide Execute, IsLawful, IsNormal, NormalizeImplementation, IsReadable, ManifestBody, Semantic, CanonicalText, IsInventory,
      ExpectedSummary, SameRun, Read, Field, IsWritten, MANIFEST, Verifies;
    if IsReadable(run.chain) {
      ReplayIsComplete(k, files, rawPolicy, raws, current, rows);
    }
    if Verifies(k, files) {
      VerifiesHasSemantics(k, files);
      RunIsWritten(k, rawPolicy, raws, current, ManifestBody(k.digester.sha, rows, run.runId));
      WrittenSummaryIsRead(k, rawPolicy, raws, current);
      VerifiedIsReadable(k, files, rawPolicy, run, current);
    }
  }

  lemma EvaluatedChoice(k: Kernel, action: Value, policy: Value, d: Decision)
    requires k.normalizeAction(action) == Success(action) && k.normalizePolicy(policy) == Success(policy)
    requires Evaluate(k, action, policy) == Success(d)
    ensures d.choice == k.decide(action, policy)
  {
    hide DecisionDigest, ActionIdentity, PolicyIdentity;
  }

  /** The choices of a run are those of its actions under its policy. */
  lemma ChoicesOfRun(k: Kernel, rawPolicy: string, raws: seq<string>, current: Value, run: Run)
    requires IsLawful(k) && Execute(k, rawPolicy, raws, current) == Success(run)
    ensures run.chain.Valid() && NormalizeActions(k, raws) == Success(run.chain.actions)
    ensures forall i :: 0 <= i < run.chain.Length() ==>
      run.chain.decisions[i].choice == k.decide(run.chain.actions[i], run.policy)
  {
    ExecutedParts(k, rawPolicy, raws, current);
    ReadIsNormal(rawPolicy);
    hide Execute, IsLawful, IsNormal, NormalizeAll, NormalizeActions, Read, PolicyIdentity, RecordsUpTo, RunId, Summary,
      Artifacts, AreNormalized, CanonicalText, EventLog;
    AcceptedPolicy(k, Read(rawPolicy).value);
    NormalizedActions(k, raws);
    NormalizedLengths(k, raws, NormalizeAll(k, raws).value);
    ChoicesOfRecords(k, raws, NormalizeAll(k, raws).value, run.policy, PolicyIdentity(k, run.policy).value, run.chain);
  }

  lemma ChoicesOfRecords(k: Kernel, raws: seq<string>, actions: seq<Value>, policy: Value, policyId: string, c: Chain)
    requires AreNormalized(k, raws, actions) && |raws| == |actions| && k.normalizePolicy(policy) == Success(policy)
    requires RecordsUpTo(k, raws, actions, policy, policyId, |raws|) == Success(c)
    ensures c.Valid() && c.actions == actions
    ensures forall i :: 0 <= i < c.Length() ==> c.decisions[i].choice == k.decide(c.actions[i], policy)
  {
    hide RecordsUpTo, Evaluate, IsBound, ReceiptDigest, IsNormal, Read;
    RecordsMean(k, raws, actions, policy, policyId, |raws|);
    assert raws[..|raws|] == raws && actions[..|actions|] == actions;
    forall i | 0 <= i < c.Length() ensures c.decisions[i].choice == k.decide(c.actions[i], policy) {
      assert IsRecord(k, c, policy, policyId, i);
      EvaluatedChoice(k, c.actions[i], policy, c.decisions[i]);
    }
  }
}
