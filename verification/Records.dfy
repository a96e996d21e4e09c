/** Decisions and receipts as records that carry their own hash: `build_decision`, `normalize_decision`,
    `build_receipt`, `normalize_receipt` (contracts.py).  A file is modelled by the text its bytes
    decode to. */
module Records {
  import opened Outcomes
  import opened Effects
  import opened Actions
  import opened Json
  import opened JsonText
  import opened CanonicalJson
  import opened Fields
  import Policy
  import PolicyLaws

  // ---------- decisions ----------

  datatype Choice = Choice(effect: Effect, reasons: seq<string>, matched: seq<string>, selected: Option<string>)

  datatype Decision = Decision(action: string, policy: string, choice: Choice, digest: string)

  function EffectName(e: Effect): string {
    match e
    case Deny => "DENY"
    case Review => "REVIEW"
    case Allow => "ALLOW"
  }

  function EffectOfName(v: Value): Option<Effect> {
    if v == Str("DENY") then Some(Deny)
    else if v == Str("REVIEW") then Some(Review)
    else if v == Str("ALLOW") then Some(Allow)
    else None
  }

  function SelectedValue(s: Option<string>): Value {
    if s.Some? then Str(s.value) else Null
  }

  function DecisionCore(action: string, policy: string, c: Choice): seq<Member> {
    [Member("schema", Str("heresy-sec.decision/v1")), Member("action_sha256", Str(action)),
      Member("policy_sha256", Str(policy)), Member("effect", Str(EffectName(c.effect))),
      Member("reason_codes", Arr(Strs(c.reasons))), Member("matched_rule_ids", Arr(Strs(c.matched))),
      Member("selected_rule_id", SelectedValue(c.selected))]
  }

  function DecisionMembers(d: Decision): seq<Member> {
    DecisionCore(d.action, d.policy, d.choice) + [Member("decision_sha256", Str(d.digest))]
  }

  function DecisionValue(d: Decision): Value {
    Sorted(Obj(DecisionMembers(d)))
  }

  function DecisionDigest(sha: string -> string, action: string, policy: string, c: Choice): string {
    DomainHash(sha, "HERESY-SEC/DECISION/v1", Obj(DecisionCore(action, policy, c)))
  }

  /** The sets of a choice are listed in order, each element once, and what is selected is matched. */
  predicate IsChoice(c: Choice) {
    && c.reasons != [] && Policy.SortStrings(c.reasons) == c.reasons && Policy.AreDistinct(c.reasons)
    && |c.reasons| <= Policy.MAX_SET
    && Policy.SortStrings(c.matched) == c.matched && Policy.AreDistinct(c.matched)
    && (forall i :: 0 <= i < |c.reasons| ==> Policy.IsIdentifier(c.reasons[i]))
    && (forall i :: 0 <= i < |c.matched| ==> Policy.IsIdentifier(c.matched[i]))
    && (c.selected.Some? ==> c.selected.value in c.matched)
  }

  /** `build_decision` on the digests and choices of the engine. */
  function BuildDecision(sha: string -> string, action: string, policy: string, c: Choice): Decision {
    Decision(action, policy, c, DecisionDigest(sha, action, policy, c))
  }

  const DECISION_KEYS: set<string> := {"schema", "action_sha256", "policy_sha256", "effect", "reason_codes",
    "matched_rule_ids", "selected_rule_id", "decision_sha256"}

  predicate IsSelected(v: Value, matched: seq<string>) {
    v == Null || (v.Str? && Policy.IsIdentifier(v.s) && v.s in matched)
  }

  function SelectedOf(v: Value): Option<string> {
    if v.Str? then Some(v.s) else None
  }

  /** The matched identifiers of a record: anything false counts as none. */
  function MatchedOf(v: Value): Option<seq<string>> {
    if IsFalsy(v) then Some([])
    else
      match StringsOf(v)
      case Some(items) => if Policy.IsStringSet(items) then Some(Policy.SortStrings(items)) else None
      case None => None
  }

  function ReasonsOf(v: Value): Option<seq<string>> {
    match StringsOf(v)
    case Some(items) => if Policy.IsStringSet(items) then Some(Policy.SortStrings(items)) else None
    case None => None
  }

  /** `normalize_decision` */
  function NormalizeDecision(sha: string -> string, v: Value): Result<Decision> {
    if !v.Obj? || Keys(v.members) != DECISION_KEYS then Failure(ContractInvalid)
    else if Field(v, "schema") != Str("heresy-sec.decision/v1") then Failure(SchemaUnsupported)
    else
      var action, policy := Field(v, "action_sha256"), Field(v, "policy_sha256");
      var effect, reasons := EffectOfName(Field(v, "effect")), ReasonsOf(Field(v, "reason_codes"));
      var matched := MatchedOf(Field(v, "matched_rule_ids"));
      var selected := Field(v, "selected_rule_id");
      if !action.Str? || !IsDigest(action.s) || !policy.Str? || !IsDigest(policy.s) then Failure(ContractInvalid)
      else if effect.None? || reasons.None? || matched.None? then Failure(ContractInvalid)
      else if !IsSelected(selected, matched.value) then Failure(DecisionInvalid)
      else if !Policy.AreIdentifiers(reasons.value) || !Policy.AreIdentifiers(matched.value) then Failure(ContractInvalid)
      else
        var built := BuildDecision(sha, action.s, policy.s,
          Choice(effect.value, reasons.value, matched.value, SelectedOf(selected)));
        if Field(v, "decision_sha256") != Str(built.digest) then Failure(DecisionHashMismatch) else Success(built)
  }

  /** Eight texts differ when their first letters do, but for two of them that differ otherwise. */
  lemma EightDiffer(k: seq<string>, letters: string, p: nat, q: nat)
    requires |k| == |letters| == 8 && forall i :: 0 <= i < 8 ==> k[i] != [] && k[i][0] == letters[i]
    requires forall i, j :: 0 <= i < j < 8 && !(i == p && j == q) ==> letters[i] != letters[j]
    requires p < q < 8 && k[p] != k[q]
    ensures forall i, j :: 0 <= i < j < 8 ==> k[i] != k[j]
  {
  }

  lemma DecisionKeysDiffer(d: Decision)
    ensures DistinctKeys(DecisionMembers(d)) && Keys(DecisionMembers(d)) == DECISION_KEYS
    ensures |DecisionMembers(d)| == 8
  {
    hide Strs, EffectName, SelectedValue;
    var m := DecisionMembers(d);
    var k := ["schema", "action_sha256", "policy_sha256", "effect", "reason_codes", "matched_rule_ids",
      "selected_rule_id", "decision_sha256"];
    assert forall i :: 0 <= i < 8 ==> m[i].key == k[i];
    assert k[0][1] != k[6][1];
    EightDiffer(k, "sapermsd", 0, 6);
    KeysOfEight(m);
  }

  lemma KeysOfEight(m: seq<Member>)
    requires |m| == 8
    ensures Keys(m) == {m[0].key, m[1].key, m[2].key, m[3].key, m[4].key, m[5].key, m[6].key, m[7].key}
  {
    forall k | k in Keys(m) ensures k in {m[0].key, m[1].key, m[2].key, m[3].key, m[4].key, m[5].key, m[6].key, m[7].key} {
      var x :| x in m && x.key == k;
    }
    assert forall i :: 0 <= i < 8 ==> m[i] in m;
  }

  lemma DecisionFields(d: Decision)
    ensures var v := DecisionValue(d);
      && v.Obj? && Keys(v.members) == DECISION_KEYS
      && Field(v, "schema") == Str("heresy-sec.decision/v1")
      && Field(v, "action_sha256") == Str(d.action) && Field(v, "policy_sha256") == Str(d.policy)
      && Field(v, "effect") == Str(EffectName(d.choice.effect))
      && Field(v, "reason_codes") == Arr(Strs(d.choice.reasons))
      && Field(v, "matched_rule_ids") == Arr(Strs(d.choice.matched))
      && Field(v, "selected_rule_id") == SelectedValue(d.choice.selected)
      && Field(v, "decision_sha256") == Str(d.digest)
  {
    var m := DecisionMembers(d);
    DecisionKeysDiffer(d);
    StringsRoundTrip(d.choice.reasons);
    StringsRoundTrip(d.choice.matched);
    SortedObject(m);
    GetAfterSort(m, "schema");
    hide DistinctKeys, Strs, Field, EffectName, Keys, SortedItems;
    FieldOf(m, 0);
    FieldOf(m, 1);
    FieldOf(m, 2);
    FieldOf(m, 3);
    FieldOf(m, 4);
    FieldOf(m, 5);
    FieldOf(m, 6);
    FieldOf(m, 7);
  }

  lemma DecisionIsNormal(d: Decision)
    ensures IsNormal(DecisionValue(d))
  {
    hide DistinctKeys, Keys, IsNormal, Sorted;
    var m := DecisionMembers(d);
    DecisionKeysDiffer(d);
    assert IsScalarList(m[4].value) && IsScalarList(m[5].value);
    MembersAreNormal(m);
  }

  lemma SetsReadBack(c: Choice)
    requires IsChoice(c)
    ensures ReasonsOf(Arr(Strs(c.reasons))) == Some(c.reasons)
    ensures MatchedOf(Arr(Strs(c.matched))) == if |c.matched| <= Policy.MAX_SET then Some(c.matched) else None
  {
    hide Strs, StringsOf, Policy.SortStrings, Policy.IsIdentifier, Policy.AreDistinct;
    StringsRoundTrip(c.reasons);
    StringsRoundTrip(c.matched);
    ShortIdentifiers(c.reasons);
    ShortIdentifiers(c.matched);
    assert c.matched == [] ==> Strs(c.matched) == [];
    assert c.matched != [] ==> Arr(Strs(c.matched)) != Arr([]);
  }

  /** A decision that was built is read back as it was, unless more than 256 rules matched: then the
      reader refuses it. */
  lemma DecisionRoundTrip(sha: string -> string, d: Decision)
    requires IsChoice(d.choice) && IsDigest(d.action) && IsDigest(d.policy)
    requires d == BuildDecision(sha, d.action, d.policy, d.choice)
    ensures NormalizeDecision(sha, DecisionValue(d))
         == if |d.choice.matched| <= Policy.MAX_SET then Success(d) else Failure(ContractInvalid)
  {
    hide DecisionDigest, DecisionValue, Strs, Field, Keys, Policy.SortStrings, IsDigest, Policy.IsIdentifier, Policy.AreDistinct,
      ReasonsOf, MatchedOf, IsSelected, SelectedOf, EffectOfName, EffectName;
    DecisionFields(d);
    SetsReadBack(d.choice);
    SelectedIsKnown(d.choice);
  }

  /** No decision that is read back matched more than 256 rules. */
  lemma ReadDecisionIsShort(sha: string -> string, v: Value)
    ensures NormalizeDecision(sha, v).Success? ==> |NormalizeDecision(sha, v).value.choice.matched| <= Policy.MAX_SET
  {
    hide DecisionDigest, Field, Keys, IsDigest, Policy.AreIdentifiers, StringsOf, IsFalsy;
  }

  /** Decisions with the same canonical text matched the same rules. */
  lemma SameTextSameMatches(d: Decision, e: Decision)
    requires CanonicalText(DecisionValue(d)) == CanonicalText(DecisionValue(e))
    ensures d.choice.matched == e.choice.matched
  {
    hide CanonicalText, IsNormal, DecisionValue, Read, Strs, StringsOf, Field, Keys;
    DecisionIsNormal(d);
    DecisionIsNormal(e);
    ReadsBack(DecisionValue(d));
    ReadsBack(DecisionValue(e));
    DecisionFields(d);
    DecisionFields(e);
    StringsRoundTrip(d.choice.matched);
    StringsRoundTrip(e.choice.matched);
  }

  lemma SelectedIsKnown(c: Choice)
    requires IsChoice(c)
    ensures IsSelected(SelectedValue(c.selected), c.matched) && SelectedOf(SelectedValue(c.selected)) == c.selected
    ensures EffectOfName(Str(EffectName(c.effect))) == Some(c.effect)
  {
    hide Policy.SortStrings, Policy.IsIdentifier, Policy.AreDistinct;
    if c.selected.Some? {
      var i :| 0 <= i < |c.matched| && c.matched[i] == c.selected.value;
    }
    assert "DENY" != "REVIEW" && "ALLOW" != "REVIEW" && "DENY"[0] != "ALLOW"[0];
  }

  lemma ShortIdentifiers(items: seq<string>)
    requires Policy.AreIdentifiers(items)
    ensures forall i :: 0 <= i < |items| ==> 1 <= |items[i]| <= Policy.MAX_STRING
  {
    hide Policy.IsIdentifierChar;
  }

  // ---------- what is read ----------

  ghost predicate IsHash(s: string) {
    |s| == 64 && forall c :: c in s ==> '0' <= c <= '9' || 'a' <= c <= 'f'
  }

  lemma HashMeans(s: string)
    ensures IsDigest(s) <==> IsHash(s)
  {
    if IsHash(s) {
      forall i | 0 <= i < |s| ensures '0' <= s[i] <= '9' || 'a' <= s[i] <= 'f' {
        assert s[i] in s;
      }
    }
  }

  /** The value lists these identifiers, each once and in any order. */
  ghost predicate ListsIdentifiers(x: Value, sorted: seq<string>) {
    exists items :: (x == Arr(Strs(items)) && PolicyLaws.IsLegalSet(items) && sorted == Policy.SortStrings(items)
      && forall s :: s in sorted ==> Policy.IsIdentifier(s))
  }

  lemma ReasonsMean(x: Value, reasons: seq<string>)
    ensures (ReasonsOf(x) == Some(reasons) && Policy.AreIdentifiers(reasons)) <==> ListsIdentifiers(x, reasons)
  {
    hide Policy.IsIdentifier, Policy.SortStrings, Policy.IsStringSet, PolicyLaws.IsLegalSet, StringsOf, Strs;
    forall items ensures Policy.IsStringSet(items) <==> PolicyLaws.IsLegalSet(items) {
      PolicyLaws.StringSetMeans(items);
    }
    StringsAre(x);
    forall items ensures StringsOf(Arr(Strs(items))) == Some(items) {
      StringsRoundTrip(items);
    }
    assert Policy.AreIdentifiers(reasons) <==> forall s :: s in reasons ==> Policy.IsIdentifier(s) by {
      forall i | 0 <= i < |reasons| ensures reasons[i] in reasons {
      }
    }
  }

  lemma MatchesMean(x: Value, matched: seq<string>)
    ensures (MatchedOf(x) == Some(matched) && Policy.AreIdentifiers(matched)) <==>
      if IsFalsy(x) then matched == [] else ListsIdentifiers(x, matched)
  {
    hide Policy.IsIdentifier, StringsOf, ListsIdentifiers;
    ReasonsMean(x, matched);
  }

  /** A stored decision, field by field: the action and the policy it is about, its effect, its reasons,
      the rules that match and the one of them that is selected, and the hash of all of these. */
  ghost predicate IsStored(sha: string -> string, v: Value, d: Decision) {
    && v.Obj? && Keys(v.members) == {"schema", "action_sha256", "policy_sha256", "effect", "reason_codes", "matched_rule_ids",
      "selected_rule_id", "decision_sha256"}
    && Field(v, "schema") == Str("heresy-sec.decision/v1")
    && Field(v, "action_sha256") == Str(d.action) && IsHash(d.action)
    && Field(v, "policy_sha256") == Str(d.policy) && IsHash(d.policy)
    && Field(v, "effect")
      == Str(match d.choice.effect { case Deny => "DENY" case Review => "REVIEW" case Allow => "ALLOW" })
    && ListsIdentifiers(Field(v, "reason_codes"), d.choice.reasons)
    && (if IsFalsy(Field(v, "matched_rule_ids")) then d.choice.matched == []
        else ListsIdentifiers(Field(v, "matched_rule_ids"), d.choice.matched))
    && (match d.choice.selected
        case None => Field(v, "selected_rule_id") == Null
        case Some(id) => Field(v, "selected_rule_id") == Str(id) && id in d.choice.matched)
    && Field(v, "decision_sha256") == Str(d.digest)
    && d.digest == sha(Preimage("HERESY-SEC/DECISION/v1", Obj(DecisionCore(d.action, d.policy, d.choice))))
  }

  /** Which values are read as which decisions. */
  lemma DecisionMeans(sha: string -> string, v: Value, d: Decision)
    ensures NormalizeDecision(sha, v) == Success(d) <==> IsStored(sha, v, d)
  {
    HashMeans(d.action);
    HashMeans(d.policy);
    ReasonsMean(Field(v, "reason_codes"), d.choice.reasons);
    MatchesMean(Field(v, "matched_rule_ids"), d.choice.matched);
    hide Field, Keys, IsDigest, IsHash, ReasonsOf, MatchedOf, ListsIdentifiers, Policy.IsIdentifier, DecisionCore, Preimage,
      IsFalsy;
  }

  // ---------- receipts ----------

  datatype Receipt = Receipt(index: nat, capture: string, action: string, policy: string, decision: string,
    previous: string, digest: string)

  function ReceiptCore(index: nat, capture: string, action: string, policy: string, decision: string, previous: string): seq<Member> {
    [Member("schema", Str("heresy-sec.receipt/v1")), Member("index", Int(index)), Member("capture_sha256", Str(capture)),
      Member("action_sha256", Str(action)), Member("policy_sha256", Str(policy)), Member("decision_sha256", Str(decision)),
      Member("previous_receipt_sha256", Str(previous))]
  }

  function ReceiptMembers(r: Receipt): seq<Member> {
    ReceiptCore(r.index, r.capture, r.action, r.policy, r.decision, r.previous) + [Member("receipt_sha256", Str(r.digest))]
  }

  function ReceiptValue(r: Receipt): Value {
    Sorted(Obj(ReceiptMembers(r)))
  }

  function ReceiptDigest(sha: string -> string, index: nat, capture: string, action: string, policy: string, decision: string,
    previous: string): string
  {
    DomainHash(sha, "HERESY-SEC/RECEIPT/v1", Obj(ReceiptCore(index, capture, action, policy, decision, previous)))
  }

  /** `build_receipt` */
  function BuildReceipt(sha: string -> string, index: nat, capture: string, action: string, policy: string, decision: string,
    previous: string): Receipt
  {
    Receipt(index, capture, action, policy, decision, previous,
      ReceiptDigest(sha, index, capture, action, policy, decision, previous))
  }

  const RECEIPT_KEYS: set<string> := {"schema", "index", "capture_sha256", "action_sha256", "policy_sha256",
    "decision_sha256", "previous_receipt_sha256", "receipt_sha256"}

  /** `normalize_receipt` */
  function NormalizeReceipt(sha: string -> string, v: Value): Result<Receipt> {
    if !v.Obj? || Keys(v.members) != RECEIPT_KEYS then Failure(ContractInvalid)
    else if Field(v, "schema") != Str("heresy-sec.receipt/v1") then Failure(SchemaUnsupported)
    else
      var index, capture := Field(v, "index"), Field(v, "capture_sha256");
      var action, policy := Field(v, "action_sha256"), Field(v, "policy_sha256");
      var decision, previous := Field(v, "decision_sha256"), Field(v, "previous_receipt_sha256");
      if !index.Int? || !(0 <= index.n <= MAX_SAFE_INTEGER) then Failure(ContractInvalid)
      else if !IsDigestValue(capture) || !IsDigestValue(action) || !IsDigestValue(policy) || !IsDigestValue(decision)
        || !IsDigestValue(previous) then
        Failure(ContractInvalid)
      else
        var built := BuildReceipt(sha, index.n, capture.s, action.s, policy.s, decision.s, previous.s);
        if Field(v, "receipt_sha256") != Str(built.digest) then Failure(ReceiptHashMismatch) else Success(built)
  }

  lemma ReceiptKeysDiffer(r: Receipt)
    ensures DistinctKeys(ReceiptMembers(r)) && Keys(ReceiptMembers(r)) == RECEIPT_KEYS
    ensures |ReceiptMembers(r)| == 8
  {
    var m := ReceiptMembers(r);
    var k := ["schema", "index", "capture_sha256", "action_sha256", "policy_sha256", "decision_sha256",
      "previous_receipt_sha256", "receipt_sha256"];
    assert forall i :: 0 <= i < 8 ==> m[i].key == k[i];
    assert k[4][1] != k[6][1];
    EightDiffer(k, "sicapdpr", 4, 6);
    KeysOfEight(m);
  }

  lemma ReceiptFields(r: Receipt)
    ensures var v := ReceiptValue(r);
      && v.Obj? && Keys(v.members) == RECEIPT_KEYS
      && Field(v, "schema") == Str("heresy-sec.receipt/v1") && Field(v, "index") == Int(r.index)
      && Field(v, "capture_sha256") == Str(r.capture) && Field(v, "action_sha256") == Str(r.action)
      && Field(v, "policy_sha256") == Str(r.policy) && Field(v, "decision_sha256") == Str(r.decision)
      && Field(v, "previous_receipt_sha256") == Str(r.previous) && Field(v, "receipt_sha256") == Str(r.digest)
  {
    var m := ReceiptMembers(r);
    ReceiptKeysDiffer(r);
    SortedObject(m);
    GetAfterSort(m, "schema");
    hide DistinctKeys, Field, Keys;
    FieldOf(m, 0);
    FieldOf(m, 1);
    FieldOf(m, 2);
    FieldOf(m, 3);
    FieldOf(m, 4);
    FieldOf(m, 5);
    FieldOf(m, 6);
    FieldOf(m, 7);
  }

  lemma ReceiptIsNormal(r: Receipt)
    requires r.index <= MAX_SAFE_INTEGER
    ensures IsNormal(ReceiptValue(r))
  {
    hide DistinctKeys, Keys, IsNormal, Sorted;
    var m := ReceiptMembers(r);
    ReceiptKeysDiffer(r);
    forall i | 0 <= i < |m| ensures IsScalar(m[i].value) {
      assert m[i].value.Str? || m[i].value == Int(r.index);
    }
    MembersAreNormal(m);
  }

  /** A receipt that was built is read back as it was. */
  lemma ReceiptRoundTrip(sha: string -> string, r: Receipt)
    requires IsDigest(r.capture) && IsDigest(r.action) && IsDigest(r.policy) && IsDigest(r.decision) && IsDigest(r.previous)
    requires r.index <= MAX_SAFE_INTEGER
    requires r == BuildReceipt(sha, r.index, r.capture, r.action, r.policy, r.decision, r.previous)
    ensures NormalizeReceipt(sha, ReceiptValue(r)) == Success(r)
  {
    hide ReceiptDigest, ReceiptValue, Field, Keys, IsDigest;
    ReceiptFields(r);
  }

  /** A stored receipt, field by field, with the hash of all of them. */
  ghost predicate IsStoredReceipt(sha: string -> string, v: Value, r: Receipt) {
    && v.Obj? && Keys(v.members) == {"schema", "index", "capture_sha256", "action_sha256", "policy_sha256", "decision_sha256",
      "previous_receipt_sha256", "receipt_sha256"}
    && Field(v, "schema") == Str("heresy-sec.receipt/v1")
    && Field(v, "index") == Int(r.index) && r.index <= 9007199254740991
    && Field(v, "capture_sha256") == Str(r.capture) && IsHash(r.capture)
    && Field(v, "action_sha256") == Str(r.action) && IsHash(r.action)
    && Field(v, "policy_sha256") == Str(r.policy) && IsHash(r.policy)
    && Field(v, "decision_sha256") == Str(r.decision) && IsHash(r.decision)
    && Field(v, "previous_receipt_sha256") == Str(r.previous) && IsHash(r.previous)
    && Field(v, "receipt_sha256") == Str(r.digest)
    && r.digest == sha(Preimage("HERESY-SEC/RECEIPT/v1",
      Obj(ReceiptCore(r.index, r.capture, r.action, r.policy, r.decision, r.previous))))
  }

  /** Which values are read as which receipts. */
  lemma ReceiptMeans(sha: string -> string, v: Value, r: Receipt)
    ensures NormalizeReceipt(sha, v) == Success(r) <==> IsStoredReceipt(sha, v, r)
  {
    HashMeans(r.capture);
    HashMeans(r.action);
    HashMeans(r.policy);
    HashMeans(r.decision);
    HashMeans(r.previous);
    hide Field, Keys, IsDigest, IsHash, ReceiptCore, Preimage;
  }
}
