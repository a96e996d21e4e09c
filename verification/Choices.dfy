/** From the decision of the policy to the record that carries it: the choices of the engine are such
    that `build_decision` takes them as they are. */
module Choices {
  import opened Outcomes
  import opened Effects
  import opened Actions
  import opened Sorting
  import opened Rotations
  import opened Policy
  import opened PolicyLaws
  import Records
  import Fields

  /** The reason codes of policy.py. */
  function ReasonName(r: Reason): string {
    match r
    case AuthorityNotGranted => "AUTHORITY_NOT_GRANTED"
    case ParametersTooLarge => "PARAMETERS_TOO_LARGE"
    case NetworkDisabled => "NETWORK_DISABLED"
    case NetworkTargetInvalid => "NETWORK_TARGET_INVALID"
    case NetworkSchemeNotAllowed => "NETWORK_SCHEME_NOT_ALLOWED"
    case NetworkHostNotAllowed => "NETWORK_HOST_NOT_ALLOWED"
    case ProcessDisabled => "PROCESS_DISABLED"
    case ProcessNotAllowed => "PROCESS_NOT_ALLOWED"
    case FileTargetInvalid => "FILE_TARGET_INVALID"
    case FileTargetOutsidePrefix => "FILE_TARGET_OUTSIDE_PREFIX"
    case IpcSlotInvalid => "IPC_SLOT_INVALID"
    case ByRule(e) => "RULE_" + Records.EffectName(e)
    case ByDefault(e) => "DEFAULT_" + Records.EffectName(e)
  }

  predicate IsUpper(c: char) {
    'A' <= c <= 'Z' || c == '_'
  }

  predicate IsUpperWord(s: string) {
    1 <= |s| <= 256 && 'A' <= s[0] <= 'Z' && forall i :: 0 <= i < |s| ==> IsUpper(s[i])
  }

  lemma UpperIsIdentifier(s: string)
    requires IsUpperWord(s)
    ensures IsIdentifier(s)
  {
    assert "._:/@+-"[1] == '_';
  }

  lemma NetworkIsUpper(r: Reason)
    requires r.NetworkDisabled? || r.NetworkTargetInvalid? || r.NetworkSchemeNotAllowed? || r.NetworkHostNotAllowed?
    ensures IsUpperWord(ReasonName(r))
  {
  }

  lemma FileIsUpper(r: Reason)
    requires r.FileTargetInvalid? || r.FileTargetOutsidePrefix? || r.AuthorityNotGranted? || r.ParametersTooLarge?
    ensures IsUpperWord(ReasonName(r))
  {
  }

  lemma ProcessIsUpper(r: Reason)
    requires r.ProcessDisabled? || r.ProcessNotAllowed? || r.IpcSlotInvalid?
    ensures IsUpperWord(ReasonName(r))
  {
  }

  lemma RuleIsUpper(r: Reason)
    requires r.ByRule? || r.ByDefault?
    ensures IsUpperWord(ReasonName(r))
  {
    EffectIsUpper(r.effect);
    hide Records.EffectName;
  }

  lemma EffectIsUpper(e: Effect)
    ensures var s := Records.EffectName(e);
      1 <= |s| <= 6 && forall i :: 0 <= i < |s| ==> IsUpper(s[i])
  {
  }

  lemma ReasonIsIdentifier(r: Reason)
    ensures IsIdentifier(ReasonName(r))
  {
    hide ReasonName, IsUpperWord, IsIdentifier;
    if r.NetworkDisabled? || r.NetworkTargetInvalid? || r.NetworkSchemeNotAllowed? || r.NetworkHostNotAllowed? {
      NetworkIsUpper(r);
    } else if r.FileTargetInvalid? || r.FileTargetOutsidePrefix? || r.AuthorityNotGranted? || r.ParametersTooLarge? {
      FileIsUpper(r);
    } else if r.ProcessDisabled? || r.ProcessNotAllowed? || r.IpcSlotInvalid? {
      ProcessIsUpper(r);
    } else {
      RuleIsUpper(r);
    }
    UpperIsIdentifier(ReasonName(r));
  }

  /** The choice that stands for a decision: the names of its reasons, sorted. */
  ghost predicate Represents(c: Records.Choice, d: Decision) {
    && c.effect == d.effect && c.matched == d.matched && c.selected == d.selected
    && SortStrings(c.reasons) == c.reasons && AreDistinct(c.reasons)
    && forall s :: s in c.reasons <==> exists r :: r in d.reasons && s == ReasonName(r)
  }

  function Names(reasons: seq<Reason>): (names: seq<string>)
    ensures |names| == |reasons| && forall i :: 0 <= i < |reasons| ==> names[i] == ReasonName(reasons[i])
  {
    seq(|reasons|, i requires 0 <= i < |reasons| => ReasonName(reasons[i]))
  }

  lemma ReasonsAreFew(c: Records.Choice, d: Decision)
    requires Represents(c, d)
    ensures AreIdentifiers(c.reasons) && |c.reasons| <= 17
  {
    hide SortStrings, ReasonName, IsIdentifier;
    var names := Names(ALL_REASONS);
    forall i | 0 <= i < |c.reasons| ensures IsIdentifier(c.reasons[i]) && c.reasons[i] in names {
      assert c.reasons[i] in c.reasons;
      var r :| r in d.reasons && c.reasons[i] == ReasonName(r);
      ReasonIsIdentifier(r);
      ReasonIsListed(r);
      var j :| 0 <= j < |ALL_REASONS| && ALL_REASONS[j] == r;
      assert names[j] == c.reasons[i];
    }
    ManyInside(c.reasons, names);
  }

  lemma DecisionHasReason(a: Action, q: Policy, endpoint: Endpoint, d: Decision)
    requires IsDecision(a, q, endpoint, d)
    ensures d.reasons != {}
  {
    hide Crosses, Matches, IsChosen;
    if r :| Crosses(a, q.boundaries, endpoint, r) {
      assert r in d.reasons;
    }
  }

  /** Every decision of `evaluate_action` gives a choice that `build_decision` accepts as it is. */
  lemma DecisionsAreChoices(a: Action, p: Policy, endpoint: Endpoint, d: Decision, c: Records.Choice)
    requires IsPolicy(p) && IsDecision(a, NormalPolicy(p), endpoint, d) && Represents(c, d)
    ensures Records.IsChoice(c)
  {
    hide IsPolicy, NormalPolicy, IsDecision, ReasonName, SortStrings, IsIdentifier, AreDistinct;
    MatchedAreRules(a, p, endpoint, d);
    DecisionHasReason(a, NormalPolicy(p), endpoint, d);
    ReasonsAreFew(c, d);
    var r :| r in d.reasons;
    assert ReasonName(r) in c.reasons;
  }

  /** What `evaluate_action` hands to `build_decision`. */
  function Choose(a: Action, q: Policy, endpoint: Endpoint): Records.Choice {
    var d := Decide(a, q, endpoint);
    Records.Choice(d.effect, SortStrings(Names(ReasonsFor(a, q, endpoint))), d.matched, d.selected)
  }

  function FirstLetter(r: Reason): char {
    match r
    case AuthorityNotGranted => 'A'
    case ParametersTooLarge => 'P'
    case NetworkDisabled => 'N'
    case NetworkTargetInvalid => 'N'
    case NetworkSchemeNotAllowed => 'N'
    case NetworkHostNotAllowed => 'N'
    case ProcessDisabled => 'P'
    case ProcessNotAllowed => 'P'
    case FileTargetInvalid => 'F'
    case FileTargetOutsidePrefix => 'F'
    case IpcSlotInvalid => 'I'
    case ByRule(_) => 'R'
    case ByDefault(_) => 'D'
  }

  function NameLength(r: Reason): nat {
    match r
    case AuthorityNotGranted => 21
    case ParametersTooLarge => 20
    case NetworkDisabled => 16
    case NetworkTargetInvalid => 22
    case NetworkSchemeNotAllowed => 26
    case NetworkHostNotAllowed => 24
    case ProcessDisabled => 16
    case ProcessNotAllowed => 19
    case FileTargetInvalid => 19
    case FileTargetOutsidePrefix => 26
    case IpcSlotInvalid => 16
    case ByRule(e) => if e == Deny then 9 else if e == Review then 11 else 10
    case ByDefault(e) => if e == Deny then 12 else if e == Review then 14 else 13
  }

  lemma NameTag(r: Reason)
    ensures ReasonName(r) != [] && ReasonName(r)[0] == FirstLetter(r) && |ReasonName(r)| == NameLength(r)
  {
  }

  /** No two reasons have one name. */
  lemma NamesDiffer(r: Reason, s: Reason)
    requires ReasonName(r) == ReasonName(s)
    ensures r == s
  {
    NameTag(r);
    NameTag(s);
    hide ReasonName;
    assert FirstLetter(r) == FirstLetter(s) && NameLength(r) == NameLength(s);
  }

  lemma ChoiceRepresents(a: Action, q: Policy, endpoint: Endpoint)
    ensures Represents(Choose(a, q, endpoint), Decide(a, q, endpoint))
  {
    hide Matching, Crosses, ReasonName, Sort, SortStrings;
    var reasons := ReasonsFor(a, q, endpoint);
    var names, sorted := Names(reasons), SortStrings(Names(reasons));
    ReasonsAreDistinct(a, q, endpoint);
    hide ReasonsFor, Crossed;
    SortedStringsStay(names);
    forall i, j | 0 <= i < j < |names| ensures names[i] != names[j] {
      if names[i] == names[j] {
        NamesDiffer(reasons[i], reasons[j]);
      }
    }
    NoRepeats(names, sorted);
    forall s ensures s in sorted <==> exists r :: r in reasons && s == ReasonName(r) {
      if s in names {
        var i :| 0 <= i < |names| && names[i] == s;
        assert reasons[i] in reasons;
      }
      if r :| r in reasons && s == ReasonName(r) {
        var i :| 0 <= i < |reasons| && reasons[i] == r;
        assert names[i] == s;
      }
    }
  }

  /** The engine's choice under a policy that was normalised is one that `build_decision` takes. */
  lemma ChooseIsChoice(a: Action, p: Policy, endpoint: Endpoint)
    requires IsPolicy(p)
    ensures Records.IsChoice(Choose(a, NormalPolicy(p), endpoint))
  {
    hide IsPolicy, NormalPolicy, Decide, Choose, Records.IsChoice, Represents;
    var q := NormalPolicy(p);
    NormalIdsAreDistinct(p);
    DecideIsDecision(a, q, endpoint);
    ChoiceRepresents(a, q, endpoint);
    DecisionsAreChoices(a, p, endpoint, Decide(a, q, endpoint), Choose(a, q, endpoint));
  }

  /** The record of a decision is read back, unchanged, just when at most 256 rules match: the
      reader caps a set that the policy caps at 4096. */
  lemma DecisionIsReadBack(a: Action, p: Policy, endpoint: Endpoint, d: Decision, c: Records.Choice, sha: string -> string,
    actionId: string, policyId: string)
    requires IsPolicy(p) && IsDecision(a, NormalPolicy(p), endpoint, d) && Represents(c, d)
    requires Fields.IsDigest(actionId) && Fields.IsDigest(policyId)
    ensures var record := Records.BuildDecision(sha, actionId, policyId, c);
      Records.NormalizeDecision(sha, Records.DecisionValue(record))
      == if |d.matched| <= MAX_SET then Success(record) else Failure(ContractInvalid)
  {
    hide IsPolicy, NormalPolicy, IsDecision, Records.IsChoice, Fields.IsDigest, Records.NormalizeDecision,
      Records.DecisionValue, Records.DecisionDigest;
    DecisionsAreChoices(a, p, endpoint, d, c);
    Records.DecisionRoundTrip(sha, Records.BuildDecision(sha, actionId, policyId, c));
  }
}
