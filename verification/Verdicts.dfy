/** The verdict of a window, in the part that both geometry profiles share. */
module Verdicts {
  import opened Effects
  import opened Registry
  import opened ShadowGuard

  datatype Reason = Classical(effect: Effect) | Impossible(kind: Kind) | CompanionMissing | Disarmed | GeometryAllow

  datatype Verdict = Verdict(classical: Effect, geometry: Effect, effect: Effect, armed: bool, loadBearing: bool,
    reasons: set<Reason>)

  function Reasons(classical: Effect, kinds: set<Kind>, complete: bool, armed: bool): set<Reason> {
    var reasons := (if classical != Allow then {Classical(classical)} else {})
      + (set k | k in kinds :: Impossible(k))
      + (if complete then {} else {CompanionMissing})
      + (if armed then {} else {Disarmed});
    if reasons == {} then {GeometryAllow} else reasons
  }

  /** The effect of a window once the fuse has been consulted. */
  function Final(preliminary: Effect, armed: bool): Effect {
    if !armed && preliminary == Allow then Deny else preliminary
  }

  /** Every reason that is named, and when. */
  lemma ReasonsMean(classical: Effect, kinds: set<Kind>, complete: bool, armed: bool, r: Reason)
    ensures r in Reasons(classical, kinds, complete, armed) <==>
      match r {
        case Classical(effect) => classical == effect && (effect == Deny || effect == Review)
        case Impossible(kind) => kind in kinds
        case CompanionMissing => !complete
        case Disarmed => !armed
        case GeometryAllow => classical == Allow && kinds == {} && complete && armed
      }
  {
    OnlyCleanWindowsAreAllowed(classical, kinds, complete, armed);
  }

  /** The bare reason code for a clean window is given just when nothing else could be. */
  lemma OnlyCleanWindowsAreAllowed(classical: Effect, kinds: set<Kind>, complete: bool, armed: bool)
    ensures GeometryAllow in Reasons(classical, kinds, complete, armed) <==>
      (classical == Allow && kinds == {} && complete && armed)
    ensures Reasons(classical, kinds, complete, armed) != {}
  {
    if k :| k in kinds {
      assert Impossible(k) in Reasons(classical, kinds, complete, armed);
    }
    if classical != Allow {
      assert Classical(classical) in Reasons(classical, kinds, complete, armed);
    } else if !complete {
      assert CompanionMissing in Reasons(classical, kinds, complete, armed);
    } else if !armed {
      assert Disarmed in Reasons(classical, kinds, complete, armed);
    }
  }

  /** The fuse can turn an allowance into a denial and nothing else: the final effect is never
      weaker than either verdict, and is ALLOW just when both are and the fuse is armed. */
  lemma FinalIsNeverWeaker(classical: Effect, geometry: Effect, armed: bool)
    ensures var effect := Final(Stricter(classical, geometry), armed);
      && Rank(effect) <= Rank(classical) && Rank(effect) <= Rank(geometry)
      && (effect == Allow <==> classical == Allow && geometry == Allow && armed)
      && (effect == Deny <==> classical == Deny || geometry == Deny || (classical == Allow && geometry == Allow && !armed))
  {
  }

  /** A window is denied by its decisions, by its geometry, or for nothing else than its fuse. */
  lemma DenialMeans(classical: Effect, geometry: Effect, kinds: set<Kind>, armed: bool)
    requires geometry == Allow <==> kinds == {}
    ensures Final(Stricter(classical, geometry), armed) == Deny <==>
      (classical == Deny || geometry == Deny || Reasons(classical, kinds, true, armed) == {Disarmed})
  {
    FinalIsNeverWeaker(classical, geometry, armed);
    forall r: Reason
      ensures r in Reasons(classical, kinds, true, armed) <==>
        match r {
          case Classical(effect) => classical == effect && (effect == Deny || effect == Review)
          case Impossible(kind) => kind in kinds
          case CompanionMissing => false
          case Disarmed => !armed
          case GeometryAllow => classical == Allow && kinds == {} && armed
        }
    {
      ReasonsMean(classical, kinds, true, armed, r);
    }
    var reasons := Reasons(classical, kinds, true, armed);
    hide Reasons, Final, Stricter;
    assert forall k :: k in kinds ==> Impossible(k) in reasons;
    assert classical != Allow ==> Classical(classical) in reasons;
    assert !armed ==> Disarmed in reasons;
    assert armed ==> Disarmed !in reasons;
    if classical == Allow && kinds == {} && !armed {
      assert forall r :: r in reasons <==> r == Disarmed;
    }
  }
}
