/** The three verdicts, ordered from the strictest (`EFFECT_ORDER`). */
module Effects {

  datatype Effect = Deny | Review | Allow

  function Rank(e: Effect): nat {
    match e
    case Deny => 0
    case Review => 1
    case Allow => 2
  }

  function Stricter(a: Effect, b: Effect): (e: Effect)
    ensures e == a || e == b
    ensures Rank(e) <= Rank(a) && Rank(e) <= Rank(b)
  {
    if Rank(b) < Rank(a) then b else a
  }

  /** The strictest of some verdicts. */
  function Strictest(effects: seq<Effect>): (e: Effect)
    requires effects != []
    ensures e in effects
    ensures forall d :: d in effects ==> Rank(e) <= Rank(d)
  {
    if |effects| == 1 then effects[0]
    else
      var n := |effects| - 1;
      assert effects == effects[..n] + [effects[n]];
      Stricter(Strictest(effects[..n]), effects[n])
  }

  /** What the strictest effect says of all of them. */
  lemma StrictestMeans(effects: seq<Effect>)
    requires effects != []
    ensures Strictest(effects) == Deny <==> Deny in effects
    ensures Strictest(effects) == Review <==> Deny !in effects && Review in effects
    ensures Strictest(effects) == Allow <==> forall e :: e in effects ==> e == Allow
    ensures forall e :: e in effects ==> Rank(Strictest(effects)) <= Rank(e)
  {
    var e := Strictest(effects);
    assert e in effects;
    hide Strictest;
    if Deny in effects {
      assert Rank(e) <= Rank(Deny);
    } else if Review in effects {
      assert Rank(e) <= Rank(Review);
    }
  }
}
