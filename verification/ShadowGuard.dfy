/** The Shadow Guard fuse (`shadow_guard_transition` and `_is_rearm_action` in geometry.py). */
module ShadowGuard {
  import opened Effects
  import opened Actions

  /** One step of the fuse: what a window feeds into the transition. */
  datatype Signal = Signal(trip: bool, rearm: bool, revalidated: bool)

  function Transition(armed: bool, s: Signal): bool {
    if s.trip then false
    else if armed then true
    else s.rearm && s.revalidated
  }

  predicate IsRearm(a: Action, e: Effect) {
    a.service == "system" && a.operation == "rearm" && a.target == "shadow-guard" && e == Allow
  }

  /** The fuse after all the signals; it starts armed. */
  function ArmedAfter(signals: seq<Signal>): bool {
    if signals == [] then true
    else Transition(ArmedAfter(signals[..|signals| - 1]), signals[|signals| - 1])
  }

  /** Nothing trips from position j on. */
  predicate Quiet(signals: seq<Signal>, j: nat) {
    forall k :: j <= k < |signals| ==> !signals[k].trip
  }

  /** A revalidated rearm, and no trip since. */
  predicate Recovers(signals: seq<Signal>, j: nat) {
    j < |signals| && signals[j].rearm && signals[j].revalidated && Quiet(signals, j)
  }

  /** No silent rearm, over every run: the fuse is armed just when nothing has ever tripped it or
      an allowed, revalidated rearm came after the last trip. */
  lemma {:induction false} ArmedMeans(signals: seq<Signal>)
    ensures ArmedAfter(signals) <==> Quiet(signals, 0) || exists j: nat :: Recovers(signals, j)
  {
    if signals != [] {
      var n := |signals| - 1;
      var front, last := signals[..n], signals[n];
      ArmedMeans(front);
      if last.trip {
        assert !Quiet(signals, 0);
        assert forall j: nat :: !Recovers(signals, j);
      } else {
        assert Quiet(signals, 0) <==> Quiet(front, 0);
        forall j: nat | Recovers(front, j) ensures Recovers(signals, j) {
        }
        forall j: nat | Recovers(signals, j) ensures j == n || Recovers(front, j) {
        }
        if last.rearm && last.revalidated {
          assert Recovers(signals, n);
        }
        if ArmedAfter(signals) && !ArmedAfter(front) {
          assert Recovers(signals, n);
        }
        if !ArmedAfter(signals) {
          assert !Recovers(signals, n);
        }
      }
    }
  }

  /** No window from j to i trips. */
  ghost predicate QuietBetween<W(!new)>(run: seq<W>, trips: W -> bool, j: nat, i: nat)
    requires i < |run|
  {
    forall k :: j <= k <= i ==> !trips(run[k])
  }

  /** What the signals of some windows say, window by window. */
  ghost predicate Describes<W(!new)>(signals: seq<Signal>, run: seq<W>, trips: W -> bool, rearms: W -> bool) {
    && |signals| == |run|
    && forall k :: 0 <= k < |run| ==>
      signals[k].trip == trips(run[k]) && ((signals[k].rearm && signals[k].revalidated) == rearms(run[k]))
  }

  lemma QuietMeans<W(!new)>(signals: seq<Signal>, run: seq<W>, trips: W -> bool, rearms: W -> bool, j: nat, i: nat)
    requires Describes(signals, run, trips, rearms) && i < |run|
    ensures Quiet(signals[..i + 1], j) <==> QuietBetween(run, trips, j, i)
  {
    var past := signals[..i + 1];
    if QuietBetween(run, trips, j, i) {
      forall k | j <= k < |past| ensures !past[k].trip {
        assert !trips(run[k]);
      }
    } else {
      var k :| j <= k <= i && trips(run[k]);
      assert past[k].trip;
    }
  }

  lemma RecoveryMeans<W(!new)>(signals: seq<Signal>, run: seq<W>, trips: W -> bool, rearms: W -> bool, j: nat, i: nat)
    requires Describes(signals, run, trips, rearms) && j <= i < |run|
    ensures Recovers(signals[..i + 1], j) <==> (rearms(run[j]) && QuietBetween(run, trips, j, i))
  {
    hide Quiet, QuietBetween;
    QuietMeans(signals, run, trips, rearms, j, i);
  }

  /** The same about windows: armed just when none up to i has tripped, or one after the last trip
      rearms. */
  lemma FuseMeaning<W(!new)>(signals: seq<Signal>, run: seq<W>, trips: W -> bool, rearms: W -> bool, i: nat)
    requires Describes(signals, run, trips, rearms) && i < |run|
    ensures ArmedAfter(signals[..i + 1]) <==>
      (QuietBetween(run, trips, 0, i) || exists j :: 0 <= j <= i && rearms(run[j]) && QuietBetween(run, trips, j, i))
  {
    hide Quiet, QuietBetween, Recovers, Describes, ArmedAfter;
    assert |signals| == |run| by { SignalForEach(signals, run, trips, rearms); }
    var past := signals[..i + 1];
    ArmedMeans(past);
    QuietMeans(signals, run, trips, rearms, 0, i);
    forall j: nat | j <= i ensures Recovers(past, j) <==> (rearms(run[j]) && QuietBetween(run, trips, j, i)) {
      RecoveryMeans(signals, run, trips, rearms, j, i);
    }
    forall j: nat | Recovers(past, j) ensures j <= i {
      RecoveryIsInside(past, j);
    }
  }

  lemma SignalForEach<W(!new)>(signals: seq<Signal>, run: seq<W>, trips: W -> bool, rearms: W -> bool)
    requires Describes(signals, run, trips, rearms)
    ensures |signals| == |run|
  {
  }

  lemma RecoveryIsInside(signals: seq<Signal>, j: nat)
    requires Recovers(signals, j)
    ensures j < |signals|
  {
  }

  /** A tripped fuse stays down for as long as nobody rearms it. */
  lemma {:induction false} DownStaysDown(signals: seq<Signal>, i: nat)
    requires i < |signals| && signals[i].trip
    requires forall k :: i < k < |signals| ==> !(signals[k].rearm && signals[k].revalidated)
    ensures !ArmedAfter(signals)
  {
    ArmedMeans(signals);
    assert forall j: nat :: Recovers(signals, j) ==> j > i;
  }
}
