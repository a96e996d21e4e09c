/** Runs of profile v1: a partition of the stream into windows that carry the spectrum, the receipt
    head and the fuse from one to the next (`build_geometry_window(s)` in geometry.py). */
module WindowsV1 {
  import opened Graphs
  import opened Outcomes
  import opened Effects
  import opened Actions
  import opened Registry
  import opened ShadowGuard
  import opened Verdicts
  import opened Schedules
  import opened Receipts
  import Forman
  import Obstructions
  import Holonomy
  import Spectral

  datatype Policy = Policy(width: nat, scale: nat, maxFormanAbs: nat, maxDelta: nat, epsilon: nat, rules: Rules)

  /** The bounds that `normalize_geometry_policy` enforces. */
  ghost predicate IsLegal(p: Policy) {
    && 1 <= p.width <= Spectral.MAX_WINDOW && 1 <= p.scale <= Spectral.MAX_SCALE && 1 <= p.epsilon <= 4
    && forall pattern :: pattern in p.rules.forbidCycles ==> |pattern| >= 1
  }

  /** What a receipt of this profile commits to, besides its verdict. */
  datatype Parts = Parts(window: Window, graph: Graph, curvature: Forman.PlainReport, spectral: Spectral.Report,
    holonomy: Holonomy.Report, rows: Rows)

  type Receipt = Receipts.Receipt<Parts>

  datatype GeometryWindow = GeometryWindow(window: Window, graph: Graph, curvature: Forman.PlainReport,
    spectral: Spectral.Report, holonomy: Holonomy.Report, rows: Rows, verdict: Verdict, receipt: Receipt)

  function PartsOf(x: GeometryWindow): Parts {
    Parts(x.window, x.graph, x.curvature, x.spectral, x.holonomy, x.rows)
  }

  // ---------- one window ----------

  function SignalOf(w: Window, rows: Rows): Signal
    requires |w.actions| == |w.effects| >= 1
  {
    var classical, geometry := Strictest(w.effects), EffectOf(rows);
    Signal(
      Stricter(classical, geometry) == Deny || geometry == Review,
      IsRearm(w.actions[0], w.effects[0]),
      geometry == Allow && classical == Allow)
  }

  function KindsOf(rows: Rows): set<Kind> {
    set o | o in rows :: o.kind
  }

  /** The decision of the window; `missing` is N_missing, the constant zero in this profile. */
  function Decide(w: Window, rows: Rows, deltaP: nat, curvatureOk: bool, spectralOk: bool, missing: nat, armed: bool): Verdict
    requires |w.actions| == |w.effects| >= 1
  {
    var classical, geometry := Strictest(w.effects), EffectOf(rows);
    var nowArmed := Transition(armed, SignalOf(w, rows));
    var effect := Final(Stricter(classical, geometry), nowArmed);
    Verdict(classical, geometry, effect, nowArmed,
      effect == Allow && nowArmed && deltaP == 0 && missing == 0 && curvatureOk && spectralOk,
      Reasons(classical, KindsOf(rows), true, nowArmed))
  }

  function ReadingsOf(c: Forman.PlainReport, s: Spectral.Report, l: Holonomy.Report): Readings {
    Readings(l.residuals, c.ok, (set id | id in c.trips), s.ok, s.l2Delta)
  }

  ghost predicate IsWindow(x: GeometryWindow, w: Window, p: Policy, h: Digests, previous: seq<int>, armed: bool) {
    && x.window == w && w.Valid() && w.actions != []
    && IsGraph(x.graph) && IsActionGraph(x.graph, w.actions, h)
    && Forman.IsPlainCurvature(x.graph, p.scale, p.maxFormanAbs, x.curvature)
    && Spectral.IsReading(x.graph, p.scale, p.maxDelta, previous, x.spectral)
    && Holonomy.IsHolonomy(x.graph, p.epsilon, x.holonomy)
    && IsRegistry(w, x.graph, h, p.rules, ReadingsOf(x.curvature, x.spectral, x.holonomy), x.rows)
    && x.verdict == Decide(w, x.rows, x.holonomy.deltaP, x.curvature.ok, x.spectral.ok, 0, armed)
  }

  /** Why a window cannot be evaluated: a spectrum that does not settle, or a cycle search beyond
      its bound. */
  ghost predicate Fails(w: Window, p: Policy, h: Digests, error: Error) {
    exists g :: IsActionGraph(g, w.actions, h) && IsGraph(g) && (
      (error == SpectrumInvalid && Spectral.IsUnsettled(g, p.scale))
      || (error == CycleSearchLimit && exists q :: q in p.rules.forbidCycles && Overruns(g, q)))
  }

  method BuildWindow(w: Window, p: Policy, h: Digests, previous: seq<int>, armed: bool, index: nat, head: Digest, previousReceipt: Digest)
    returns (result: Result<GeometryWindow>)
    requires w.Valid() && 1 <= |w.actions| <= Spectral.MAX_WINDOW && IsLegal(p) && EdgesDoNotCollide(h, w.actions)
    ensures result.Success? ==>
      && IsWindow(result.value, w, p, h, previous, armed)
      && result.value.receipt == ReceiptOf(index, w, PartsOf(result.value), result.value.verdict, head, previousReceipt)
    ensures result.Failure? ==> Fails(w, p, h, result.error)
  {
    hide Decide, IsGraph, Spectral.IsUnsettled, IsActionGraph, Forman.IsPlainCurvature, Spectral.IsReading, Holonomy.IsHolonomy, IsRegistry,
      EdgesDoNotCollide, Finishes, Overruns, ReadingsOf, IsStream;
    var built := BuildActionGraph(w.actions, h);
    var graph := built.value;
    ActionGraphIsGraph(graph, w.actions, h);
    var curvature := Forman.BuildPlainCurvature(graph, p.scale, p.maxFormanAbs);
    var spectral := Spectral.BuildSpectral(graph, w.actions, h, p.scale, p.maxDelta, previous);
    if spectral.Failure? {
      return Failure(spectral.error);
    }
    var holonomy := Holonomy.BuildHolonomy(graph, p.epsilon);
    var registry := BuildRegistry(w, graph, h, p.rules, ReadingsOf(curvature, spectral.value, holonomy));
    if registry.Failure? {
      return Failure(registry.error);
    }
    var verdict := Decide(w, registry.value, holonomy.deltaP, curvature.ok, spectral.value.ok, 0, armed);
    var parts := Parts(w, graph, curvature, spectral.value, holonomy, registry.value);
    result := Success(GeometryWindow(w, graph, curvature, spectral.value, holonomy, registry.value, verdict,
      ReceiptOf(index, w, parts, verdict, head, previousReceipt)));
  }

  // ---------- a run ----------

  function Slice(s: Stream, p: Policy, i: nat): Window
    requires p.width >= 1 && i < |Starts(|s.actions|, p.width)| && |s.effects| == |s.actions|
  {
    RangeSteps(0, |s.actions|, p.width);
    var start := Starts(|s.actions|, p.width)[i];
    s.Part(start, Min(start + p.width, |s.actions|))
  }

  /** Window i continues from the window before it. */
  ghost predicate Links(s: Stream, p: Policy, h: Digests, receipts: Receipt -> Digest, zero: Digest, run: seq<GeometryWindow>, i: nat)
    requires p.width >= 1 && i < |run| <= |Starts(|s.actions|, p.width)| && s.Valid()
  {
    RangeSteps(0, |s.actions|, p.width);
    var start := Starts(|s.actions|, p.width)[i];
    && IsWindow(run[i], Slice(s, p, i), p, h,
      if i == 0 then [] else run[i - 1].spectral.spectrum, if i == 0 then true else run[i - 1].verdict.armed)
    && run[i].receipt == ReceiptOf(i, Slice(s, p, i), PartsOf(run[i]), run[i].verdict,
      s.receipts[Min(start + p.width, |s.actions|) - 1],
      if i == 0 then zero else receipts(run[i - 1].receipt))
  }

  ghost predicate IsRun(s: Stream, p: Policy, h: Digests, receipts: Receipt -> Digest, zero: Digest, run: seq<GeometryWindow>)
    requires p.width >= 1 && s.Valid()
  {
    && |run| <= |Starts(|s.actions|, p.width)|
    && forall i :: 0 <= i < |run| ==> Links(s, p, h, receipts, zero, run, i)
  }

  lemma RunExtends(s: Stream, p: Policy, h: Digests, receipts: Receipt -> Digest, zero: Digest, run: seq<GeometryWindow>, x: GeometryWindow)
    requires p.width >= 1 && s.Valid() && IsRun(s, p, h, receipts, zero, run)
    requires |run| < |Starts(|s.actions|, p.width)| && Links(s, p, h, receipts, zero, run + [x], |run|)
    ensures IsRun(s, p, h, receipts, zero, run + [x])
  {
    hide IsWindow, Slice, Range;
    var longer := run + [x];
    forall i | 0 <= i < |longer| ensures Links(s, p, h, receipts, zero, longer, i) {
      if i < |run| {
        assert Links(s, p, h, receipts, zero, run, i);
      }
    }
  }

  method BuildWindows(s: Stream, p: Policy, h: Digests, receipts: Receipt -> Digest, zero: Digest)
    returns (result: Result<seq<GeometryWindow>>)
    requires s.Valid() && IsLegal(p) && EdgesDoNotCollide(h, s.actions)
    ensures result.Success? ==>
      && IsRun(s, p, h, receipts, zero, result.value)
      && |result.value| == |Starts(|s.actions|, p.width)|
    ensures result.Failure? ==>
      exists i :: 0 <= i < |Starts(|s.actions|, p.width)| && Fails(Slice(s, p, i), p, h, result.error)
  {
    hide IsWindow, IsRun, EdgesDoNotCollide, IsStream, Range, Fails;
    var n, starts := |s.actions|, Starts(|s.actions|, p.width);
    RangeSteps(0, n, p.width);
    var run: seq<GeometryWindow> := [];
    var previousSpectrum: seq<int> := [];
    var previousReceipt := zero;
    var armed := true;
    assert IsRun(s, p, h, receipts, zero, run) by { EmptyRun(s, p, h, receipts, zero); }
    for index := 0 to |starts|
      invariant |run| == index && IsRun(s, p, h, receipts, zero, run)
      invariant previousSpectrum == if index == 0 then [] else run[index - 1].spectral.spectrum
      invariant previousReceipt == if index == 0 then zero else receipts(run[index - 1].receipt)
      invariant armed == if index == 0 then true else run[index - 1].verdict.armed
    {
      var start := starts[index];
      var stop := Min(start + p.width, n);
      PartIsValid(s, start, stop);
      PartDoesNotCollide(s, start, stop, h);
      var built := BuildWindow(s.Part(start, stop), p, h, previousSpectrum, armed, index, s.receipts[stop - 1], previousReceipt);
      if built.Failure? {
        assert Fails(Slice(s, p, index), p, h, built.error);
        return Failure(built.error);
      }
      var x := built.value;
      RunExtends(s, p, h, receipts, zero, run, x);
      run := run + [x];
      previousSpectrum := x.spectral.spectrum;
      previousReceipt := receipts(x.receipt);
      armed := x.verdict.armed;
    }
    result := Success(run);
  }

  lemma EmptyRun(s: Stream, p: Policy, h: Digests, receipts: Receipt -> Digest, zero: Digest)
    requires p.width >= 1 && s.Valid()
    ensures IsRun(s, p, h, receipts, zero, [])
  {
  }

  // ---------- the fuse over every run ----------

  function Signals(run: seq<GeometryWindow>): (signals: seq<Signal>)
    requires AreShaped(run)
    ensures |signals| == |run|
  {
    seq(|run|, i requires 0 <= i < |run| => SignalOf(run[i].window, run[i].rows))
  }

  lemma RunShape(s: Stream, p: Policy, h: Digests, receipts: Receipt -> Digest, zero: Digest, run: seq<GeometryWindow>)
    requires p.width >= 1 && s.Valid() && IsRun(s, p, h, receipts, zero, run)
    ensures forall i :: 0 <= i < |run| ==>
      && |run[i].window.actions| == |run[i].window.effects| >= 1
      && run[i].window.Valid()
      && run[i].window == Slice(s, p, i)
  {
    hide IsGraph, IsActionGraph, Forman.IsPlainCurvature, Spectral.IsReading, Holonomy.IsHolonomy, IsRegistry, Decide,
      Slice, IsStream, Range;
    forall i | 0 <= i < |run|
      ensures run[i].window == Slice(s, p, i) && run[i].window.Valid() && run[i].window.actions != []
    {
      assert Links(s, p, h, receipts, zero, run, i);
    }
  }

  lemma {:induction false} ArmedIsFuse(s: Stream, p: Policy, h: Digests, receipts: Receipt -> Digest, zero: Digest,
    run: seq<GeometryWindow>, i: nat)
    requires p.width >= 1 && s.Valid() && IsRun(s, p, h, receipts, zero, run) && i < |run|
    requires AreShaped(run)
    ensures run[i].verdict.armed == ArmedAfter(Signals(run)[..i + 1])
  {
    hide IsGraph, IsActionGraph, Forman.IsPlainCurvature, Spectral.IsReading, Holonomy.IsHolonomy, IsRegistry,
      Slice, IsStream, Range, SignalOf;
    assert Links(s, p, h, receipts, zero, run, i);
    var signals := Signals(run);
    assert signals[..i + 1][..i] == signals[..i];
    if i > 0 {
      ArmedIsFuse(s, p, h, receipts, zero, run, i - 1);
    }
  }

  ghost predicate AreShaped(run: seq<GeometryWindow>) {
    forall k :: 0 <= k < |run| ==> |run[k].window.actions| == |run[k].window.effects| >= 1
  }

  /** In every run and after every window, the fuse is armed just when no window so far has tripped
      it, or some window after the last trip begins with an allowed rearm and is allowed both by
      the classical decisions and by the geometry. */
  lemma FuseOverRuns(s: Stream, p: Policy, h: Digests, receipts: Receipt -> Digest, zero: Digest,
    run: seq<GeometryWindow>, i: nat)
    requires p.width >= 1 && s.Valid() && IsRun(s, p, h, receipts, zero, run) && i < |run|
    ensures run[i].verdict.armed <==>
      (QuietBetween(run, Trips, 0, i) || exists j :: 0 <= j <= i && Rearms(run[j]) && QuietBetween(run, Trips, j, i))
  {
    RunShape(s, p, h, receipts, zero, run);
    hide IsRun, IsWindow, Slice, SignalOf, QuietBetween, Trips, Rearms;
    ArmedIsFuse(s, p, h, receipts, zero, run, i);
    forall k | 0 <= k < |run|
      ensures var signal := SignalOf(run[k].window, run[k].rows);
        signal.trip == Trips(run[k]) && (signal.rearm && signal.revalidated <==> Rearms(run[k]))
    {
      SignalMeans(run[k]);
    }
    FuseMeaning(Signals(run), run, Trips, Rearms, i);
  }

  /** An action of the window is denied, or something is registered. */
  predicate Trips(x: GeometryWindow) {
    Deny in x.window.effects || x.rows != {}
  }

  /** The window begins with a rearm of the shadow guard, all its actions are allowed, and nothing is
      registered. */
  predicate Rearms(x: GeometryWindow) {
    && |x.window.actions| == |x.window.effects| >= 1
    && x.window.actions[0].service == "system" && x.window.actions[0].operation == "rearm"
    && x.window.actions[0].target == "shadow-guard"
    && (forall e :: e in x.window.effects ==> e == Allow)
    && x.rows == {}
  }

  lemma SignalMeans(x: GeometryWindow)
    requires |x.window.actions| == |x.window.effects| >= 1
    ensures var s := SignalOf(x.window, x.rows);
      s.trip == Trips(x) && (s.rearm && s.revalidated <==> Rearms(x))
  {
    var classical := Strictest(x.window.effects);
    assert x.window.effects[0] in x.window.effects;
    forall e | e in x.window.effects ensures Rank(classical) <= Rank(e) {
    }
  }

  /** A window that is merely reviewed by the classical policy leaves the fuse as it was. */
  lemma ReviewLeavesFuse(x: GeometryWindow, p: Policy, h: Digests, previous: seq<int>, armed: bool)
    requires IsWindow(x, x.window, p, h, previous, armed)
    requires x.verdict.classical == Review && x.verdict.geometry == Allow
    ensures x.verdict.armed == armed
    ensures x.verdict.effect == Review
  {
    hide IsGraph, IsActionGraph, Forman.IsPlainCurvature, Spectral.IsReading, Holonomy.IsHolonomy, IsRegistry;
  }

  // ---------- the receipts ----------

  function Log(run: seq<GeometryWindow>): (log: seq<Receipt>)
    ensures |log| == |run| && forall i :: 0 <= i < |run| ==> log[i] == run[i].receipt
  {
    seq(|run|, i requires 0 <= i < |run| => run[i].receipt)
  }

  /** The receipts of a run form a log. */
  lemma RunReceiptsChain(s: Stream, p: Policy, h: Digests, receipts: Receipt -> Digest, zero: Digest, run: seq<GeometryWindow>)
    requires p.width >= 1 && s.Valid() && IsRun(s, p, h, receipts, zero, run)
    ensures IsLog(Log(run), receipts, zero)
  {
    hide IsWindow, Slice, Range;
    forall i | 0 <= i < |run|
      ensures run[i].receipt.index == i && run[i].receipt.previous == Before(Log(run), receipts, zero, i)
    {
      assert Links(s, p, h, receipts, zero, run, i);
    }
  }

  /** The receipts commit to the windows they stand in. */
  ghost predicate IsCommitted(run: seq<GeometryWindow>) {
    forall i :: 0 <= i < |run| ==> run[i].receipt.parts == PartsOf(run[i]) && run[i].receipt.verdict == run[i].verdict
  }

  lemma SameRuns(run: seq<GeometryWindow>, other: seq<GeometryWindow>)
    requires IsCommitted(run) && IsCommitted(other) && Log(run) == Log(other)
    ensures run == other
  {
    assert |run| == |Log(run)| == |other|;
    forall i | 0 <= i < |run| ensures run[i] == other[i] {
      assert Log(run)[i] == run[i].receipt && Log(other)[i] == other[i].receipt;
    }
  }

  /** Two runs with the same last receipt are the same run, window by window: graph, sensors, registry,
      verdict and receipt. */
  lemma HeadFixesRun(s: Stream, p: Policy, run: seq<GeometryWindow>, t: Stream, q: Policy, other: seq<GeometryWindow>,
    h: Digests, receipts: Receipt -> Digest, zero: Digest)
    requires p.width >= 1 && s.Valid() && IsRun(s, p, h, receipts, zero, run)
    requires q.width >= 1 && t.Valid() && IsRun(t, q, h, receipts, zero, other)
    requires run != [] && other != [] && DoNotCollide(receipts, Log(run), Log(other))
    requires receipts(run[|run| - 1].receipt) == receipts(other[|other| - 1].receipt)
    ensures run == other
  {
    hide IsRun, Log, IsLog, IsCommitted;
    RunReceiptsChain(s, p, h, receipts, zero, run);
    RunReceiptsChain(t, q, h, receipts, zero, other);
    LogEnds(run);
    LogEnds(other);
    HeadFixesLog(Log(run), Log(other), receipts, zero);
    RunIsCommitted(s, p, h, receipts, zero, run);
    RunIsCommitted(t, q, h, receipts, zero, other);
    SameRuns(run, other);
  }

  lemma LogEnds(run: seq<GeometryWindow>)
    requires run != []
    ensures Log(run) != [] && Log(run)[|Log(run)| - 1] == run[|run| - 1].receipt
  {
  }

  lemma RunIsCommitted(s: Stream, p: Policy, h: Digests, receipts: Receipt -> Digest, zero: Digest, run: seq<GeometryWindow>)
    requires p.width >= 1 && s.Valid() && IsRun(s, p, h, receipts, zero, run)
    ensures IsCommitted(run)
  {
    hide IsWindow, Slice, Range;
    forall i | 0 <= i < |run| ensures run[i].receipt.parts == PartsOf(run[i]) && run[i].receipt.verdict == run[i].verdict {
      assert Links(s, p, h, receipts, zero, run, i);
    }
  }

  /** Window i of a run holds the actions from i times the width on, and its receipt says which. */
  lemma WindowOfRun(s: Stream, p: Policy, h: Digests, receipts: Receipt -> Digest, zero: Digest,
    run: seq<GeometryWindow>, i: nat)
    requires p.width >= 1 && s.Valid() && IsRun(s, p, h, receipts, zero, run) && i < |run|
    ensures var first, n := i * p.width, |s.actions|;
      var stop := if first + p.width <= n then first + p.width else n;
      && 0 <= first < stop
      && run[i].window.actions == s.actions[first..stop] && run[i].window.effects == s.effects[first..stop]
      && run[i].receipt.index == i && run[i].receipt.verdict == run[i].verdict
      && run[i].receipt.firstSequence == s.actions[first].sequence
      && run[i].receipt.lastSequence == s.actions[stop - 1].sequence
      && run[i].receipt.head == s.receipts[stop - 1]
      && run[i].receipt.previous == if i == 0 then zero else receipts(run[i - 1].receipt)
  {
    hide IsWindow, Starts, IsStream;
    StartIs(|s.actions|, p.width, i);
    assert Links(s, p, h, receipts, zero, run, i);
    RunShape(s, p, h, receipts, zero, run);
  }

  // ---------- the verdict ----------

  /** The edges of the window whose own bound is exceeded. */
  ghost function Tripped(g: Graph, maxAbs: nat): set<Digest> {
    set e | e in g.edges && Forman.Abs(Forman.PlainCurvature(g.edges, e)) > maxAbs :: e.id
  }

  /** The rows that come from the sensors: the trips of both bounds, and the authority that an edge
      adds or drops beside the labels of its ends. */
  lemma SensorRowsMean(x: GeometryWindow, w: Window, p: Policy, h: Digests, previous: seq<int>, armed: bool, o: Obstruction)
    requires IsWindow(x, w, p, h, previous, armed)
    ensures o.kind == FormanThresholdTrip ==>
      var trips := Tripped(x.graph, p.maxFormanAbs);
      o in x.rows <==> (trips != {} && o.mode == Discharge && o.residual == |trips| && o.edges == trips)
    ensures o.kind == SpectralDeltaTrip ==>
      var delta := Spectral.L2Delta(previous, x.spectral.spectrum);
      o in x.rows <==> (delta > p.maxDelta && o.mode == Discharge && o.residual == delta && o.edges == Forman.AllIds(x.graph.edges))
    ensures o.kind == PrivilegePenroseLoop ==>
      (o in x.rows <==> exists e :: (e in x.graph.edges && Obstructions.IsPenroseLoop(e, x.holonomy.potentials, o)
        && o.mode == if p.rules.requireDeltaP then Discharge else GapLift))
  {
    var readings := ReadingsOf(x.curvature, x.spectral, x.holonomy);
    Obstructions.ThresholdsMean(w, x.graph, h, p.rules, readings, x.rows, o);
    if o.kind == PrivilegePenroseLoop {
      Obstructions.PenroseMeans(w, x.graph, h, p.rules, readings, x.rows, o);
      Obstructions.ResidualsMean(x.graph, p.epsilon, x.holonomy, o);
    }
    hide IsGraph, IsActionGraph, IsRegistry, Decide, Holonomy.IsHolonomy, IsStream, Forman.PlainCurvature, Obstructions.IsPenroseLoop;
    TripsAre(x.graph, p.scale, p.maxFormanAbs, x.curvature);
  }

  lemma TripsAre(g: Graph, scale: nat, maxAbs: nat, c: Forman.PlainReport)
    requires Forman.IsPlainCurvature(g, scale, maxAbs, c)
    ensures (set id | id in c.trips) == Tripped(g, maxAbs)
    ensures c.ok <==> Tripped(g, maxAbs) == {}
  {
    hide Forman.PlainCurvature, Forman.Abs;
    if e :| e in g.edges && Forman.Abs(Forman.PlainCurvature(g.edges, e)) > maxAbs {
      assert e.id in Tripped(g, maxAbs);
    }
    forall id ensures id in c.trips <==> id in Tripped(g, maxAbs) {
      if id in c.trips {
        var e :| e in g.edges && e.id == id && Forman.Abs(Forman.PlainCurvature(g.edges, e)) > maxAbs;
      }
    }
  }

  /** The verdict reason by reason, and when the window is denied. */
  lemma VerdictMeans(x: GeometryWindow, w: Window, p: Policy, h: Digests, previous: seq<int>, armed: bool)
    requires IsWindow(x, w, p, h, previous, armed)
    ensures var v := x.verdict;
      && (Classical(Deny) in v.reasons <==> Deny in w.effects)
      && (Classical(Review) in v.reasons <==> Deny !in w.effects && Review in w.effects)
      && (forall k :: Impossible(k) in v.reasons <==> exists o :: o in x.rows && o.kind == k)
      && CompanionMissing !in v.reasons
      && (Disarmed in v.reasons <==> !v.armed)
      && (v.effect == Deny <==>
        (Deny in w.effects || (exists o :: o in x.rows && Obstructions.Denies(o.kind, p.rules)) || v.reasons == {Disarmed}))
  {
    hide IsGraph, IsActionGraph, Forman.IsPlainCurvature, Spectral.IsReading, IsRegistry, Reasons, Holonomy.IsHolonomy,
      EffectOf, Obstructions.Denies, Transition, SignalOf, IsStream;
    var v, kinds := x.verdict, KindsOf(x.rows);
    Obstructions.EffectMeans(w, x.graph, h, p.rules, ReadingsOf(x.curvature, x.spectral, x.holonomy), x.rows);
    StrictestMeans(w.effects);
    hide Strictest, Final, Stricter;
    if o :| o in x.rows {
      assert o.kind in kinds;
    }
    DenialMeans(v.classical, v.geometry, kinds, v.armed);
    forall r ensures r in v.reasons <==> r in Reasons(v.classical, kinds, true, v.armed) {
    }
    ReasonsMean(v.classical, kinds, true, v.armed, Classical(Deny));
    ReasonsMean(v.classical, kinds, true, v.armed, Classical(Review));
    ReasonsMean(v.classical, kinds, true, v.armed, CompanionMissing);
    ReasonsMean(v.classical, kinds, true, v.armed, Disarmed);
    forall k ensures Impossible(k) in v.reasons <==> k in kinds {
      ReasonsMean(v.classical, kinds, true, v.armed, Impossible(k));
    }
  }

  // ---------- the conjunction ----------

  /** The load-bearing conjunction collapses to the final effect, which is never weaker than the
      classical one; the clean reason code is given just for allowed windows. */
  lemma LoadBearingMeansAllow(x: GeometryWindow, w: Window, p: Policy, h: Digests, previous: seq<int>, armed: bool)
    requires IsWindow(x, w, p, h, previous, armed) && IsLegal(p)
    ensures x.verdict.loadBearing <==> x.verdict.effect == Allow
    ensures x.verdict.effect == Allow <==>
      (forall e :: e in w.effects ==> e == Allow) && x.rows == {} && x.verdict.armed
    ensures forall e :: e in w.effects ==> Rank(x.verdict.effect) <= Rank(e)
    ensures GeometryAllow in x.verdict.reasons <==> x.verdict.effect == Allow
  {
    hide IsGraph, IsActionGraph, Forman.IsPlainCurvature, Spectral.IsReading, IsRegistry, Reasons;
    FinalIsNeverWeaker(x.verdict.classical, x.verdict.geometry, x.verdict.armed);
    OnlyCleanWindowsAreAllowed(x.verdict.classical, KindsOf(x.rows), true, x.verdict.armed);
    if o :| o in x.rows {
      assert o.kind in KindsOf(x.rows);
    } else {
      EmptyRegistry(w, x.graph, h, p.rules, ReadingsOf(x.curvature, x.spectral, x.holonomy), x.rows);
      Holonomy.DeltaPMeaning(x.graph, p.epsilon, x.holonomy);
    }
  }

  /** Every window of the run may be relied on. */
  ghost predicate AllLoadBearing(run: seq<GeometryWindow>) {
    forall i :: 0 <= i < |run| ==> run[i].verdict.loadBearing
  }

  lemma LoadBearingInRun(s: Stream, p: Policy, h: Digests, receipts: Receipt -> Digest, zero: Digest,
    run: seq<GeometryWindow>, i: nat)
    requires s.Valid() && IsLegal(p) && IsRun(s, p, h, receipts, zero, run) && i < |run|
    ensures run[i].verdict.loadBearing <==> run[i].verdict.effect == Allow
    ensures run[i].verdict.effect == Allow ==> forall e :: e in Slice(s, p, i).effects ==> e == Allow
  {
    hide IsWindow, Slice, Range;
    assert Links(s, p, h, receipts, zero, run, i);
    LoadBearingMeansAllow(run[i], Slice(s, p, i), p, h, if i == 0 then [] else run[i - 1].spectral.spectrum,
      if i == 0 then true else run[i - 1].verdict.armed);
  }

  /** In a whole run all windows may be relied on just when all of them are allowed; then every single
      action is, as each lies in some window. */
  lemma RunIsAllowed(s: Stream, p: Policy, h: Digests, receipts: Receipt -> Digest, zero: Digest, run: seq<GeometryWindow>)
    requires s.Valid() && IsLegal(p) && IsRun(s, p, h, receipts, zero, run) && |run| == |Starts(|s.actions|, p.width)|
    ensures AllLoadBearing(run) <==> forall i :: 0 <= i < |run| ==> run[i].verdict.effect == Allow
    ensures AllLoadBearing(run) ==> forall k :: 0 <= k < |s.effects| ==> s.effects[k] == Allow
  {
    hide IsRun, Slice, IsStream;
    forall i | 0 <= i < |run| ensures run[i].verdict.loadBearing <==> run[i].verdict.effect == Allow {
      LoadBearingInRun(s, p, h, receipts, zero, run, i);
    }
    if AllLoadBearing(run) {
      forall k | 0 <= k < |s.effects| ensures s.effects[k] == Allow {
        WindowsPartition(|s.actions|, p.width, k);
        var starts := Starts(|s.actions|, p.width);
        var i :| 0 <= i < |starts| && Holds(|s.actions|, p.width, starts[i], k);
        LoadBearingInRun(s, p, h, receipts, zero, run, i);
        SliceHolds(s, p, i, k);
      }
    }
  }

  lemma SliceHolds(s: Stream, p: Policy, i: nat, k: nat)
    requires p.width >= 1 && i < |Starts(|s.actions|, p.width)| && |s.effects| == |s.actions| && k < |s.actions|
    requires Holds(|s.actions|, p.width, Starts(|s.actions|, p.width)[i], k)
    ensures s.effects[k] in Slice(s, p, i).effects
  {
    var start := Starts(|s.actions|, p.width)[i];
    var stop := Min(start + p.width, |s.actions|);
    assert s.effects[start..stop][k - start] == s.effects[k];
  }
}
