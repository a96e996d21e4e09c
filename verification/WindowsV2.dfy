/** Runs of profile v2: rolling short and long windows over the same stream
    (geometry_profile_v2_runtime.py). */
module WindowsV2 {
  import opened Graphs
  import opened Outcomes
  import opened Effects
  import opened Actions
  import opened Registry
  import opened RoleRegistry
  import opened ShadowGuard
  import opened Verdicts
  import opened Schedules
  import opened Receipts
  import Evidence
  import Forman
  import Holonomy
  import Json
  import Obstructions
  import Spectral

  datatype Policy = Policy(short: nat, long: nat, stride: nat, scale: nat, forman: Forman.Policy, maxDelta: nat,
    epsilon: nat, rules: Rules)

  /** The bounds that `normalize_geometry_policy_v2` enforces. */
  ghost predicate IsLegal(p: Policy) {
    && 1 <= p.stride <= p.short <= p.long <= Spectral.MAX_WINDOW
    && 1 <= p.scale <= Spectral.MAX_SCALE && 1 <= p.epsilon <= 4
    && (forall pattern :: pattern in p.rules.forbidCycles ==> |pattern| >= 1)
    && Forman.IsLegal(p.forman)
  }

  // ---------- the sensors of one role ----------

  datatype Sensor = Sensor(window: Window, graph: Graph, curvature: Forman.Report, spectral: Spectral.Report,
    holonomy: Holonomy.Report, rows: RoleRows)

  function SensorReadings(s: Sensor): Readings {
    RoleRegistry.ReadingsOf(s.holonomy.residuals, s.curvature, s.spectral.ok, s.spectral.l2Delta)
  }

  ghost predicate IsSensor(s: Sensor, role: Role, w: Window, p: Policy, h: Digests, previous: seq<int>) {
    && s.window == w && w.Valid() && w.actions != []
    && IsGraph(s.graph) && IsActionGraph(s.graph, w.actions, h)
    && Forman.IsCurvature(s.graph, p.forman, p.scale, s.curvature)
    && Spectral.IsReading(s.graph, p.scale, p.maxDelta, previous, s.spectral)
    && Holonomy.IsHolonomy(s.graph, p.epsilon, s.holonomy)
    && exists inherited ::
      && IsRegistry(w, s.graph, h, p.rules, SensorReadings(s), inherited)
      && IsRoleRegistry(role, inherited, s.graph, s.curvature, p.forman, SensorReadings(s), s.rows)
  }

  /** Why the sensors of a view cannot be evaluated. */
  ghost predicate Fails(w: Window, p: Policy, h: Digests, error: Error) {
    if w.actions == [] then error == GraphInvalid
    else
      exists g :: IsActionGraph(g, w.actions, h) && IsGraph(g) && (
        (error == FormanWeightMissing && !Forman.AreWeighed(g.edges, p.forman))
        || (error == SpectrumInvalid && Spectral.IsUnsettled(g, p.scale))
        || (error == CycleSearchLimit && exists q :: q in p.rules.forbidCycles && Overruns(g, q)))
  }

  /** `_sensor_window` */
  method BuildSensor(role: Role, w: Window, p: Policy, h: Digests, previous: seq<int>) returns (result: Result<Sensor>)
    requires w.Valid() && |w.actions| <= Spectral.MAX_WINDOW && IsLegal(p) && EdgesDoNotCollide(h, w.actions)
    ensures result.Success? ==> IsSensor(result.value, role, w, p, h, previous)
    ensures result.Failure? ==> Fails(w, p, h, result.error)
  {
    hide IsGraph, Spectral.IsUnsettled, IsActionGraph, Forman.IsCurvature, Spectral.IsReading, Holonomy.IsHolonomy, IsRegistry,
      EdgesDoNotCollide, Finishes, Overruns, IsStream, IsRoleRegistry, Forman.AreWeighed;
    var built := BuildActionGraph(w.actions, h);
    if built.Failure? {
      return Failure(built.error);
    }
    var graph := built.value;
    ActionGraphIsGraph(graph, w.actions, h);
    var curvature := Forman.BuildCurvature(graph, p.forman, p.scale);
    if curvature.Failure? {
      return Failure(curvature.error);
    }
    var spectral := Spectral.BuildSpectral(graph, w.actions, h, p.scale, p.maxDelta, previous);
    if spectral.Failure? {
      return Failure(spectral.error);
    }
    var holonomy := Holonomy.BuildHolonomy(graph, p.epsilon);
    ghost var inherited;
    var rows;
    rows, inherited := BuildRoleRegistry(role, w, graph, h, p.rules, curvature.value, p.forman, holonomy.residuals,
      spectral.value.ok, spectral.value.l2Delta);
    if rows.Failure? {
      return Failure(rows.error);
    }
    var sensor := Sensor(w, graph, curvature.value, spectral.value, holonomy, rows.value);
    assert IsRegistry(w, graph, h, p.rules, SensorReadings(sensor), inherited);
    result := Success(sensor);
  }

  // ---------- the companions ----------

  const REQUIRED_KINDS: set<string> :=
    {"SHORT_FORMAN", "SHORT_SPECTRAL", "SHORT_HOLONOMY", "LONG_FORMAN", "LONG_SPECTRAL", "LONG_HOLONOMY"}

  /** The kinds of the evidence atoms: these of every manifest, and more for the actions. */
  function PresentKinds(more: set<string>): set<string> {
    {"POLICY", "SHORT_ACTION_GRAPH", "SHORT_FORMAN", "SHORT_SPECTRAL", "SHORT_HOLONOMY", "SHORT_REGISTRY",
      "LONG_ACTION_GRAPH", "LONG_FORMAN", "LONG_SPECTRAL", "LONG_HOLONOMY", "LONG_REGISTRY",
      "IMPOSSIBLE_CONFIGURATIONS", "SHORT_EVENT_RANGE", "LONG_EVENT_RANGE"} + more
  }

  function Missing(more: set<string>): (n: nat)
    ensures n == 0
  {
    assert REQUIRED_KINDS - PresentKinds(more) == {};
    |REQUIRED_KINDS - PresentKinds(more)|
  }

  // ---------- the decision ----------

  function GeometryOk(short: Sensor, long: Sensor, missing: nat): bool {
    && short.curvature.ok && long.curvature.ok
    && short.spectral.ok && long.spectral.ok
    && short.holonomy.deltaP == 0 && long.holonomy.deltaP == 0
    && missing == 0
    && RoleEffectOf(Aggregate(short.rows, long.rows)) == Allow
  }

  /** rearm is whether the first new action of the step is an allowed rearm. */
  function SignalOf(short: Sensor, long: Sensor, missing: nat, rearm: bool): Signal
    requires long.window.effects != []
  {
    var classical, geometry := Strictest(long.window.effects), RoleEffectOf(Aggregate(short.rows, long.rows));
    var geomOk := GeometryOk(short, long, missing);
    Signal(
      Stricter(classical, geometry) == Deny || geometry == Review || !geomOk,
      rearm,
      classical == Allow && geomOk)
  }

  function KindsOf(rows: RoleRows): set<Kind> {
    set r | r in rows :: r.kind
  }

  function Decide(short: Sensor, long: Sensor, missing: nat, rearm: bool, armed: bool): Verdict
    requires long.window.effects != []
  {
    var rows := Aggregate(short.rows, long.rows);
    var classical, geometry := Strictest(long.window.effects), RoleEffectOf(rows);
    var nowArmed := Transition(armed, SignalOf(short, long, missing, rearm));
    var effect := Final(Stricter(classical, geometry), nowArmed);
    var deltaP := if short.holonomy.deltaP >= long.holonomy.deltaP then short.holonomy.deltaP else long.holonomy.deltaP;
    Verdict(classical, geometry, effect, nowArmed,
      classical == Allow && GeometryOk(short, long, missing) && deltaP == 0 && nowArmed && missing == 0 && effect == Allow,
      Reasons(classical, KindsOf(rows), missing == 0, nowArmed))
  }

  lemma DecideParts(short: Sensor, long: Sensor, rearm: bool, armed: bool)
    requires long.window.effects != []
    ensures var v, rows := Decide(short, long, 0, rearm, armed), Aggregate(short.rows, long.rows);
      && v.classical == Strictest(long.window.effects)
      && v.geometry == RoleEffectOf(rows)
      && v.armed == Transition(armed, SignalOf(short, long, 0, rearm))
      && v.effect == Final(Stricter(v.classical, v.geometry), v.armed)
      && v.reasons == Reasons(v.classical, KindsOf(rows), true, v.armed)
      && (v.loadBearing <==> (v.classical == Allow && GeometryOk(short, long, 0) && v.armed && v.effect == Allow))
  {
    hide SignalOf, Reasons, RoleEffectOf, Strictest;
  }

  // ---------- a run ----------

  /** What a receipt of this profile commits to, besides its verdict. */
  datatype Parts = Parts(short: Sensor, long: Sensor)

  type Receipt = Receipts.Receipt<Parts>

  datatype GeometryWindow = GeometryWindow(short: Sensor, long: Sensor, verdict: Verdict, receipt: Receipt)

  /** The part of the stream that a role sees at an endpoint. */
  function View(s: Stream, endpoint: nat, width: nat): Window
    requires endpoint <= |s.actions| == |s.effects|
  {
    s.Part(Back(endpoint, width), endpoint)
  }

  predicate RearmAt(s: Stream, start: nat, endpoint: nat)
    requires endpoint <= |s.actions| == |s.effects|
  {
    start < endpoint && IsRearm(s.actions[start], s.effects[start])
  }

  /** The window at one endpoint, given what is carried over from the window before. */
  ghost predicate IsWindow(x: GeometryWindow, s: Stream, p: Policy, h: Digests, start: nat, endpoint: nat,
    previousShort: seq<int>, previousLong: seq<int>, armed: bool)
    requires s.Valid() && endpoint <= |s.actions|
  {
    && IsSensor(x.short, Short, View(s, endpoint, p.short), p, h, previousShort)
    && IsSensor(x.long, Long, View(s, endpoint, p.long), p, h, previousLong)
    && x.verdict == Decide(x.short, x.long, 0, RearmAt(s, start, endpoint), armed)
  }

  /** `_build_v2_window` */
  method BuildWindow(s: Stream, p: Policy, h: Digests, index: nat, start: nat, endpoint: nat,
    previousShort: seq<int>, previousLong: seq<int>, armed: bool, previousReceipt: Digest)
    returns (result: Result<GeometryWindow>)
    requires s.Valid() && endpoint <= |s.actions| && IsLegal(p) && EdgesDoNotCollide(h, s.actions)
    ensures result.Success? ==>
      && endpoint >= 1
      && IsWindow(result.value, s, p, h, start, endpoint, previousShort, previousLong, armed)
      && result.value.receipt
      == ReceiptOf(index, View(s, endpoint, p.long), Parts(result.value.short, result.value.long), result.value.verdict,
        s.receipts[endpoint - 1], previousReceipt)
    ensures result.Failure? ==>
      Fails(View(s, endpoint, p.short), p, h, result.error) || Fails(View(s, endpoint, p.long), p, h, result.error)
  {
    hide Fails, IsSensor, Decide, EdgesDoNotCollide, IsStream;
    var shortView, longView := View(s, endpoint, p.short), View(s, endpoint, p.long);
    PartIsValid(s, Back(endpoint, p.short), endpoint);
    PartIsValid(s, Back(endpoint, p.long), endpoint);
    PartDoesNotCollide(s, Back(endpoint, p.short), endpoint, h);
    PartDoesNotCollide(s, Back(endpoint, p.long), endpoint, h);
    var short := BuildSensor(Short, shortView, p, h, previousShort);
    if short.Failure? {
      return Failure(short.error);
    }
    SensorIsShaped(short.value, Short, shortView, p, h, previousShort);
    var long := BuildSensor(Long, longView, p, h, previousLong);
    if long.Failure? {
      return Failure(long.error);
    }
    SensorIsShaped(long.value, Long, longView, p, h, previousLong);
    var missing := Missing({"CAPTURE", "CLASSICAL_DECISION", "CLASSICAL_RULE_MATCH"});
    var verdict := Decide(short.value, long.value, missing, RearmAt(s, start, endpoint), armed);
    result := Success(GeometryWindow(short.value, long.value, verdict,
      ReceiptOf(index, longView, Parts(short.value, long.value), verdict, s.receipts[endpoint - 1], previousReceipt)));
  }

  lemma SensorIsShaped(x: Sensor, role: Role, w: Window, p: Policy, h: Digests, previous: seq<int>)
    requires IsSensor(x, role, w, p, h, previous)
    ensures x.window == w && |w.actions| == |w.effects| >= 1
  {
  }

  /** The endpoints of the whole stream, and what window i carries on from the one before it. */
  ghost predicate Links(s: Stream, p: Policy, h: Digests, receipts: Receipt -> Digest, zero: Digest, endpoints: seq<nat>,
    run: seq<GeometryWindow>, i: nat)
    requires s.Valid() && i < |run| <= |endpoints| && forall e :: e in endpoints ==> 1 <= e <= |s.actions|
    requires p.long >= 1
  {
    var endpoint := endpoints[i];
    assert endpoint in endpoints;
    && IsWindow(run[i], s, p, h, StepStart(endpoints, i), endpoint,
      if i == 0 then [] else run[i - 1].short.spectral.spectrum,
      if i == 0 then [] else run[i - 1].long.spectral.spectrum,
      if i == 0 then true else run[i - 1].verdict.armed)
    && run[i].receipt == ReceiptOf(i, View(s, endpoint, p.long), Parts(run[i].short, run[i].long), run[i].verdict,
      s.receipts[endpoint - 1],
      if i == 0 then zero else receipts(run[i - 1].receipt))
  }

  ghost predicate AreEndpoints(s: Stream, p: Policy, endpoints: seq<nat>) {
    && p.stride >= 1 && p.long >= 1 && |s.actions| >= 1
    && endpoints == Endpoints(|s.actions|, p.stride)
    && forall e :: e in endpoints ==> 1 <= e <= |s.actions|
  }

  ghost predicate IsRun(s: Stream, p: Policy, h: Digests, receipts: Receipt -> Digest, zero: Digest, endpoints: seq<nat>,
    run: seq<GeometryWindow>)
    requires s.Valid()
  {
    && AreEndpoints(s, p, endpoints)
    && |run| <= |endpoints|
    && forall i :: 0 <= i < |run| ==> Links(s, p, h, receipts, zero, endpoints, run, i)
  }

  lemma EndpointsInside(n: nat, stride: nat)
    requires stride >= 1 && n >= 1
    ensures forall e :: e in Endpoints(n, stride) ==> 1 <= e <= n
  {
    EndpointsAscend(n, stride);
    hide Endpoints;
    var endpoints := Endpoints(n, stride);
    forall i | 0 <= i < |endpoints| ensures 1 <= endpoints[i] <= n {
      assert StepStart(endpoints, i) < endpoints[i];
    }
  }

  lemma RunExtends(s: Stream, p: Policy, h: Digests, receipts: Receipt -> Digest, zero: Digest, endpoints: seq<nat>,
    run: seq<GeometryWindow>, x: GeometryWindow)
    requires s.Valid() && IsRun(s, p, h, receipts, zero, endpoints, run)
    requires |run| < |endpoints| && Links(s, p, h, receipts, zero, endpoints, run + [x], |run|)
    ensures IsRun(s, p, h, receipts, zero, endpoints, run + [x])
  {
    hide IsStream;
    hide IsWindow, AreEndpoints, View;
    EndpointFacts(s, p, endpoints);
    var longer := run + [x];
    forall i | 0 <= i < |longer| ensures Links(s, p, h, receipts, zero, endpoints, longer, i) {
      if i < |run| {
        assert Links(s, p, h, receipts, zero, endpoints, run, i);
      }
    }
  }

  lemma EndpointFacts(s: Stream, p: Policy, endpoints: seq<nat>)
    requires AreEndpoints(s, p, endpoints)
    ensures p.long >= 1 && forall e :: e in endpoints ==> 1 <= e <= |s.actions|
  {
  }

  /** `build_geometry_windows`.  The stream is empty just when the schedule has the endpoint zero,
      whose window has no graph. */
  method BuildWindows(s: Stream, p: Policy, h: Digests, receipts: Receipt -> Digest, zero: Digest)
    returns (result: Result<seq<GeometryWindow>>)
    requires s.Valid() && IsLegal(p) && EdgesDoNotCollide(h, s.actions)
    ensures s.actions == [] ==> result == Failure(GraphInvalid)
    ensures result.Success? ==>
      && IsRun(s, p, h, receipts, zero, Endpoints(|s.actions|, p.stride), result.value)
      && |result.value| == |Endpoints(|s.actions|, p.stride)|
    ensures result.Failure? ==>
      exists e :: e in Endpoints(|s.actions|, p.stride) && e <= |s.actions|
        && (Fails(View(s, e, p.short), p, h, result.error) || Fails(View(s, e, p.long), p, h, result.error))
  {
    hide Fails, IsWindow, IsRun, EdgesDoNotCollide, IsStream, Endpoints, View;
    var endpoints := Endpoints(|s.actions|, p.stride);
    EndpointsAscend(|s.actions|, p.stride);
    var run: seq<GeometryWindow> := [];
    var previousShort: seq<int> := [];
    var previousLong: seq<int> := [];
    var previousReceipt := zero;
    var armed := true;
    var start: nat := 0;
    if s.actions != [] {
      EndpointsInside(|s.actions|, p.stride);
      EmptyRun(s, p, h, receipts, zero);
    }
    for index := 0 to |endpoints|
      invariant s.actions == [] ==> index == 0
      invariant s.actions != [] ==> |run| == index && IsRun(s, p, h, receipts, zero, endpoints, run)
      invariant previousShort == if index == 0 then [] else run[index - 1].short.spectral.spectrum
      invariant previousLong == if index == 0 then [] else run[index - 1].long.spectral.spectrum
      invariant previousReceipt == if index == 0 then zero else receipts(run[index - 1].receipt)
      invariant armed == if index == 0 then true else run[index - 1].verdict.armed
      invariant start == if index == 0 then 0 else endpoints[index - 1]
    {
      var endpoint := endpoints[index];
      assert endpoint in endpoints;
      var built := BuildWindow(s, p, h, index, start, endpoint, previousShort, previousLong, armed, previousReceipt);
      if built.Failure? {
        NoGraphWithoutActions(s, p, h, endpoint, built.error);
        return Failure(built.error);
      }
      var x := built.value;
      RunExtends(s, p, h, receipts, zero, endpoints, run, x);
      run := run + [x];
      previousShort := x.short.spectral.spectrum;
      previousLong := x.long.spectral.spectrum;
      previousReceipt := receipts(x.receipt);
      armed := x.verdict.armed;
      start := endpoint;
    }
    result := Success(run);
  }

  lemma NoGraphWithoutActions(s: Stream, p: Policy, h: Digests, endpoint: nat, error: Error)
    requires endpoint <= |s.actions| == |s.effects|
    requires Fails(View(s, endpoint, p.short), p, h, error) || Fails(View(s, endpoint, p.long), p, h, error)
    ensures endpoint == 0 ==> error == GraphInvalid
  {
    hide IsActionGraph, IsGraph, Spectral.IsUnsettled, Overruns, Forman.AreWeighed;
    if endpoint == 0 {
      assert View(s, endpoint, p.short).actions == [] && View(s, endpoint, p.long).actions == [];
    }
  }

  lemma EmptyRun(s: Stream, p: Policy, h: Digests, receipts: Receipt -> Digest, zero: Digest)
    requires s.Valid() && p.stride >= 1 && p.long >= 1 && |s.actions| >= 1
    ensures IsRun(s, p, h, receipts, zero, Endpoints(|s.actions|, p.stride), [])
  {
    EndpointsInside(|s.actions|, p.stride);
  }

  // ---------- the conjunction ----------

  lemma SensorHasRegistry(x: Sensor, role: Role, w: Window, p: Policy, h: Digests, previous: seq<int>) returns (inherited: Rows)
    requires IsSensor(x, role, w, p, h, previous)
    ensures |w.actions| == |w.effects| && IsGraph(x.graph) && IsActionGraph(x.graph, w.actions, h)
    ensures IsRegistry(w, x.graph, h, p.rules, SensorReadings(x), inherited)
    ensures IsRoleRegistry(role, inherited, x.graph, x.curvature, p.forman, SensorReadings(x), x.rows)
    ensures Holonomy.IsHolonomy(x.graph, p.epsilon, x.holonomy)
  {
    hide IsGraph, IsActionGraph, Forman.IsCurvature, Spectral.IsReading, Holonomy.IsHolonomy, IsRegistry, IsRoleRegistry;
    inherited :| IsRegistry(w, x.graph, h, p.rules, SensorReadings(x), inherited)
      && IsRoleRegistry(role, inherited, x.graph, x.curvature, p.forman, SensorReadings(x), x.rows);
  }

  /** The rows of a sensor that its bounds decide: the trip of the curvature and that of the spectrum. */
  lemma ThresholdRowsMean(x: Sensor, role: Role, w: Window, p: Policy, h: Digests, previous: seq<int>, r: RoleObstruction)
    requires IsSensor(x, role, w, p, h, previous)
    ensures r.kind == FormanThresholdTrip ==>
      (r in x.rows <==> !x.curvature.ok && r == FormanRow(role, x.curvature, p.forman))
    ensures r.kind == SpectralDeltaTrip ==>
      var delta := Spectral.L2Delta(previous, x.spectral.spectrum);
      (r in x.rows <==> delta > p.maxDelta && r == RoleObstruction(role, SpectralDeltaTrip, delta, Discharge,
        set e | e in x.graph.edges :: e.id, None, Some("spectral_l2_delta")))
  {
    var inherited := SensorHasRegistry(x, role, w, p, h, previous);
    SensorHasSpectrum(x, role, w, p, h, previous);
    hide IsSensor, IsRegistry, IsGraph, IsActionGraph, Holonomy.IsHolonomy, FormanRow, SpectralRow;
    ThresholdsOfRole(role, inherited, x.graph, x.curvature, p.forman, SensorReadings(x), x.rows, r);
    hide IsRoleRegistry;
  }

  lemma ThresholdsOfRole(role: Role, inherited: Rows, g: Graph, c: Forman.Report, p: Forman.Policy, readings: Readings,
    rows: RoleRows, r: RoleObstruction)
    requires IsRoleRegistry(role, inherited, g, c, p, readings, rows)
    ensures r.kind == FormanThresholdTrip ==> (r in rows <==> !readings.curvatureOk && r == FormanRow(role, c, p))
    ensures r.kind == SpectralDeltaTrip ==>
      (r in rows <==> !readings.spectralOk && r == RoleObstruction(role, SpectralDeltaTrip, readings.l2Delta, Discharge,
        set e | e in g.edges :: e.id, None, Some("spectral_l2_delta")))
  {
    hide AbsExcess, L1Excess, ThresholdKind, Max;
  }

  lemma SensorHasSpectrum(x: Sensor, role: Role, w: Window, p: Policy, h: Digests, previous: seq<int>)
    requires IsSensor(x, role, w, p, h, previous)
    ensures x.spectral.l2Delta == Spectral.L2Delta(previous, x.spectral.spectrum)
    ensures x.spectral.ok <==> x.spectral.l2Delta <= p.maxDelta
  {
    hide IsGraph, IsActionGraph, Forman.IsCurvature, Holonomy.IsHolonomy, IsRegistry, IsRoleRegistry;
  }

  /** Every other row of a sensor is what the registry of its view lists, under the name of the role. */
  lemma OtherRowsMean(x: Sensor, role: Role, w: Window, p: Policy, h: Digests, previous: seq<int>, r: RoleObstruction)
    requires IsSensor(x, role, w, p, h, previous) && |w.actions| == |w.effects|
    requires r.kind != FormanThresholdTrip && r.kind != SpectralDeltaTrip
    ensures r in x.rows <==> exists o :: (IsObstruction(w, x.graph, h, p.rules, SensorReadings(x), o)
      && r == RoleObstruction(role, o.kind, o.residual, o.mode, o.edges, Some(o), None))
  {
    var inherited := SensorHasRegistry(x, role, w, p, h, previous);
    hide IsSensor, IsObstruction, IsGraph, IsActionGraph, Holonomy.IsHolonomy, FormanRow, SpectralRow;
    RowsOfRole(role, inherited, x.graph, x.curvature, p.forman, SensorReadings(x), x.rows, r);
    hide IsRoleRegistry;
    if o :| o in inherited && r == RoleObstruction(role, o.kind, o.residual, o.mode, o.edges, Some(o), None) {
      assert IsObstruction(w, x.graph, h, p.rules, SensorReadings(x), o);
    }
    if o :| (IsObstruction(w, x.graph, h, p.rules, SensorReadings(x), o)
      && r == RoleObstruction(role, o.kind, o.residual, o.mode, o.edges, Some(o), None)) {
      assert o in inherited;
    }
  }

  lemma RowsOfRole(role: Role, inherited: Rows, g: Graph, c: Forman.Report, p: Forman.Policy, readings: Readings,
    rows: RoleRows, r: RoleObstruction)
    requires IsRoleRegistry(role, inherited, g, c, p, readings, rows)
    requires r.kind != FormanThresholdTrip && r.kind != SpectralDeltaTrip
    ensures r in rows <==> exists o :: o in inherited && r == RoleObstruction(role, o.kind, o.residual, o.mode, o.edges, Some(o), None)
  {
    hide AbsExcess, L1Excess, ThresholdKind, Max;
    if o :| o in inherited && r == RoleObstruction(role, o.kind, o.residual, o.mode, o.edges, Some(o), None) {
      assert r == InheritedOf(role, o);
    }
  }

  /** A Penrose loop is an edge with authority that the labels of its ends do not explain. */
  lemma PenroseRowsMean(x: Sensor, role: Role, w: Window, p: Policy, h: Digests, previous: seq<int>, r: RoleObstruction)
    requires IsSensor(x, role, w, p, h, previous) && r.kind == PrivilegePenroseLoop
    ensures r in x.rows <==> exists e :: (e in x.graph.edges
      && Obstructions.IsPenroseLoop(e, x.holonomy.potentials, Obstruction(r.kind, r.residual, r.mode, r.edges))
      && r == RoleObstruction(role, PrivilegePenroseLoop, r.residual, if p.rules.requireDeltaP then Discharge else GapLift,
        r.edges, Some(Obstruction(r.kind, r.residual, r.mode, r.edges)), None))
  {
    SensorIsShaped(x, role, w, p, h, previous);
    OtherRowsMean(x, role, w, p, h, previous, r);
    var o := Obstruction(r.kind, r.residual, r.mode, r.edges);
    var inherited := SensorHasRegistry(x, role, w, p, h, previous);
    Obstructions.PenroseMeans(w, x.graph, h, p.rules, SensorReadings(x), inherited, o);
    Obstructions.ResidualsMean(x.graph, p.epsilon, x.holonomy, o);
    hide IsSensor, IsObstruction, IsGraph, IsActionGraph, Holonomy.IsHolonomy, IsRoleRegistry, Obstructions.IsPenroseLoop;
  }

  /** A role without rows has a content curvature, a content spectrum and no path dependence. */
  lemma EmptyRole(x: Sensor, role: Role, w: Window, p: Policy, h: Digests, previous: seq<int>)
    requires IsSensor(x, role, w, p, h, previous) && p.epsilon >= 1 && x.rows == {}
    ensures x.curvature.ok && x.spectral.ok && x.holonomy.deltaP == 0 && x.holonomy.residuals == []
  {
    var inherited := SensorHasRegistry(x, role, w, p, h, previous);
    hide IsGraph, IsActionGraph, Holonomy.IsHolonomy, IsRegistry, IsRoleRegistry, IsSensor;
    var readings := SensorReadings(x);
    SameVerdict(role, w, x.graph, h, p.rules, readings, inherited, x.curvature, p.forman, x.rows);
    EmptyRegistry(w, x.graph, h, p.rules, readings, inherited);
    Holonomy.DeltaPMeaning(x.graph, p.epsilon, x.holonomy);
  }

  /** The six-fold conjunction of the geometry says no more than that the aggregate registry allows. */
  lemma GeometryOkMeansAllow(x: GeometryWindow, s: Stream, p: Policy, h: Digests, start: nat, endpoint: nat,
    previousShort: seq<int>, previousLong: seq<int>, armed: bool)
    requires s.Valid() && endpoint <= |s.actions| && p.epsilon >= 1
    requires IsWindow(x, s, p, h, start, endpoint, previousShort, previousLong, armed)
    ensures GeometryOk(x.short, x.long, 0) <==> RoleEffectOf(Aggregate(x.short.rows, x.long.rows)) == Allow
    ensures GeometryOk(x.short, x.long, 0) <==> x.short.rows == {} && x.long.rows == {}
  {
    hide IsStream;
    hide IsSensor;
    if x.short.rows == {} && x.long.rows == {} {
      EmptyRole(x.short, Short, View(s, endpoint, p.short), p, h, previousShort);
      EmptyRole(x.long, Long, View(s, endpoint, p.long), p, h, previousLong);
    } else if r :| r in x.short.rows {
      assert r in Aggregate(x.short.rows, x.long.rows);
    } else {
      var r :| r in x.long.rows;
      assert r in Aggregate(x.short.rows, x.long.rows);
    }
  }

  /** A window may be relied on just when its final effect is ALLOW: when all actions of the long
      window are allowed, both registries are empty and the fuse is armed.  The effect is never
      weaker than any decision in the long window. */
  lemma LoadBearingMeansAllow(x: GeometryWindow, s: Stream, p: Policy, h: Digests, start: nat, endpoint: nat,
    previousShort: seq<int>, previousLong: seq<int>, armed: bool)
    requires s.Valid() && endpoint <= |s.actions| && p.epsilon >= 1
    requires IsWindow(x, s, p, h, start, endpoint, previousShort, previousLong, armed)
    ensures x.verdict.loadBearing <==> x.verdict.effect == Allow
    ensures x.verdict.effect == Allow <==>
      (forall e :: e in x.long.window.effects ==> e == Allow)
      && x.short.rows == {} && x.long.rows == {} && x.verdict.armed
    ensures forall e :: e in x.long.window.effects ==> Rank(x.verdict.effect) <= Rank(e)
    ensures GeometryAllow in x.verdict.reasons <==> x.verdict.effect == Allow
  {
    hide IsStream, IsSensor, Reasons, RoleEffectOf, Decide, GeometryOk, View, Transition, SignalOf, RearmAt, Strictest;
    GeometryOkMeansAllow(x, s, p, h, start, endpoint, previousShort, previousLong, armed);
    SensorIsShaped(x.long, Long, View(s, endpoint, p.long), p, h, previousLong);
    DecideParts(x.short, x.long, RearmAt(s, start, endpoint), armed);
    StrictestMeans(x.long.window.effects);
    FinalIsNeverWeaker(x.verdict.classical, x.verdict.geometry, x.verdict.armed);
    var rows := Aggregate(x.short.rows, x.long.rows);
    OnlyCleanWindowsAreAllowed(x.verdict.classical, KindsOf(rows), true, x.verdict.armed);
    if r :| r in rows {
      assert r.kind in KindsOf(rows);
    }
  }

  /** Whether a row of some kind that denies is listed. */
  ghost predicate ListsDenial(rows: RoleRows, rules: Rules) {
    exists r :: r in rows && Obstructions.Denies(r.kind, rules)
  }

  lemma RoleDenies(x: Sensor, role: Role, w: Window, p: Policy, h: Digests, previous: seq<int>)
    requires IsSensor(x, role, w, p, h, previous) && |w.actions| == |w.effects|
    ensures RoleEffectOf(x.rows) == Deny <==> ListsDenial(x.rows, p.rules)
  {
    var inherited := SensorHasRegistry(x, role, w, p, h, previous);
    hide IsGraph, IsActionGraph, Holonomy.IsHolonomy, IsRegistry, IsRoleRegistry, IsSensor, EffectOf, RoleEffectOf,
      Obstructions.Denies;
    SameVerdict(role, w, x.graph, h, p.rules, SensorReadings(x), inherited, x.curvature, p.forman, x.rows);
    Obstructions.EffectMeans(w, x.graph, h, p.rules, SensorReadings(x), inherited);
    if o :| o in inherited && Obstructions.Denies(o.kind, p.rules) {
      assert Lists(inherited, o.kind);
      assert RoleLists(x.rows, o.kind);
    }
    if r :| r in x.rows && Obstructions.Denies(r.kind, p.rules) {
      assert RoleLists(x.rows, r.kind);
      assert Lists(inherited, r.kind);
    }
  }

  lemma AggregateDenies(short: RoleRows, long: RoleRows)
    ensures RoleEffectOf(Aggregate(short, long)) == Deny <==> RoleEffectOf(short) == Deny || RoleEffectOf(long) == Deny
    ensures RoleEffectOf(Aggregate(short, long)) == Allow <==> short == {} && long == {}
  {
    if r :| r in short {
      assert r in Aggregate(short, long);
    } else if r :| r in long {
      assert r in Aggregate(short, long);
    }
  }

  /** The verdict reason by reason, and when the window is denied. */
  lemma VerdictMeans(x: GeometryWindow, s: Stream, p: Policy, h: Digests, start: nat, endpoint: nat,
    previousShort: seq<int>, previousLong: seq<int>, armed: bool)
    requires s.Valid() && endpoint <= |s.actions|
    requires IsWindow(x, s, p, h, start, endpoint, previousShort, previousLong, armed)
    ensures var v, effects := x.verdict, x.long.window.effects;
      && (Classical(Deny) in v.reasons <==> Deny in effects)
      && (Classical(Review) in v.reasons <==> Deny !in effects && Review in effects)
      && (forall k :: Impossible(k) in v.reasons <==> RoleLists(x.short.rows, k) || RoleLists(x.long.rows, k))
      && CompanionMissing !in v.reasons
      && (Disarmed in v.reasons <==> !v.armed)
      && (v.effect == Deny <==>
        (Deny in effects || ListsDenial(x.short.rows, p.rules) || ListsDenial(x.long.rows, p.rules) || v.reasons == {Disarmed}))
  {
    hide IsStream, IsSensor, Reasons, RoleEffectOf, Decide, GeometryOk, Transition, SignalOf, RearmAt, Strictest, ListsDenial;
    SensorIsShaped(x.short, Short, View(s, endpoint, p.short), p, h, previousShort);
    SensorIsShaped(x.long, Long, View(s, endpoint, p.long), p, h, previousLong);
    RoleDenies(x.short, Short, View(s, endpoint, p.short), p, h, previousShort);
    RoleDenies(x.long, Long, View(s, endpoint, p.long), p, h, previousLong);
    AggregateDenies(x.short.rows, x.long.rows);
    DecideParts(x.short, x.long, RearmAt(s, start, endpoint), armed);
    hide View;
    StrictestMeans(x.long.window.effects);
    ReasonsOfRows(x.verdict, x.short.rows, x.long.rows);
  }

  lemma ReasonsOfRows(v: Verdict, short: RoleRows, long: RoleRows)
    requires v.reasons == Reasons(v.classical, KindsOf(Aggregate(short, long)), true, v.armed)
    requires v.effect == Final(Stricter(v.classical, v.geometry), v.armed)
    requires v.geometry == Allow <==> short == {} && long == {}
    ensures Classical(Deny) in v.reasons <==> v.classical == Deny
    ensures Classical(Review) in v.reasons <==> v.classical == Review
    ensures forall k :: Impossible(k) in v.reasons <==> RoleLists(short, k) || RoleLists(long, k)
    ensures CompanionMissing !in v.reasons && (Disarmed in v.reasons <==> !v.armed)
    ensures v.effect == Deny <==> v.classical == Deny || v.geometry == Deny || v.reasons == {Disarmed}
  {
    hide Reasons, Final, Stricter;
    var kinds := KindsOf(Aggregate(short, long));
    if r :| r in short + long {
      assert r.kind in kinds;
    }
    DenialMeans(v.classical, v.geometry, kinds, v.armed);
    ReasonsMean(v.classical, kinds, true, v.armed, Classical(Deny));
    ReasonsMean(v.classical, kinds, true, v.armed, Classical(Review));
    ReasonsMean(v.classical, kinds, true, v.armed, CompanionMissing);
    ReasonsMean(v.classical, kinds, true, v.armed, Disarmed);
    forall k ensures Impossible(k) in v.reasons <==> RoleLists(short, k) || RoleLists(long, k) {
      ReasonsMean(v.classical, kinds, true, v.armed, Impossible(k));
      assert k in kinds <==> RoleLists(short, k) || RoleLists(long, k);
    }
  }

  lemma SensorEvidenceGrows(x: Sensor, y: Sensor, short: Window, long: Window, offset: nat, p: Policy, h: Digests,
    previousShort: seq<int>, previousLong: seq<int>)
    requires Evidence.IsSuffix(short, long, offset)
    requires IsSensor(x, Short, short, p, h, previousShort) && IsSensor(y, Long, long, p, h, previousLong)
    ensures forall k :: !IsThreshold(k) && RoleLists(x.rows, k) ==> RoleLists(y.rows, k)
  {
    hide IsSensor, IsRegistry, IsRoleRegistry, Holonomy.IsHolonomy, IsGraph, Evidence.IsSuffix, EdgesOf, RoleLists,
      Lists, RoleEffectOf, EffectOf;
    var shortRows := SensorHasRegistry(x, Short, short, p, h, previousShort);
    var longRows := SensorHasRegistry(y, Long, long, p, h, previousLong);
    SameVerdict(Short, short, x.graph, h, p.rules, SensorReadings(x), shortRows, x.curvature, p.forman, x.rows);
    SameVerdict(Long, long, y.graph, h, p.rules, SensorReadings(y), longRows, y.curvature, p.forman, y.rows);
    Evidence.EdgesInSuffix(short, long, offset, h);
    Evidence.HolonomyGrows(x.graph, y.graph, p.epsilon, x.holonomy, y.holonomy);
    Evidence.KindsGrow(short, long, offset, x.graph, y.graph, h, p.rules, SensorReadings(x), SensorReadings(y),
      shortRows, longRows);
  }

  /** Whatever structural obstruction the short window shows, the long window shows one of that kind. */
  lemma ShortEvidenceInLong(x: GeometryWindow, s: Stream, p: Policy, h: Digests, start: nat, endpoint: nat,
    previousShort: seq<int>, previousLong: seq<int>, armed: bool)
    requires s.Valid() && endpoint <= |s.actions| && p.short <= p.long
    requires IsWindow(x, s, p, h, start, endpoint, previousShort, previousLong, armed)
    ensures forall k :: !IsThreshold(k) && RoleLists(x.short.rows, k) ==> RoleLists(x.long.rows, k)
  {
    hide IsStream, IsSensor, Decide, RoleLists;
    var short, long := View(s, endpoint, p.short), View(s, endpoint, p.long);
    var offset := Back(endpoint, p.short) - Back(endpoint, p.long);
    assert Evidence.IsSuffix(short, long, offset);
    SensorEvidenceGrows(x.short, x.long, short, long, offset, p, h, previousShort, previousLong);
  }

  /** So beside the long window, the short one decides by its two thresholds only. */
  lemma ShortAddsThresholds(x: GeometryWindow, s: Stream, p: Policy, h: Digests, start: nat, endpoint: nat,
    previousShort: seq<int>, previousLong: seq<int>, armed: bool)
    requires s.Valid() && endpoint <= |s.actions| && p.short <= p.long && p.epsilon >= 1
    requires IsWindow(x, s, p, h, start, endpoint, previousShort, previousLong, armed)
    ensures RoleEffectOf(Aggregate(x.short.rows, x.long.rows)) == Allow <==>
      x.long.rows == {} && x.short.curvature.ok && x.short.spectral.ok
  {
    hide IsStream;
    GeometryOkMeansAllow(x, s, p, h, start, endpoint, previousShort, previousLong, armed);
    ShortEvidenceInLong(x, s, p, h, start, endpoint, previousShort, previousLong, armed);
    hide IsSensor, View, Decide;
    if x.short.curvature.ok && x.short.spectral.ok {
      forall r | r in x.short.rows ensures x.long.rows != {} {
        assert RoleLists(x.short.rows, r.kind);
        NoThresholdRows(x.short, Short, View(s, endpoint, p.short), p, h, previousShort, r);
        var twin :| twin in x.long.rows && twin.kind == r.kind;
      }
    }
  }

  lemma NoThresholdRows(x: Sensor, role: Role, w: Window, p: Policy, h: Digests, previous: seq<int>, r: RoleObstruction)
    requires IsSensor(x, role, w, p, h, previous) && x.curvature.ok && x.spectral.ok && r in x.rows
    ensures !IsThreshold(r.kind)
  {
    var inherited := SensorHasRegistry(x, role, w, p, h, previous);
    hide IsGraph, IsActionGraph, Holonomy.IsHolonomy, IsRegistry, IsSensor;
  }

  // ---------- every run ----------

  /** What window i of a run was built from. */
  lemma WindowOfRun(s: Stream, p: Policy, h: Digests, receipts: Receipt -> Digest, zero: Digest, endpoints: seq<nat>,
    run: seq<GeometryWindow>, i: nat)
    requires s.Valid() && IsRun(s, p, h, receipts, zero, endpoints, run) && i < |run|
    ensures i < |endpoints| && 1 <= endpoints[i] <= |s.actions|
    ensures IsWindow(run[i], s, p, h, StepStart(endpoints, i), endpoints[i],
      if i == 0 then [] else run[i - 1].short.spectral.spectrum,
      if i == 0 then [] else run[i - 1].long.spectral.spectrum,
      if i == 0 then true else run[i - 1].verdict.armed)
    ensures run[i].long.window == View(s, endpoints[i], p.long) && run[i].long.window.effects != []
  {
    hide IsStream;
    hide IsSensor, View, Decide;
    assert endpoints[i] in endpoints;
    assert Links(s, p, h, receipts, zero, endpoints, run, i);
    SensorIsShaped(run[i].long, Long, View(s, endpoints[i], p.long), p, h,
      if i == 0 then [] else run[i - 1].long.spectral.spectrum);
  }

  /** Each view of window i holds the last actions before the endpoint, as many as its width, and the
      receipt names the range of the long one. */
  lemma ViewsOfRun(s: Stream, p: Policy, h: Digests, receipts: Receipt -> Digest, zero: Digest, endpoints: seq<nat>,
    run: seq<GeometryWindow>, i: nat)
    requires s.Valid() && IsRun(s, p, h, receipts, zero, endpoints, run) && i < |run| && p.short >= 1
    ensures i < |endpoints| && 1 <= endpoints[i] <= |s.actions|
    ensures var stop := endpoints[i];
      var short, long := if stop <= p.short then 0 else stop - p.short, if stop <= p.long then 0 else stop - p.long;
      && 0 <= short < stop && 0 <= long < stop
      && run[i].short.window == Window(s.actions[short..stop], s.effects[short..stop])
      && run[i].long.window == Window(s.actions[long..stop], s.effects[long..stop])
      && run[i].receipt.index == i && run[i].receipt.verdict == run[i].verdict
      && run[i].receipt.firstSequence == s.actions[long].sequence
      && run[i].receipt.lastSequence == s.actions[stop - 1].sequence
      && run[i].receipt.head == s.receipts[stop - 1]
      && run[i].receipt.previous == if i == 0 then zero else receipts(run[i - 1].receipt)
  {
    hide IsRun, View;
    EndpointOfRun(s, p, h, receipts, zero, endpoints, run, i);
    ReceiptOfRun(s, p, h, receipts, zero, endpoints, run, i);
    hide IsStream;
    ViewIs(s, endpoints[i], p.short);
    ViewIs(s, endpoints[i], p.long);
  }

  /** Window i ends at the next multiple of the stride, or with the stream. */
  lemma EndpointOfRun(s: Stream, p: Policy, h: Digests, receipts: Receipt -> Digest, zero: Digest, endpoints: seq<nat>,
    run: seq<GeometryWindow>, i: nat)
    requires s.Valid() && IsRun(s, p, h, receipts, zero, endpoints, run) && i < |run|
    ensures |run| <= |endpoints| && 1 <= endpoints[i] <= |s.actions| && p.long >= 1
    ensures endpoints[i] == if (i + 1) * p.stride <= |s.actions| then (i + 1) * p.stride else |s.actions|
  {
    WindowOfRun(s, p, h, receipts, zero, endpoints, run, i);
    EndpointIs(|s.actions|, p.stride, i);
    hide Links, IsWindow, Endpoints, View, IsStream;
  }

  lemma ReceiptOfRun(s: Stream, p: Policy, h: Digests, receipts: Receipt -> Digest, zero: Digest, endpoints: seq<nat>,
    run: seq<GeometryWindow>, i: nat)
    requires s.Valid() && IsRun(s, p, h, receipts, zero, endpoints, run) && i < |run| <= |endpoints|
    requires 1 <= endpoints[i] <= |s.actions|
    ensures run[i].short.window == View(s, endpoints[i], p.short) && run[i].long.window == View(s, endpoints[i], p.long)
    ensures run[i].long.window.actions != []
    ensures run[i].receipt == ReceiptOf(i, run[i].long.window, Parts(run[i].short, run[i].long), run[i].verdict,
      s.receipts[endpoints[i] - 1], if i == 0 then zero else receipts(run[i - 1].receipt))
  {
    hide IsStream, IsSensor, Decide, Endpoints, View;
    assert Links(s, p, h, receipts, zero, endpoints, run, i);
    SensorIsShaped(run[i].short, Short, View(s, endpoints[i], p.short), p, h,
      if i == 0 then [] else run[i - 1].short.spectral.spectrum);
    SensorIsShaped(run[i].long, Long, View(s, endpoints[i], p.long), p, h,
      if i == 0 then [] else run[i - 1].long.spectral.spectrum);
  }

  lemma ViewIs(s: Stream, endpoint: nat, width: nat)
    requires endpoint <= |s.actions| == |s.effects|
    ensures var start := if endpoint <= width then 0 else endpoint - width;
      View(s, endpoint, width) == Window(s.actions[start..endpoint], s.effects[start..endpoint])
  {
  }

  /** Every number that a curvature report emits is a safe integer. */
  ghost predicate IsSafe(report: Forman.Report) {
    && report.windowL1 <= Json.MAX_SAFE_INTEGER
    && forall i :: 0 <= i < |report.entries| ==>
      && Forman.Abs(report.entries[i].weight) <= Json.MAX_SAFE_INTEGER
      && Forman.Abs(report.entries[i].forman) <= Json.MAX_SAFE_INTEGER
      && Forman.Abs(report.entries[i].quantized) <= Json.MAX_SAFE_INTEGER
  }

  lemma SensorHasCurvature(x: Sensor, role: Role, w: Window, p: Policy, h: Digests, previous: seq<int>)
    requires IsSensor(x, role, w, p, h, previous)
    ensures Forman.IsCurvature(x.graph, p.forman, p.scale, x.curvature) && |x.graph.edges| == |w.actions|
  {
    hide Spectral.IsReading, Holonomy.IsHolonomy, IsRegistry, IsRoleRegistry, Forman.IsCurvature, IsGraph;
  }

  lemma CurvatureIsSafe(g: Graph, p: Policy, report: Forman.Report)
    requires Forman.IsCurvature(g, p.forman, p.scale, report) && IsLegal(p) && |g.edges| <= 32
    ensures IsSafe(report)
  {
    hide Forman.IsCurvature, Forman.IsLegal;
    Forman.SafeIntegers(g, p.forman, p.scale, report);
  }

  lemma SensorIsSafe(x: Sensor, role: Role, w: Window, p: Policy, h: Digests, previous: seq<int>)
    requires IsSensor(x, role, w, p, h, previous) && IsLegal(p) && |w.actions| <= 32
    ensures IsSafe(x.curvature)
  {
    hide Forman.IsLegal, IsSafe;
    SensorHasCurvature(x, role, w, p, h, previous);
    hide IsSensor;
    CurvatureIsSafe(x.graph, p, x.curvature);
  }

  /** In every run under a legal policy, no curvature leaves the range that canonical JSON can write. */
  lemma RunIsSafe(s: Stream, p: Policy, h: Digests, receipts: Receipt -> Digest, zero: Digest, endpoints: seq<nat>,
    run: seq<GeometryWindow>, i: nat)
    requires s.Valid() && IsRun(s, p, h, receipts, zero, endpoints, run) && i < |run| && IsLegal(p)
    ensures IsSafe(run[i].short.curvature) && IsSafe(run[i].long.curvature)
  {
    hide IsStream;
    WindowOfRun(s, p, h, receipts, zero, endpoints, run, i);
    hide IsSensor, IsRun, Decide, RearmAt, IsSafe, Forman.IsLegal;
    var e := endpoints[i];
    PartIsValid(s, Back(e, p.short), e);
    PartIsValid(s, Back(e, p.long), e);
    SensorIsSafe(run[i].short, Short, View(s, e, p.short), p, h, if i == 0 then [] else run[i - 1].short.spectral.spectrum);
    SensorIsSafe(run[i].long, Long, View(s, e, p.long), p, h, if i == 0 then [] else run[i - 1].long.spectral.spectrum);
  }

  /** Whether the step of window i begins with an allowed rearm. */
  predicate RearmOf(s: Stream, endpoints: seq<nat>, i: nat)
    requires |s.actions| == |s.effects| && i < |endpoints| && endpoints[i] <= |s.actions|
  {
    var start := StepStart(endpoints, i);
    && start < endpoints[i]
    && s.actions[start].service == "system" && s.actions[start].operation == "rearm"
    && s.actions[start].target == "shadow-guard" && s.effects[start] == Allow
  }

  lemma RearmMeans(s: Stream, endpoints: seq<nat>, i: nat)
    requires |s.actions| == |s.effects| && i < |endpoints| && endpoints[i] <= |s.actions|
    ensures RearmAt(s, StepStart(endpoints, i), endpoints[i]) == RearmOf(s, endpoints, i)
  {
  }

  /** A window of a run together with its rearm bit. */
  datatype Stride = Stride(window: GeometryWindow, rearm: bool)

  ghost predicate IsStepped(s: Stream, endpoints: seq<nat>, run: seq<GeometryWindow>, steps: seq<Stride>)
    requires |s.actions| == |s.effects| && |run| <= |endpoints|
  {
    && |steps| == |run|
    && forall i :: 0 <= i < |run| ==>
      && endpoints[i] <= |s.actions| && run[i].long.window.effects != []
      && steps[i] == Stride(run[i], RearmOf(s, endpoints, i))
  }

  /** The windows of a run, each with its rearm bit. */
  function Strides(s: Stream, endpoints: seq<nat>, run: seq<GeometryWindow>): (steps: seq<Stride>)
    requires |s.actions| == |s.effects| && |run| <= |endpoints|
    requires forall i :: 0 <= i < |run| ==> endpoints[i] <= |s.actions|
    ensures |steps| == |run| && forall i :: 0 <= i < |run| ==> steps[i] == Stride(run[i], RearmOf(s, endpoints, i))
  {
    seq(|run|, i requires 0 <= i < |run| => Stride(run[i], RearmOf(s, endpoints, i)))
  }

  lemma RunIsStepped(s: Stream, p: Policy, h: Digests, receipts: Receipt -> Digest, zero: Digest, endpoints: seq<nat>,
    run: seq<GeometryWindow>)
    requires s.Valid() && IsRun(s, p, h, receipts, zero, endpoints, run)
    ensures forall i :: 0 <= i < |run| ==> endpoints[i] <= |s.actions|
    ensures IsStepped(s, endpoints, run, Strides(s, endpoints, run))
  {
    hide IsStream;
    hide IsWindow, RearmOf, View, Links;
    forall i | 0 <= i < |run| ensures endpoints[i] <= |s.actions| && run[i].long.window.effects != [] {
      WindowOfRun(s, p, h, receipts, zero, endpoints, run, i);
    }
  }

  function StepSignal(step: Stride): Signal
    requires step.window.long.window.effects != []
  {
    SignalOf(step.window.short, step.window.long, 0, step.rearm)
  }

  function Signals(steps: seq<Stride>): (signals: seq<Signal>)
    requires forall i :: 0 <= i < |steps| ==> steps[i].window.long.window.effects != []
    ensures |signals| == |steps| && forall i :: 0 <= i < |steps| ==> signals[i] == StepSignal(steps[i])
  {
    seq(|steps|, i requires 0 <= i < |steps| => StepSignal(steps[i]))
  }

  lemma ArmedStep(s: Stream, p: Policy, h: Digests, receipts: Receipt -> Digest, zero: Digest,
    endpoints: seq<nat>, run: seq<GeometryWindow>, steps: seq<Stride>, i: nat)
    requires s.Valid() && IsRun(s, p, h, receipts, zero, endpoints, run) && i < |run|
    requires IsStepped(s, endpoints, run, steps)
    ensures steps[i].window.long.window.effects != []
    ensures run[i].verdict.armed
         == Transition(if i == 0 then true else run[i - 1].verdict.armed, StepSignal(steps[i]))
  {
    hide IsStream, IsSensor, IsRun, View, Decide, SignalOf, RearmAt, RearmOf, Transition, GeometryOk;
    WindowOfRun(s, p, h, receipts, zero, endpoints, run, i);
    RearmMeans(s, endpoints, i);
    DecideParts(run[i].short, run[i].long, RearmOf(s, endpoints, i), if i == 0 then true else run[i - 1].verdict.armed);
  }

  lemma {:induction false} ArmedIsFuse(s: Stream, p: Policy, h: Digests, receipts: Receipt -> Digest, zero: Digest,
    endpoints: seq<nat>, run: seq<GeometryWindow>, steps: seq<Stride>, i: nat)
    requires s.Valid() && IsRun(s, p, h, receipts, zero, endpoints, run) && i < |run|
    requires IsStepped(s, endpoints, run, steps)
    ensures run[i].verdict.armed == ArmedAfter(Signals(steps)[..i + 1])
  {
    hide IsStream, IsRun, StepSignal, Transition, RearmOf;
    ArmedStep(s, p, h, receipts, zero, endpoints, run, steps, i);
    var signals := Signals(steps);
    assert signals[..i + 1][..i] == signals[..i];
    if i > 0 {
      ArmedIsFuse(s, p, h, receipts, zero, endpoints, run, steps, i - 1);
    }
  }

  /** Some action of the long window is denied, or some registry is not empty. */
  predicate Trips(x: Stride) {
    Deny in x.window.long.window.effects || x.window.short.rows != {} || x.window.long.rows != {}
  }

  /** The step begins with an allowed rearm, the whole long window is allowed, and both registries
      are empty. */
  predicate Rearms(x: Stride) {
    x.rearm && (forall e :: e in x.window.long.window.effects ==> e == Allow)
      && x.window.short.rows == {} && x.window.long.rows == {}
  }

  lemma SignalMeans(x: Stride)
    requires x.window.long.window.effects != []
    requires GeometryOk(x.window.short, x.window.long, 0) <==> x.window.short.rows == {} && x.window.long.rows == {}
    requires GeometryOk(x.window.short, x.window.long, 0) <==>
      RoleEffectOf(Aggregate(x.window.short.rows, x.window.long.rows)) == Allow
    ensures StepSignal(x).trip == Trips(x)
    ensures StepSignal(x).rearm && StepSignal(x).revalidated <==> Rearms(x)
  {
    hide GeometryOk, RoleEffectOf;
    var classical := Strictest(x.window.long.window.effects);
    forall e | e in x.window.long.window.effects ensures Rank(classical) <= Rank(e) {
    }
  }

  lemma FuseOverSteps(s: Stream, p: Policy, h: Digests, receipts: Receipt -> Digest, zero: Digest,
    endpoints: seq<nat>, run: seq<GeometryWindow>, steps: seq<Stride>, i: nat)
    requires s.Valid() && IsRun(s, p, h, receipts, zero, endpoints, run) && i < |run| && p.epsilon >= 1
    requires IsStepped(s, endpoints, run, steps)
    ensures run[i].verdict.armed <==>
      (QuietBetween(steps, Trips, 0, i) || exists j :: 0 <= j <= i && Rearms(steps[j]) && QuietBetween(steps, Trips, j, i))
  {
    hide IsStream;
    hide IsRun, IsWindow, View, SignalOf, QuietBetween, Trips, Rearms, GeometryOk, RoleEffectOf, StepSignal, RearmOf;
    ArmedIsFuse(s, p, h, receipts, zero, endpoints, run, steps, i);
    forall k | 0 <= k < |run|
      ensures StepSignal(steps[k]).trip == Trips(steps[k])
      ensures StepSignal(steps[k]).rearm && StepSignal(steps[k]).revalidated <==> Rearms(steps[k])
    {
      WindowOfRun(s, p, h, receipts, zero, endpoints, run, k);
      GeometryOkMeansAllow(run[k], s, p, h, StepStart(endpoints, k), endpoints[k],
        if k == 0 then [] else run[k - 1].short.spectral.spectrum,
        if k == 0 then [] else run[k - 1].long.spectral.spectrum,
        if k == 0 then true else run[k - 1].verdict.armed);
      SignalMeans(steps[k]);
    }
    FuseMeaning(Signals(steps), steps, Trips, Rearms, i);
  }

  /** In every run and after every window, the fuse is armed just when no window so far has tripped
      it, or some window after the last trip begins with an allowed rearm while the whole long
      window and both registries are clean. */
  lemma FuseOverRuns(s: Stream, p: Policy, h: Digests, receipts: Receipt -> Digest, zero: Digest,
    endpoints: seq<nat>, run: seq<GeometryWindow>, i: nat)
    requires s.Valid() && IsRun(s, p, h, receipts, zero, endpoints, run) && i < |run| && p.epsilon >= 1
    ensures forall i :: 0 <= i < |run| ==> endpoints[i] <= |s.actions|
    ensures var steps := Strides(s, endpoints, run);
      run[i].verdict.armed <==>
        QuietBetween(steps, Trips, 0, i) || exists j :: 0 <= j <= i && Rearms(steps[j]) && QuietBetween(steps, Trips, j, i)
  {
    hide IsStream;
    RunIsStepped(s, p, h, receipts, zero, endpoints, run);
    hide Strides, IsWindow, View, QuietBetween, Trips, Rearms, RearmOf;
    FuseOverSteps(s, p, h, receipts, zero, endpoints, run, Strides(s, endpoints, run), i);
  }

  /** A window that the classical policy merely reviews leaves the fuse as it was. */
  lemma ReviewLeavesFuse(x: GeometryWindow, s: Stream, p: Policy, h: Digests, start: nat, endpoint: nat,
    previousShort: seq<int>, previousLong: seq<int>, armed: bool)
    requires s.Valid() && endpoint <= |s.actions| && p.epsilon >= 1
    requires IsWindow(x, s, p, h, start, endpoint, previousShort, previousLong, armed)
    requires x.verdict.classical == Review && x.verdict.geometry == Allow
    ensures x.verdict.armed == armed && x.verdict.effect == Review
  {
    hide IsStream;
    GeometryOkMeansAllow(x, s, p, h, start, endpoint, previousShort, previousLong, armed);
    SensorIsShaped(x.long, Long, View(s, endpoint, p.long), p, h, previousLong);
    DecideParts(x.short, x.long, RearmAt(s, start, endpoint), armed);
    hide IsSensor, GeometryOk, RoleEffectOf, Reasons, Decide, View, RearmAt;
  }

  /** Denials persist: as long as a denied action is in the long window, every window is denied and
      its fuse is down, whatever rearms there are; and there is at least one such window. */
  lemma DenialPersists(s: Stream, p: Policy, h: Digests, receipts: Receipt -> Digest, zero: Digest,
    endpoints: seq<nat>, run: seq<GeometryWindow>, k: nat)
    requires s.Valid() && IsRun(s, p, h, receipts, zero, endpoints, run) && |run| == |endpoints|
    requires IsLegal(p) && k < |s.actions| && s.effects[k] == Deny
    ensures forall i :: 0 <= i < |run| && k < endpoints[i] <= k + p.long ==>
      run[i].verdict.effect == Deny && !run[i].verdict.armed && !run[i].verdict.loadBearing
    ensures exists i :: 0 <= i < |run| && k < endpoints[i] <= k + p.long
  {
    hide IsStream;
    forall i | 0 <= i < |run| && k < endpoints[i] <= k + p.long
      ensures run[i].verdict.effect == Deny && !run[i].verdict.armed && !run[i].verdict.loadBearing
    {
      hide IsSensor, IsRun;
      WindowOfRun(s, p, h, receipts, zero, endpoints, run, i);
      DeniedWindow(run[i], s, p, h, StepStart(endpoints, i), endpoints[i],
        if i == 0 then [] else run[i - 1].short.spectral.spectrum,
        if i == 0 then [] else run[i - 1].long.spectral.spectrum,
        if i == 0 then true else run[i - 1].verdict.armed, k);
    }
    var i := FirstEndpointAfter(|s.actions|, p.stride, k);
    assert k < endpoints[i] <= k + p.long;
  }

  lemma DeniedWindow(x: GeometryWindow, s: Stream, p: Policy, h: Digests, start: nat, endpoint: nat,
    previousShort: seq<int>, previousLong: seq<int>, armed: bool, k: nat)
    requires s.Valid() && k < endpoint <= |s.actions| && endpoint <= k + p.long && s.effects[k] == Deny
    requires IsWindow(x, s, p, h, start, endpoint, previousShort, previousLong, armed)
    ensures x.verdict.effect == Deny && !x.verdict.armed && !x.verdict.loadBearing
  {
    hide IsStream, IsSensor, GeometryOk, RoleEffectOf, Reasons, RearmAt, Decide, Strictest;
    SensorIsShaped(x.long, Long, View(s, endpoint, p.long), p, h, previousLong);
    DecideParts(x.short, x.long, RearmAt(s, start, endpoint), armed);
    var effects := x.long.window.effects;
    assert effects[k - Back(endpoint, p.long)] == Deny;
    StrictestMeans(effects);
  }

  // ---------- the receipts ----------

  function Log(run: seq<GeometryWindow>): (log: seq<Receipt>)
    ensures |log| == |run| && forall i :: 0 <= i < |run| ==> log[i] == run[i].receipt
  {
    seq(|run|, i requires 0 <= i < |run| => run[i].receipt)
  }

  /** The receipts of a run form a log. */
  lemma RunReceiptsChain(s: Stream, p: Policy, h: Digests, receipts: Receipt -> Digest, zero: Digest,
    endpoints: seq<nat>, run: seq<GeometryWindow>)
    requires s.Valid() && IsRun(s, p, h, receipts, zero, endpoints, run)
    ensures IsLog(Log(run), receipts, zero)
  {
    hide IsStream;
    hide IsWindow, AreEndpoints, View;
    EndpointFacts(s, p, endpoints);
    forall i | 0 <= i < |run|
      ensures run[i].receipt.index == i && run[i].receipt.previous == Before(Log(run), receipts, zero, i)
    {
      assert Links(s, p, h, receipts, zero, endpoints, run, i);
    }
  }

  /** The receipts commit to the windows they stand in. */
  ghost predicate IsCommitted(run: seq<GeometryWindow>) {
    forall i :: 0 <= i < |run| ==> run[i].receipt.parts == Parts(run[i].short, run[i].long) && run[i].receipt.verdict == run[i].verdict
  }

  lemma SameRuns(run: seq<GeometryWindow>, other: seq<GeometryWindow>)
    requires IsCommitted(run) && IsCommitted(other) && Log(run) == Log(other)
    ensures run == other
  {
    assert |run| == |Log(run)| == |other|;
    forall i | 0 <= i < |run| ensures run[i] == other[i] {
      assert Log(run)[i] == run[i].receipt && Log(other)[i] == other[i].receipt;
    }
  }

  /** Two runs with the same last receipt are the same run, window by window: both sensors of each,
      verdict and receipt. */
  lemma HeadFixesRun(s: Stream, p: Policy, endpoints: seq<nat>, run: seq<GeometryWindow>,
    t: Stream, q: Policy, others: seq<nat>, other: seq<GeometryWindow>, h: Digests, receipts: Receipt -> Digest, zero: Digest)
    requires s.Valid() && IsRun(s, p, h, receipts, zero, endpoints, run)
    requires t.Valid() && IsRun(t, q, h, receipts, zero, others, other)
    requires run != [] && other != [] && DoNotCollide(receipts, Log(run), Log(other))
    requires receipts(run[|run| - 1].receipt) == receipts(other[|other| - 1].receipt)
    ensures run == other
  {
    hide IsStream, IsRun, Log, IsLog, IsCommitted;
    RunReceiptsChain(s, p, h, receipts, zero, endpoints, run);
    RunReceiptsChain(t, q, h, receipts, zero, others, other);
    LogEnds(run);
    LogEnds(other);
    HeadFixesLog(Log(run), Log(other), receipts, zero);
    RunIsCommitted(s, p, h, receipts, zero, endpoints, run);
    RunIsCommitted(t, q, h, receipts, zero, others, other);
    SameRuns(run, other);
  }

  lemma LogEnds(run: seq<GeometryWindow>)
    requires run != []
    ensures Log(run) != [] && Log(run)[|Log(run)| - 1] == run[|run| - 1].receipt
  {
  }

  lemma RunIsCommitted(s: Stream, p: Policy, h: Digests, receipts: Receipt -> Digest, zero: Digest, endpoints: seq<nat>,
    run: seq<GeometryWindow>)
    requires s.Valid() && IsRun(s, p, h, receipts, zero, endpoints, run)
    ensures IsCommitted(run)
  {
    hide IsStream;
    hide IsWindow, AreEndpoints, View;
    EndpointFacts(s, p, endpoints);
    forall i | 0 <= i < |run|
      ensures run[i].receipt.parts == Parts(run[i].short, run[i].long) && run[i].receipt.verdict == run[i].verdict
    {
      assert Links(s, p, h, receipts, zero, endpoints, run, i);
    }
  }

  /** Every window of the run may be relied on. */
  ghost predicate AllLoadBearing(run: seq<GeometryWindow>) {
    forall i :: 0 <= i < |run| ==> run[i].verdict.loadBearing
  }

  lemma LoadBearingInRun(s: Stream, p: Policy, h: Digests, receipts: Receipt -> Digest, zero: Digest, endpoints: seq<nat>,
    run: seq<GeometryWindow>, i: nat)
    requires s.Valid() && p.epsilon >= 1 && IsRun(s, p, h, receipts, zero, endpoints, run) && i < |run|
    ensures i < |endpoints| && endpoints[i] <= |s.actions|
    ensures run[i].verdict.loadBearing <==> run[i].verdict.effect == Allow
    ensures run[i].verdict.effect == Allow ==> forall e :: e in View(s, endpoints[i], p.long).effects ==> e == Allow
  {
    hide IsStream;
    hide IsRun, IsWindow, View;
    WindowOfRun(s, p, h, receipts, zero, endpoints, run, i);
    LoadBearingMeansAllow(run[i], s, p, h, StepStart(endpoints, i), endpoints[i],
      if i == 0 then [] else run[i - 1].short.spectral.spectrum,
      if i == 0 then [] else run[i - 1].long.spectral.spectrum,
      if i == 0 then true else run[i - 1].verdict.armed);
  }

  /** In a whole run all windows may be relied on just when all of them are allowed; then every single
      action is, as each lies in the long part of some window. */
  lemma RunIsAllowed(s: Stream, p: Policy, h: Digests, receipts: Receipt -> Digest, zero: Digest, run: seq<GeometryWindow>)
    requires s.Valid() && IsLegal(p) && IsRun(s, p, h, receipts, zero, Endpoints(|s.actions|, p.stride), run)
    requires |run| == |Endpoints(|s.actions|, p.stride)|
    ensures AllLoadBearing(run) <==> forall i :: 0 <= i < |run| ==> run[i].verdict.effect == Allow
    ensures AllLoadBearing(run) ==> forall k :: 0 <= k < |s.effects| ==> s.effects[k] == Allow
  {
    hide IsStream;
    hide IsRun, View, Endpoints, Forman.IsLegal;
    var endpoints := Endpoints(|s.actions|, p.stride);
    forall i | 0 <= i < |run| ensures run[i].verdict.loadBearing <==> run[i].verdict.effect == Allow {
      LoadBearingInRun(s, p, h, receipts, zero, endpoints, run, i);
    }
    if AllLoadBearing(run) {
      forall k | 0 <= k < |s.effects| ensures s.effects[k] == Allow {
        EveryActionIsCovered(|s.actions|, p.stride, p.short, p.long, k);
        var i :| 0 <= i < |endpoints| && IsNewIn(endpoints, i, k) && Back(endpoints[i], p.long) <= k;
        LoadBearingInRun(s, p, h, receipts, zero, endpoints, run, i);
        ViewHolds(s, endpoints[i], p.long, k);
      }
    }
  }

  lemma ViewHolds(s: Stream, endpoint: nat, width: nat, k: nat)
    requires endpoint <= |s.actions| == |s.effects| && Back(endpoint, width) <= k < endpoint
    ensures s.effects[k] in View(s, endpoint, width).effects
  {
    var start := Back(endpoint, width);
    assert s.effects[start..endpoint][k - start] == s.effects[k];
  }
}
