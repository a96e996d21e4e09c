/** The registry of impossible configurations (`build_registry` in geometry.py, `_role_registry` and
    `_aggregate_registry` in geometry_profile_v2_sensors.py).

    An obstruction is named by the digest of its core; here it is its core, so the dictionary of
    obstructions by digest is a set. */
module Registry {
  import opened Graphs
  import opened Outcomes
  import opened Effects
  import opened Actions
  import Holonomy
  import FC = ForbiddenCycles

  datatype Mode = Discharge | GapLift

  datatype Kind = PrivilegePenroseLoop | ForbiddenPolicyCycle | EgressStaircase | TridentTaintFork
    | CrateLogOcclusion | IpcCardinalityInvalid | FormanThresholdTrip | SpectralDeltaTrip

  datatype Obstruction = Obstruction(kind: Kind, residual: int, mode: Mode, edges: set<Digest>)

  type Rows = set<Obstruction>

  /** The parts of the policy that the registry consults. */
  datatype Rules = Rules(requireDeltaP: bool, forbidCycles: seq<seq<string>>, maxIpcSlots: nat)

  /** What the sensors of the window found. */
  datatype Readings = Readings(residuals: seq<Holonomy.Residual>, curvatureOk: bool, trips: set<Digest>,
    spectralOk: bool, l2Delta: nat)

  /** A window: its actions and, one for each, the effects of the classical decisions. */
  datatype Window = Window(actions: seq<Action>, effects: seq<Effect>) {
    ghost predicate Valid() {
      IsStream(actions) && |effects| == |actions|
    }
  }

  // ---------- what each kind of obstruction means ----------

  ghost predicate IsPenrose(residuals: seq<Holonomy.Residual>, rules: Rules, o: Obstruction) {
    exists r :: r in residuals && o == PenroseOf(r, rules)
  }

  function PenroseOf(r: Holonomy.Residual, rules: Rules): Obstruction {
    Obstruction(PrivilegePenroseLoop, r.weight, if rules.requireDeltaP then Discharge else GapLift, {r.edge})
  }

  ghost predicate IsForbiddenCycle(edges: seq<Edge>, patterns: seq<seq<string>>, o: Obstruction) {
    exists p, m :: p in patterns && FC.IsReportedCycle(edges, p, m) && o == CycleOf(p, m)
  }

  function CycleOf(pattern: seq<string>, m: seq<Digest>): Obstruction {
    Obstruction(ForbiddenPolicyCycle, |pattern|, Discharge, set d | d in m)
  }

  predicate IsRead(a: Action) {
    a.service == "file" && a.operation == "read"
  }

  predicate IsEgress(a: Action) {
    (a.service, a.operation) in {("network", "connect"), ("network", "send"), ("network", "upload")}
  }

  /** A file read, and later traffic out by the same agent. */
  predicate Climbs(actions: seq<Action>, i: nat, j: nat)
    requires j < |actions|
  {
    i < j && IsRead(actions[i]) && IsEgress(actions[j]) && actions[j].producer.agentId == actions[i].producer.agentId
  }

  function StaircaseOf(left: Action, right: Action, h: Digests): Obstruction {
    Obstruction(EgressStaircase, right.sequence - left.sequence, GapLift, {EdgeOf(left, h).id, EdgeOf(right, h).id})
  }

  ghost predicate IsStaircase(actions: seq<Action>, h: Digests, o: Obstruction) {
    exists i: nat, j: nat :: j < |actions| && Climbs(actions, i, j) && o == StaircaseOf(actions[i], actions[j], h)
  }

  /** The edges of one actor, in order. */
  function EdgesBy(actions: seq<Action>, h: Digests, actor: Producer): seq<Edge> {
    if actions == [] then []
    else
      var k := |actions| - 1;
      EdgesBy(actions[..k], h, actor) + if actions[k].producer == actor then [EdgeOf(actions[k], h)] else []
  }

  function Targets(edges: seq<Edge>): set<Digest> {
    set e | e in edges :: e.target
  }

  function MasksOf(edges: seq<Edge>): set<Mask> {
    set e | e in edges :: e.mask
  }

  /** External reading, workspace writing and network authority over three targets or more. */
  predicate IsFork(edges: seq<Edge>) {
    {1, 2, 4} <= MasksOf(edges) && |Targets(edges)| >= 3
  }

  function ForkOf(edges: seq<Edge>): Obstruction {
    Obstruction(TridentTaintFork, |Targets(edges)|, GapLift, set e | e in edges :: e.id)
  }

  ghost predicate IsTrident(actions: seq<Action>, h: Digests, o: Obstruction) {
    exists actor :: IsFork(EdgesBy(actions, h, actor)) && o == ForkOf(EdgesBy(actions, h, actor))
  }

  /** Something that is not denied touches the target. */
  predicate Touches(w: Window, i: nat, target: string)
    requires i < |w.actions| == |w.effects|
  {
    w.actions[i].target == target && w.effects[i] != Deny
  }

  /** A denied action on a target that is touched both before and after. */
  ghost predicate IsHidden(w: Window, i: nat)
    requires i < |w.actions| == |w.effects|
  {
    && w.effects[i] == Deny
    && (exists b :: 0 <= b < i && Touches(w, b, w.actions[i].target))
    && (exists a :: i < a < |w.actions| && Touches(w, a, w.actions[i].target))
  }

  function OcclusionOf(a: Action, h: Digests): Obstruction {
    Obstruction(CrateLogOcclusion, 1, Discharge, {EdgeOf(a, h).id})
  }

  ghost predicate IsOcclusion(w: Window, h: Digests, o: Obstruction)
    requires |w.actions| == |w.effects|
  {
    exists i :: 0 <= i < |w.actions| && IsHidden(w, i) && o == OcclusionOf(w.actions[i], h)
  }

  predicate IsBadSlot(a: Action, maximum: nat) {
    a.service == "ipc" && (a.slot == None || a.slot.value >= maximum)
  }

  function BadSlotOf(a: Action, h: Digests): Obstruction {
    Obstruction(IpcCardinalityInvalid, 1, Discharge, {EdgeOf(a, h).id})
  }

  ghost predicate IsIpcInvalid(actions: seq<Action>, h: Digests, maximum: nat, o: Obstruction) {
    exists i :: 0 <= i < |actions| && IsBadSlot(actions[i], maximum) && o == BadSlotOf(actions[i], h)
  }

  function FormanTripOf(readings: Readings): Obstruction {
    Obstruction(FormanThresholdTrip, |readings.trips|, Discharge, readings.trips)
  }

  function SpectralTripOf(readings: Readings, edges: seq<Edge>): Obstruction {
    Obstruction(SpectralDeltaTrip, readings.l2Delta, Discharge, set e | e in edges :: e.id)
  }

  /** Everything the registry lists, said without the loops that find it. */
  ghost predicate IsObstruction(w: Window, g: Graph, h: Digests, rules: Rules, readings: Readings, o: Obstruction)
    requires |w.actions| == |w.effects|
  {
    match o.kind
    case PrivilegePenroseLoop => IsPenrose(readings.residuals, rules, o)
    case ForbiddenPolicyCycle => IsForbiddenCycle(g.edges, rules.forbidCycles, o)
    case EgressStaircase => IsStaircase(w.actions, h, o)
    case TridentTaintFork => IsTrident(w.actions, h, o)
    case CrateLogOcclusion => IsOcclusion(w, h, o)
    case IpcCardinalityInvalid => IsIpcInvalid(w.actions, h, rules.maxIpcSlots, o)
    case FormanThresholdTrip => !readings.curvatureOk && o == FormanTripOf(readings)
    case SpectralDeltaTrip => !readings.spectralOk && o == SpectralTripOf(readings, g.edges)
  }

  // ---------- the sections of build_registry ----------

  method PenroseRows(residuals: seq<Holonomy.Residual>, rules: Rules) returns (rows: Rows)
    ensures forall o :: o in rows <==> IsPenrose(residuals, rules, o)
  {
    rows := {};
    for index := 0 to |residuals|
      invariant forall o :: o in rows <==> exists k :: 0 <= k < index && o == PenroseOf(residuals[k], rules)
    {
      rows := rows + {PenroseOf(residuals[index], rules)};
    }
  }

  /** The search for the pattern stays within the step bound. */
  ghost predicate Finishes(g: Graph, pattern: seq<string>) {
    exists adjacency :: FC.IsAdjacency(g.edges, adjacency)
      && FC.TotalVisits(adjacency, pattern, g.vertices) <= FC.MAX_CYCLE_SEARCH_STEPS
  }

  ghost predicate Overruns(g: Graph, pattern: seq<string>) {
    exists adjacency :: FC.IsAdjacency(g.edges, adjacency)
      && FC.TotalVisits(adjacency, pattern, g.vertices) > FC.MAX_CYCLE_SEARCH_STEPS
  }

  ghost predicate CyclesUpTo(edges: seq<Edge>, patterns: seq<seq<string>>, n: nat, o: Obstruction)
    requires n <= |patterns|
  {
    exists k, m :: 0 <= k < n && FC.IsReportedCycle(edges, patterns[k], m) && o == CycleOf(patterns[k], m)
  }

  lemma OneMorePattern(edges: seq<Edge>, patterns: seq<seq<string>>, n: nat, found: seq<seq<Digest>>, more: Rows)
    requires n < |patterns| && forall m :: m in found <==> FC.IsReportedCycle(edges, patterns[n], m)
    requires more == set m | m in found :: CycleOf(patterns[n], m)
    ensures forall o :: CyclesUpTo(edges, patterns, n + 1, o) <==> CyclesUpTo(edges, patterns, n, o) || o in more
  {
    hide FC.IsReportedCycle, CycleOf;
    forall o | CyclesUpTo(edges, patterns, n, o) || o in more ensures CyclesUpTo(edges, patterns, n + 1, o) {
      if o in more {
        var m :| m in found && o == CycleOf(patterns[n], m);
        assert FC.IsReportedCycle(edges, patterns[n], m);
      } else {
        var k, m :| 0 <= k < n && FC.IsReportedCycle(edges, patterns[k], m) && o == CycleOf(patterns[k], m);
      }
    }
    forall o | CyclesUpTo(edges, patterns, n + 1, o) ensures CyclesUpTo(edges, patterns, n, o) || o in more {
      var k, m :| 0 <= k < n + 1 && FC.IsReportedCycle(edges, patterns[k], m) && o == CycleOf(patterns[k], m);
    }
  }

  method CycleRows(g: Graph, patterns: seq<seq<string>>) returns (result: Result<Rows>)
    requires IsGraph(g) && forall p :: p in patterns ==> |p| >= 1
    ensures result.Success? ==> forall o :: o in result.value <==> IsForbiddenCycle(g.edges, patterns, o)
    ensures result.Success? ==> forall p :: p in patterns ==> Finishes(g, p)
    ensures result.Failure? ==> result.error == CycleSearchLimit && exists p :: p in patterns && Overruns(g, p)
  {
    hide FC.IsReportedCycle, FC.IsAdjacency, FC.TotalVisits, CycleOf, CyclesUpTo, IsGraph;
    var rows: Rows := {};
    NoPatterns(g.edges, patterns);
    for index := 0 to |patterns|
      invariant forall o :: o in rows <==> CyclesUpTo(g.edges, patterns, index, o)
      invariant forall k :: 0 <= k < index ==> Finishes(g, patterns[k])
    {
      var pattern := patterns[index];
      var found, adjacency := FC.MatchingCycles(g, pattern);
      if found.Failure? {
        assert Overruns(g, pattern);
        return Failure(found.error);
      }
      assert Finishes(g, pattern);
      var more := set m | m in found.value :: CycleOf(pattern, m);
      OneMorePattern(g.edges, patterns, index, found.value, more);
      rows := rows + more;
    }
    AllPatterns(g.edges, patterns);
    result := Success(rows);
  }

  lemma NoPatterns(edges: seq<Edge>, patterns: seq<seq<string>>)
    ensures forall o :: !CyclesUpTo(edges, patterns, 0, o)
  {
  }

  lemma AllPatterns(edges: seq<Edge>, patterns: seq<seq<string>>)
    ensures forall o :: CyclesUpTo(edges, patterns, |patterns|, o) <==> IsForbiddenCycle(edges, patterns, o)
  {
    hide FC.IsReportedCycle, CycleOf;
    forall o | IsForbiddenCycle(edges, patterns, o) ensures CyclesUpTo(edges, patterns, |patterns|, o) {
      var p, m :| p in patterns && FC.IsReportedCycle(edges, p, m) && o == CycleOf(p, m);
      var k :| 0 <= k < |patterns| && patterns[k] == p;
    }
  }

  /** `edge_by_action`: the edges by the identifier of their action. */
  method IndexEdges(g: Graph, actions: seq<Action>, h: Digests) returns (byAction: map<string, Edge>)
    requires IsActionGraph(g, actions, h) && IsStream(actions)
    ensures forall a :: a in actions ==> a.actionId in byAction && byAction[a.actionId] == EdgeOf(a, h)
  {
    hide EdgeOf;
    byAction := map[];
    for index := 0 to |g.edges|
      invariant forall k :: 0 <= k < index ==>
        actions[k].actionId in byAction && byAction[actions[k].actionId] == EdgeOf(actions[k], h)
    {
      var edge := g.edges[index];
      EdgeNamesAction(actions[index], h);
      byAction := byAction[edge.action := edge];
    }
  }

  lemma EdgeNamesAction(a: Action, h: Digests)
    ensures EdgeOf(a, h).action == a.actionId
  {
  }

  method StaircaseRows(actions: seq<Action>, h: Digests, byAction: map<string, Edge>) returns (rows: Rows)
    requires forall a :: a in actions ==> a.actionId in byAction && byAction[a.actionId] == EdgeOf(a, h)
    ensures forall o :: o in rows <==> IsStaircase(actions, h, o)
  {
    hide EdgeOf, Climbs, StaircaseOf;
    rows := {};
    for left := 0 to |actions|
      invariant forall o :: o in rows <==> StairsBefore(actions, h, left, 0, o)
    {
      StairsRow(actions, h, left);
      if IsRead(actions[left]) {
        StairsShort(actions, h, left);
        for right := left + 1 to |actions|
          invariant forall o :: o in rows <==> StairsBefore(actions, h, left, right, o)
        {
          StairsStep(actions, h, left, right);
          if IsEgress(actions[right]) && actions[right].producer.agentId == actions[left].producer.agentId {
            StairOf(actions, h, byAction, left, right);
            rows := rows + {Obstruction(EgressStaircase, actions[right].sequence - actions[left].sequence, GapLift,
              {byAction[actions[left].actionId].id, byAction[actions[right].actionId].id})};
          }
        }
      }
    }
    StairsAll(actions, h);
  }

  /** Staircases from the first `left` actions, and from the next one up to below `right`. */
  ghost predicate StairsBefore(actions: seq<Action>, h: Digests, left: nat, right: nat, o: Obstruction) {
    exists i: nat, j: nat :: j < |actions| && (i < left || (i == left && j < right))
      && Climbs(actions, i, j) && o == StaircaseOf(actions[i], actions[j], h)
  }

  lemma StairsShort(actions: seq<Action>, h: Digests, left: nat)
    requires left < |actions|
    ensures forall o :: StairsBefore(actions, h, left, left + 1, o) <==> StairsBefore(actions, h, left, 0, o)
  {
    hide StaircaseOf;
  }

  lemma StairsRow(actions: seq<Action>, h: Digests, left: nat)
    requires left < |actions|
    ensures forall o :: StairsBefore(actions, h, left + 1, 0, o) <==>
      StairsBefore(actions, h, left, |actions|, o)
    ensures !IsRead(actions[left]) ==>
      forall o :: StairsBefore(actions, h, left + 1, 0, o) <==> StairsBefore(actions, h, left, 0, o)
  {
    hide StaircaseOf, IsRead, IsEgress;
  }

  lemma StairsStep(actions: seq<Action>, h: Digests, left: nat, right: nat)
    requires left < right < |actions|
    ensures forall o :: StairsBefore(actions, h, left, right + 1, o) <==>
      (StairsBefore(actions, h, left, right, o)
      || (Climbs(actions, left, right) && o == StaircaseOf(actions[left], actions[right], h)))
    ensures Climbs(actions, left, right) <==>
      (IsRead(actions[left]) && IsEgress(actions[right])
      && actions[right].producer.agentId == actions[left].producer.agentId)
  {
    hide StaircaseOf, IsRead, IsEgress;
    assert Climbs(actions, left, right) ==>
      StairsBefore(actions, h, left, right + 1, StaircaseOf(actions[left], actions[right], h));
  }

  lemma StairOf(actions: seq<Action>, h: Digests, byAction: map<string, Edge>, left: nat, right: nat)
    requires left < right < |actions|
    requires forall a :: a in actions ==> a.actionId in byAction && byAction[a.actionId] == EdgeOf(a, h)
    ensures actions[left].actionId in byAction && actions[right].actionId in byAction
    ensures StaircaseOf(actions[left], actions[right], h)
         == Obstruction(EgressStaircase, actions[right].sequence - actions[left].sequence, GapLift,
           {byAction[actions[left].actionId].id, byAction[actions[right].actionId].id})
  {
    hide EdgeOf;
    assert actions[left] in actions && actions[right] in actions;
  }

  lemma StairsAll(actions: seq<Action>, h: Digests)
    ensures forall o :: StairsBefore(actions, h, |actions|, 0, o) <==> IsStaircase(actions, h, o)
  {
    hide StaircaseOf, IsRead, IsEgress;
  }

  /** `actor_edges`: the edges of every actor. */
  ghost predicate AreActorEdges(actors: map<Producer, seq<Edge>>, actions: seq<Action>, h: Digests) {
    forall actor ::
      EdgesBy(actions, h, actor) == if actor in actors then actors[actor] else []
  }

  lemma ActorEdgesStep(actors: map<Producer, seq<Edge>>, actions: seq<Action>, h: Digests, a: Action)
    requires AreActorEdges(actors, actions, h)
    ensures AreActorEdges(
      actors[a.producer := (if a.producer in actors then actors[a.producer] else []) + [EdgeOf(a, h)]], actions + [a], h)
  {
    hide EdgeOf;
    var longer := actions + [a];
    assert longer[..|actions|] == actions;
    forall actor ensures EdgesBy(longer, h, actor)
        == EdgesBy(actions, h, actor) + if a.producer == actor then [EdgeOf(a, h)] else [] {
    }
  }

  method TridentRows(actions: seq<Action>, h: Digests, byAction: map<string, Edge>) returns (rows: Rows)
    requires forall a :: a in actions ==> a.actionId in byAction && byAction[a.actionId] == EdgeOf(a, h)
    ensures forall o :: o in rows <==> IsTrident(actions, h, o)
  {
    hide EdgeOf, AreActorEdges, EdgesBy, IsFork, ForkOf;
    var actors: map<Producer, seq<Edge>> := map[];
    NoActors(h);
    for index := 0 to |actions|
      invariant AreActorEdges(actors, actions[..index], h)
    {
      var action := actions[index];
      assert action in actions && actions[..index + 1] == actions[..index] + [action];
      ActorEdgesStep(actors, actions[..index], h, action);
      var edge := byAction[action.actionId];
      actors := actors[action.producer := (if action.producer in actors then actors[action.producer] else []) + [edge]];
    }
    assert actions[..|actions|] == actions;
    rows := set actor | actor in actors && IsFork(actors[actor]) :: ForkOf(actors[actor]);
    ForksOfActors(actors, actions, h);
  }

  lemma NoActors(h: Digests)
    ensures AreActorEdges(map[], [], h)
  {
  }

  lemma ForksOfActors(actors: map<Producer, seq<Edge>>, actions: seq<Action>, h: Digests)
    requires AreActorEdges(actors, actions, h)
    ensures forall o ::
      (exists actor :: actor in actors && IsFork(actors[actor]) && o == ForkOf(actors[actor])) <==> IsTrident(actions, h, o)
  {
    hide EdgesBy, ForkOf;
    NoFork();
    hide IsFork;
    forall o | IsTrident(actions, h, o)
      ensures exists actor :: actor in actors && IsFork(actors[actor]) && o == ForkOf(actors[actor])
    {
      var actor :| IsFork(EdgesBy(actions, h, actor)) && o == ForkOf(EdgesBy(actions, h, actor));
      assert actor in actors;
    }
    forall o, actor | actor in actors && IsFork(actors[actor]) && o == ForkOf(actors[actor])
      ensures IsTrident(actions, h, o)
    {
      assert EdgesBy(actions, h, actor) == actors[actor];
    }
  }

  lemma NoFork()
    ensures !IsFork([])
  {
    assert 1 !in MasksOf([]);
    assert 1 in {1, 2, 4 as Mask};
  }

  /** `any(...)` over the positions from `start` to `end`. */
  method AnyTouches(w: Window, start: nat, end: nat, target: string) returns (found: bool)
    requires start <= end <= |w.actions| == |w.effects|
    ensures found <==> exists k :: start <= k < end && Touches(w, k, target)
  {
    found := false;
    for k := start to end
      invariant found <==> exists l :: start <= l < k && Touches(w, l, target)
    {
      if Touches(w, k, target) {
        found := true;
      }
    }
  }

  method OcclusionRows(w: Window, h: Digests, byAction: map<string, Edge>) returns (rows: Rows)
    requires |w.actions| == |w.effects|
    requires forall a :: a in w.actions ==> a.actionId in byAction && byAction[a.actionId] == EdgeOf(a, h)
    ensures forall o :: o in rows <==> IsOcclusion(w, h, o)
  {
    hide EdgeOf, Touches;
    rows := {};
    for index := 0 to |w.actions|
      invariant forall o :: o in rows <==>
        exists i :: 0 <= i < index && IsHidden(w, i) && o == OcclusionOf(w.actions[i], h)
    {
      if w.effects[index] == Deny {
        var target := w.actions[index].target;
        var before := AnyTouches(w, 0, index, target);
        var after := AnyTouches(w, index + 1, |w.actions|, target);
        assert IsHidden(w, index) <==> before && after;
        if before && after {
          assert w.actions[index] in w.actions;
          rows := rows + {Obstruction(CrateLogOcclusion, 1, Discharge, {byAction[w.actions[index].actionId].id})};
        }
      }
    }
  }

  method SlotRows(actions: seq<Action>, h: Digests, maximum: nat, byAction: map<string, Edge>) returns (rows: Rows)
    requires forall a :: a in actions ==> a.actionId in byAction && byAction[a.actionId] == EdgeOf(a, h)
    ensures forall o :: o in rows <==> IsIpcInvalid(actions, h, maximum, o)
  {
    hide EdgeOf, IsBadSlot;
    rows := {};
    for index := 0 to |actions|
      invariant forall o :: o in rows <==>
        exists i :: 0 <= i < index && IsBadSlot(actions[i], maximum) && o == BadSlotOf(actions[i], h)
    {
      if IsBadSlot(actions[index], maximum) {
        assert actions[index] in actions;
        rows := rows + {Obstruction(IpcCardinalityInvalid, 1, Discharge, {byAction[actions[index].actionId].id})};
      }
    }
  }

  // ---------- the registry ----------

  function EffectOf(rows: Rows): Effect {
    if exists o :: o in rows && o.mode == Discharge then Deny
    else if rows != {} then Review
    else Allow
  }

  ghost predicate IsRegistry(w: Window, g: Graph, h: Digests, rules: Rules, readings: Readings, rows: Rows)
    requires |w.actions| == |w.effects|
  {
    forall o :: o in rows <==> IsObstruction(w, g, h, rules, readings, o)
  }

  /** `build_registry` */
  method BuildRegistry(w: Window, g: Graph, h: Digests, rules: Rules, readings: Readings) returns (result: Result<Rows>)
    requires w.Valid() && IsGraph(g) && IsActionGraph(g, w.actions, h)
    requires forall p :: p in rules.forbidCycles ==> |p| >= 1
    ensures result.Success? ==> IsRegistry(w, g, h, rules, readings, result.value)
    ensures result.Success? ==> forall p :: p in rules.forbidCycles ==> Finishes(g, p)
    ensures result.Failure? ==>
      result.error == CycleSearchLimit && exists p :: p in rules.forbidCycles && Overruns(g, p)
  {
    hide IsPenrose, IsForbiddenCycle, IsStaircase, IsTrident, IsOcclusion, IsIpcInvalid, IsGraph, IsActionGraph,
      Finishes, Overruns, EdgeOf;
    var penrose := PenroseRows(readings.residuals, rules);
    var cycles := CycleRows(g, rules.forbidCycles);
    if cycles.Failure? {
      return Failure(cycles.error);
    }
    var byAction := IndexEdges(g, w.actions, h);
    var staircases := StaircaseRows(w.actions, h, byAction);
    var tridents := TridentRows(w.actions, h, byAction);
    var occlusions := OcclusionRows(w, h, byAction);
    var slots := SlotRows(w.actions, h, rules.maxIpcSlots, byAction);
    var trips: Rows := {};
    if !readings.curvatureOk {
      trips := trips + {FormanTripOf(readings)};
    }
    if !readings.spectralOk {
      trips := trips + {SpectralTripOf(readings, g.edges)};
    }
    var rows := penrose + cycles.value + staircases + tridents + occlusions + slots + trips;
    KindsAreDistinct(w, g, h, rules, readings);
    result := Success(rows);
  }

  lemma KindsAreDistinct(w: Window, g: Graph, h: Digests, rules: Rules, readings: Readings)
    requires |w.actions| == |w.effects|
    ensures forall o :: IsObstruction(w, g, h, rules, readings, o) <==>
      (IsPenrose(readings.residuals, rules, o) || IsForbiddenCycle(g.edges, rules.forbidCycles, o)
      || IsStaircase(w.actions, h, o) || IsTrident(w.actions, h, o) || IsOcclusion(w, h, o)
      || IsIpcInvalid(w.actions, h, rules.maxIpcSlots, o)
      || (!readings.curvatureOk && o == FormanTripOf(readings))
      || (!readings.spectralOk && o == SpectralTripOf(readings, g.edges)))
  {
    hide EdgeOf, EdgesBy, IsFork, IsHidden, Climbs, IsBadSlot, FC.IsReportedCycle;
  }

  /** An empty registry says that every sensor is content. */
  lemma EmptyRegistry(w: Window, g: Graph, h: Digests, rules: Rules, readings: Readings, rows: Rows)
    requires |w.actions| == |w.effects| && IsRegistry(w, g, h, rules, readings, rows)
    ensures rows == {} ==> readings.residuals == [] && readings.curvatureOk && readings.spectralOk
  {
    if readings.residuals != [] {
      var o := PenroseOf(readings.residuals[0], rules);
      assert IsObstruction(w, g, h, rules, readings, o);
      assert o in rows;
    }
    if !readings.curvatureOk {
      assert IsObstruction(w, g, h, rules, readings, FormanTripOf(readings));
      assert FormanTripOf(readings) in rows;
    }
    if !readings.spectralOk {
      assert IsObstruction(w, g, h, rules, readings, SpectralTripOf(readings, g.edges));
      assert SpectralTripOf(readings, g.edges) in rows;
    }
  }
}
