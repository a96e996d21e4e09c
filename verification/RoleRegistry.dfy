/** Registries of profile v2: one for each role of a window, and their aggregate
    (geometry_profile_v2_sensors.py). */
module RoleRegistry {
  import opened Graphs
  import opened Outcomes
  import opened Effects
  import opened Actions
  import opened Registry
  import Holonomy
  import Forman

  datatype Role = Short | Long

  datatype RoleObstruction = RoleObstruction(role: Role, kind: Kind, residual: int, mode: Mode, edges: set<Digest>,
    source: Option<Obstruction>, thresholdKind: Option<string>)

  type RoleRows = set<RoleObstruction>

  predicate IsThreshold(k: Kind) {
    k == FormanThresholdTrip || k == SpectralDeltaTrip
  }

  function Max(a: int, b: int): int {
    if a >= b then a else b
  }

  /** The largest absolute curvature of the window, zero for none. */
  function MaxObserved(entries: seq<Forman.Entry>): (m: nat)
    ensures forall i :: 0 <= i < |entries| ==> Forman.Abs(entries[i].forman) <= m
    ensures m == 0 || exists i :: 0 <= i < |entries| && Forman.Abs(entries[i].forman) == m
  {
    if entries == [] then 0
    else
      var k := |entries| - 1;
      Max(MaxObserved(entries[..k]), Forman.Abs(entries[k].forman))
  }

  function AbsExcess(c: Forman.Report, p: Forman.Policy): int {
    Max(0, MaxObserved(c.entries) - p.maxAbs)
  }

  function L1Excess(c: Forman.Report, p: Forman.Policy): int {
    Max(0, c.windowL1 - p.maxWindowL1)
  }

  function ThresholdKind(c: Forman.Report): string {
    if c.absTrips != [] && c.windowL1Trip then "edge_abs+window_l1"
    else if c.absTrips != [] then "edge_abs"
    else if c.windowL1Trip then "window_l1"
    else ""
  }

  function InheritedOf(role: Role, o: Obstruction): RoleObstruction {
    RoleObstruction(role, o.kind, o.residual, o.mode, o.edges, Some(o), None)
  }

  function FormanRow(role: Role, c: Forman.Report, p: Forman.Policy): RoleObstruction {
    RoleObstruction(role, FormanThresholdTrip, Max(Max(AbsExcess(c, p), L1Excess(c, p)), 1), Discharge, c.trips,
      None, Some(ThresholdKind(c)))
  }

  function SpectralRow(role: Role, l2Delta: nat, edges: seq<Edge>): RoleObstruction {
    RoleObstruction(role, SpectralDeltaTrip, l2Delta, Discharge, set e | e in edges :: e.id,
      None, Some("spectral_l2_delta"))
  }

  function ReadingsOf(residuals: seq<Holonomy.Residual>, c: Forman.Report, spectralOk: bool, l2Delta: nat): Readings {
    Readings(residuals, c.ok, c.trips, spectralOk, l2Delta)
  }

  /** The rows of a role: the inherited obstructions but for the threshold trips, which are rebuilt. */
  ghost predicate IsRoleRegistry(role: Role, inherited: Rows, g: Graph, c: Forman.Report, p: Forman.Policy,
    readings: Readings, rows: RoleRows)
  {
    forall r :: r in rows <==>
      ((exists o :: o in inherited && !IsThreshold(o.kind) && r == InheritedOf(role, o))
      || (!readings.curvatureOk && r == FormanRow(role, c, p))
      || (!readings.spectralOk && r == SpectralRow(role, readings.l2Delta, g.edges)))
  }

  function RoleEffectOf(rows: RoleRows): Effect {
    if exists r :: r in rows && r.mode == Discharge then Deny
    else if rows != {} then Review
    else Allow
  }

  /** `_role_registry` */
  method BuildRoleRegistry(role: Role, w: Window, g: Graph, h: Digests, rules: Rules, c: Forman.Report,
    p: Forman.Policy, residuals: seq<Holonomy.Residual>, spectralOk: bool, l2Delta: nat)
    returns (result: Result<RoleRows>, ghost inherited: Rows)
    requires w.Valid() && IsGraph(g) && IsActionGraph(g, w.actions, h)
    requires forall p :: p in rules.forbidCycles ==> |p| >= 1
    ensures var readings := ReadingsOf(residuals, c, spectralOk, l2Delta);
      result.Success? ==>
        && IsRegistry(w, g, h, rules, readings, inherited)
        && IsRoleRegistry(role, inherited, g, c, p, readings, result.value)
        && forall q :: q in rules.forbidCycles ==> Finishes(g, q)
    ensures result.Failure? ==>
      result.error == CycleSearchLimit && exists q :: q in rules.forbidCycles && Overruns(g, q)
  {
    hide IsObstruction, IsGraph, IsActionGraph, Finishes, Overruns, FormanRow, SpectralRow, IsRegistry;
    var readings := ReadingsOf(residuals, c, spectralOk, l2Delta);
    var base := BuildRegistry(w, g, h, rules, readings);
    if base.Failure? {
      return Failure(base.error), {};
    }
    inherited := base.value;
    var rows := set o | o in base.value && !IsThreshold(o.kind) :: InheritedOf(role, o);
    if !c.ok {
      rows := rows + {FormanRow(role, c, p)};
    }
    if !spectralOk {
      rows := rows + {SpectralRow(role, l2Delta, g.edges)};
    }
    result := Success(rows);
  }

  ghost predicate Lists(rows: Rows, k: Kind) {
    exists o :: o in rows && o.kind == k
  }

  ghost predicate RoleLists(rows: RoleRows, k: Kind) {
    exists r :: r in rows && r.kind == k
  }

  lemma RowHasSource(role: Role, w: Window, g: Graph, h: Digests, rules: Rules, readings: Readings, inherited: Rows,
    c: Forman.Report, p: Forman.Policy, rows: RoleRows, r: RoleObstruction) returns (o: Obstruction)
    requires |w.actions| == |w.effects|
    requires IsRegistry(w, g, h, rules, readings, inherited)
    requires IsRoleRegistry(role, inherited, g, c, p, readings, rows)
    requires r in rows
    ensures o in inherited && o.kind == r.kind && o.mode == r.mode
  {
    ThresholdRows(w, g, h, rules, readings, inherited);
    hide IsRegistry, ThresholdKind, AbsExcess, L1Excess, Max, IsThreshold;
    if p :| p in inherited && !IsThreshold(p.kind) && r == InheritedOf(role, p) {
      o := p;
    } else if !readings.curvatureOk && r == FormanRow(role, c, p) {
      o := FormanTripOf(readings);
    } else {
      o := SpectralTripOf(readings, g.edges);
    }
  }

  lemma SourceHasRow(role: Role, w: Window, g: Graph, h: Digests, rules: Rules, readings: Readings, inherited: Rows,
    c: Forman.Report, p: Forman.Policy, rows: RoleRows, o: Obstruction) returns (r: RoleObstruction)
    requires |w.actions| == |w.effects|
    requires IsRegistry(w, g, h, rules, readings, inherited)
    requires IsRoleRegistry(role, inherited, g, c, p, readings, rows)
    requires o in inherited
    ensures r in rows && o.kind == r.kind && o.mode == r.mode
  {
    ThresholdRows(w, g, h, rules, readings, inherited);
    hide IsRegistry, ThresholdKind, AbsExcess, L1Excess, Max;
    if !IsThreshold(o.kind) {
      r := InheritedOf(role, o);
    } else if o.kind == FormanThresholdTrip {
      r := FormanRow(role, c, p);
    } else {
      r := SpectralRow(role, readings.l2Delta, g.edges);
    }
  }

  /** Rebuilding the threshold rows never changes the verdict or the kinds that are listed. */
  lemma SameVerdict(role: Role, w: Window, g: Graph, h: Digests, rules: Rules, readings: Readings, inherited: Rows,
    c: Forman.Report, p: Forman.Policy, rows: RoleRows)
    requires |w.actions| == |w.effects|
    requires IsRegistry(w, g, h, rules, readings, inherited)
    requires IsRoleRegistry(role, inherited, g, c, p, readings, rows)
    ensures RoleEffectOf(rows) == EffectOf(inherited)
    ensures forall k :: RoleLists(rows, k) <==> Lists(inherited, k)
    ensures rows == {} <==> inherited == {}
  {
    hide IsRegistry, IsRoleRegistry;
    forall r | r in rows ensures exists o :: o in inherited && o.kind == r.kind && o.mode == r.mode {
      var o := RowHasSource(role, w, g, h, rules, readings, inherited, c, p, rows, r);
    }
    forall o | o in inherited ensures exists r :: r in rows && o.kind == r.kind && o.mode == r.mode {
      var r := SourceHasRow(role, w, g, h, rules, readings, inherited, c, p, rows, o);
    }
  }

  lemma ThresholdRows(w: Window, g: Graph, h: Digests, rules: Rules, readings: Readings, rows: Rows)
    requires |w.actions| == |w.effects| && IsRegistry(w, g, h, rules, readings, rows)
    ensures !readings.curvatureOk <==> FormanTripOf(readings) in rows
    ensures !readings.spectralOk <==> SpectralTripOf(readings, g.edges) in rows
    ensures forall o :: o in rows && o.kind == FormanThresholdTrip ==> o == FormanTripOf(readings)
    ensures forall o :: o in rows && o.kind == SpectralDeltaTrip ==> o == SpectralTripOf(readings, g.edges)
  {
    assert IsObstruction(w, g, h, rules, readings, FormanTripOf(readings)) <==> !readings.curvatureOk;
    assert IsObstruction(w, g, h, rules, readings, SpectralTripOf(readings, g.edges)) <==> !readings.spectralOk;
  }

  /** A tripped curvature always has a positive excess, so the floor of one on its residual never
      decides, and its threshold kind is never empty. */
  lemma FormanExcess(g: Graph, p: Forman.Policy, scale: nat, c: Forman.Report, role: Role)
    requires Forman.IsCurvature(g, p, scale, c)
    ensures c.ok <==> AbsExcess(c, p) == 0 && L1Excess(c, p) == 0
    ensures c.absTrips != [] <==> AbsExcess(c, p) > 0
    ensures c.windowL1Trip <==> L1Excess(c, p) > 0
    ensures !c.ok ==>
      && FormanRow(role, c, p).residual == Max(AbsExcess(c, p), L1Excess(c, p))
      && ThresholdKind(c) != ""
  {
    hide Forman.Curvature, Forman.AbsoluteSum, Forman.Weight;
    forall i | 0 <= i < |g.edges| ensures c.entries[i].forman == Forman.Curvature(g.edges, p, g.edges[i]) {
    }
    if c.absTrips != [] {
      var id := c.absTrips[0];
      assert id in c.absTrips;
      var e :| e in g.edges && e.id == id && Forman.Abs(Forman.Curvature(g.edges, p, e)) > p.maxAbs;
      var i :| 0 <= i < |g.edges| && g.edges[i] == e;
      assert Forman.Abs(c.entries[i].forman) > p.maxAbs;
    }
    if AbsExcess(c, p) > 0 {
      var i :| 0 <= i < |c.entries| && Forman.Abs(c.entries[i].forman) == MaxObserved(c.entries);
      assert g.edges[i] in g.edges;
      assert g.edges[i].id in c.absTrips;
    }
    if e :| e in g.edges && Forman.Abs(Forman.Curvature(g.edges, p, e)) > p.maxAbs {
      assert e.id in c.absTrips;
    }
  }

  /** The row of a tripped curvature: its residual is the largest amount by which a bound is
      exceeded, its edges are the tripped ones, and its threshold kind names the exceeded bounds. */
  lemma FormanRowMeans(g: Graph, p: Forman.Policy, scale: nat, c: Forman.Report, role: Role)
    requires Forman.IsCurvature(g, p, scale, c) && !c.ok
    ensures var r := FormanRow(role, c, p);
      && r.role == role && r.kind == FormanThresholdTrip && r.mode == Discharge && r.edges == c.trips && r.source == None
      && (forall e :: e in g.edges ==> r.residual >= Forman.Abs(Forman.Curvature(g.edges, p, e)) - p.maxAbs)
      && r.residual >= c.windowL1 - p.maxWindowL1
      && (r.residual == c.windowL1 - p.maxWindowL1
        || exists e :: e in g.edges && r.residual == Forman.Abs(Forman.Curvature(g.edges, p, e)) - p.maxAbs)
      && r.thresholdKind == Some(if c.absTrips == [] then "window_l1"
        else if c.windowL1Trip then "edge_abs+window_l1" else "edge_abs")
  {
    FormanExcess(g, p, scale, c, role);
    hide Forman.Curvature, Forman.AbsoluteSum, Forman.Weight;
    forall i | 0 <= i < |g.edges| ensures c.entries[i].forman == Forman.Curvature(g.edges, p, g.edges[i]) {
    }
    var r := FormanRow(role, c, p);
    forall e | e in g.edges ensures r.residual >= Forman.Abs(Forman.Curvature(g.edges, p, e)) - p.maxAbs {
      var i :| 0 <= i < |g.edges| && g.edges[i] == e;
      assert Forman.Abs(c.entries[i].forman) <= MaxObserved(c.entries);
    }
    if AbsExcess(c, p) > L1Excess(c, p) {
      var i :| 0 <= i < |c.entries| && Forman.Abs(c.entries[i].forman) == MaxObserved(c.entries);
      assert g.edges[i] in g.edges;
    }
  }

  /** `_aggregate_registry` */
  function Aggregate(short: RoleRows, long: RoleRows): RoleRows {
    short + long
  }
}
