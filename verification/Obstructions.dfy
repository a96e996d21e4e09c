/** The registry of a window read back from its actions: for each kind, which configurations are
    listed, with which residual, mode and edges, and what the list as a whole decides. Nothing here
    refers to how the rows are built. */
module Obstructions {
  import opened Graphs
  import opened Effects
  import opened Actions
  import opened Registry
  import opened Rotations
  import opened Sorting
  import Holonomy
  import FC = ForbiddenCycles

  // ---------- what the graph shows ----------

  lemma PenroseMeans(w: Window, g: Graph, h: Digests, rules: Rules, readings: Readings, rows: Rows, o: Obstruction)
    requires |w.actions| == |w.effects| && IsRegistry(w, g, h, rules, readings, rows) && o.kind == PrivilegePenroseLoop
    ensures o in rows <==>
      exists r :: (r in readings.residuals && o.residual == r.weight && o.edges == {r.edge}
        && o.mode == (if rules.requireDeltaP then Discharge else GapLift))
  {
    hide EdgeOf;
    if r :| (r in readings.residuals && o.residual == r.weight && o.edges == {r.edge}
        && o.mode == (if rules.requireDeltaP then Discharge else GapLift)) {
      assert o == PenroseOf(r, rules);
    }
  }

  /** The edge carries authority that the labels of its ends do not explain. */
  ghost predicate IsPenroseLoop(e: Edge, potentials: Holonomy.Potentials, o: Obstruction) {
    && e.source in potentials && e.target in potentials
    && var mask := Xor(Xor(potentials[e.source], e.mask), potentials[e.target]);
      mask != 0 && o.edges == {e.id} && o.residual == |Grants(mask)|
  }

  lemma ResidualsMean(g: Graph, epsilon: nat, report: Holonomy.Report, o: Obstruction)
    requires Holonomy.IsHolonomy(g, epsilon, report)
    ensures (exists r :: r in report.residuals && o.residual == r.weight && o.edges == {r.edge})
      <==> exists e :: e in g.edges && IsPenroseLoop(e, report.potentials, o)
  {
    hide Grants, Xor;
    if r :| r in report.residuals && o.residual == r.weight && o.edges == {r.edge} {
      var e :| e in g.edges && Holonomy.IsReported(e, report.potentials, r);
      Holonomy.ReportedMeans(e, report.potentials, r);
      assert IsPenroseLoop(e, report.potentials, o);
    }
    if e :| e in g.edges && IsPenroseLoop(e, report.potentials, o) {
      var r := Holonomy.ResidualOf(e, report.potentials);
      Holonomy.ReportedMeans(e, report.potentials, r);
      assert Holonomy.IsReported(e, report.potentials, r);
      assert r in report.residuals && o.residual == r.weight && o.edges == {r.edge};
    }
  }

  ghost function PathIds(path: seq<Edge>): set<Digest> {
    set e: Edge | e in path :: e.id
  }

  /** The closed paths that spell a forbidden pattern, whatever their rotation. */
  lemma CycleMeans(w: Window, g: Graph, h: Digests, rules: Rules, readings: Readings, rows: Rows, o: Obstruction)
    requires |w.actions| == |w.effects| && IsRegistry(w, g, h, rules, readings, rows) && o.kind == ForbiddenPolicyCycle
    ensures o in rows <==>
      (exists pattern, path :: (pattern in rules.forbidCycles && FC.IsMatch(g.edges, pattern, path)
        && o.mode == Discharge && o.residual == |path| && o.edges == PathIds(path)))
  {
    hide CanonicalRotation, EdgeOf;
    if o in rows {
      var pattern, m :| pattern in rules.forbidCycles && FC.IsReportedCycle(g.edges, pattern, m) && o == CycleOf(pattern, m);
      var path :| FC.IsMatch(g.edges, pattern, path) && m == CanonicalRotation(AtMost, FC.Ids(path));
      MatchLength(g.edges, pattern, path);
      ReportedIds(path);
    }
    if pattern, path :| (pattern in rules.forbidCycles && FC.IsMatch(g.edges, pattern, path)
        && o.mode == Discharge && o.residual == |path| && o.edges == PathIds(path)) {
      MatchLength(g.edges, pattern, path);
      ReportedIds(path);
      var m := CanonicalRotation(AtMost, FC.Ids(path));
      assert FC.IsReportedCycle(g.edges, pattern, m);
      assert o == CycleOf(pattern, m);
    }
  }

  lemma MatchLength(edges: seq<Edge>, pattern: seq<string>, path: seq<Edge>)
    requires FC.IsMatch(edges, pattern, path)
    ensures |path| == |pattern| >= 1
  {
  }

  /** The reported rotation names the edges of the path. */
  lemma ReportedIds(path: seq<Edge>)
    requires path != []
    ensures (set d | d in CanonicalRotation(AtMost, FC.Ids(path))) == PathIds(path)
  {
    var ids := FC.Ids(path);
    AtMostIsTotal();
    CanonicalIsLeast(AtMost, ids);
    var k :| 0 <= k < |ids| && CanonicalRotation(AtMost, ids) == Rotate(ids, k);
    hide CanonicalRotation;
    assert forall d :: d in Rotate(ids, k) <==> d in ids by {
      assert ids == ids[..k] + ids[k..];
    }
    forall e | e in path ensures e.id in ids {
      var i :| 0 <= i < |path| && path[i] == e;
      assert ids[i] == e.id;
    }
    forall d | d in ids ensures exists e :: e in path && e.id == d {
      var i :| 0 <= i < |ids| && ids[i] == d;
      assert path[i] in path;
    }
  }

  lemma ThresholdsMean(w: Window, g: Graph, h: Digests, rules: Rules, readings: Readings, rows: Rows, o: Obstruction)
    requires |w.actions| == |w.effects| && IsRegistry(w, g, h, rules, readings, rows)
    ensures o.kind == FormanThresholdTrip ==>
      (o in rows <==> (!readings.curvatureOk && o.mode == Discharge && o.residual == |readings.trips| && o.edges == readings.trips))
    ensures o.kind == SpectralDeltaTrip ==>
      (o in rows <==> (!readings.spectralOk && o.mode == Discharge && o.residual == readings.l2Delta
        && o.edges == PathIds(g.edges)))
  {
    hide EdgeOf;
  }

  // ---------- what the actions show ----------

  /** A file is read and the same agent, in whatever workload, sends traffic out later. */
  lemma StaircaseMeans(w: Window, g: Graph, h: Digests, rules: Rules, readings: Readings, rows: Rows, o: Obstruction)
    requires |w.actions| == |w.effects| && IsRegistry(w, g, h, rules, readings, rows) && o.kind == EgressStaircase
    ensures o in rows <==>
      exists i, j :: (0 <= i < j < |w.actions| && Exfiltrates(w.actions[i], w.actions[j])
        && o.mode == GapLift && o.residual == w.actions[j].sequence - w.actions[i].sequence
        && o.edges == {EdgeOf(w.actions[i], h).id, EdgeOf(w.actions[j], h).id})
  {
    hide EdgeOf;
    if i, j :| (0 <= i < j < |w.actions| && Exfiltrates(w.actions[i], w.actions[j])
        && o.mode == GapLift && o.residual == w.actions[j].sequence - w.actions[i].sequence
        && o.edges == {EdgeOf(w.actions[i], h).id, EdgeOf(w.actions[j], h).id}) {
      assert Climbs(w.actions, i, j);
      assert o == StaircaseOf(w.actions[i], w.actions[j], h);
    }
    if o in rows {
      var i: nat, j: nat :| j < |w.actions| && Climbs(w.actions, i, j) && o == StaircaseOf(w.actions[i], w.actions[j], h);
      assert Exfiltrates(w.actions[i], w.actions[j]);
    }
  }

  ghost predicate Exfiltrates(left: Action, right: Action) {
    && left.service == "file" && left.operation == "read"
    && right.service == "network"
    && (right.operation == "connect" || right.operation == "send" || right.operation == "upload")
    && left.producer.agentId == right.producer.agentId
  }

  /** The targets of the edges of an actor, and the identifiers of these edges. */
  ghost function TargetsOf(actions: seq<Action>, h: Digests, actor: Producer): set<Digest> {
    set a | a in actions && a.producer == actor :: EdgeOf(a, h).target
  }

  ghost function EdgesOfActor(actions: seq<Action>, h: Digests, actor: Producer): set<Digest> {
    set a | a in actions && a.producer == actor :: EdgeOf(a, h).id
  }

  ghost predicate Uses(actions: seq<Action>, actor: Producer, authority: Authority) {
    exists a :: a in actions && a.producer == actor && a.authority == authority
  }

  /** One actor reads outside, writes the workspace and uses the network, over three targets or more. */
  lemma TridentMeans(w: Window, g: Graph, h: Digests, rules: Rules, readings: Readings, rows: Rows, o: Obstruction)
    requires |w.actions| == |w.effects| && IsRegistry(w, g, h, rules, readings, rows) && o.kind == TridentTaintFork
    ensures o in rows <==>
      exists actor ::
        && Uses(w.actions, actor, ReadOnlyExternal) && Uses(w.actions, actor, WorkspaceWrite)
        && Uses(w.actions, actor, Network) && |TargetsOf(w.actions, h, actor)| >= 3
        && o.mode == GapLift && o.residual == |TargetsOf(w.actions, h, actor)|
        && o.edges == EdgesOfActor(w.actions, h, actor)
  {
    forall actor
      ensures IsFork(EdgesBy(w.actions, h, actor)) <==>
        Uses(w.actions, actor, ReadOnlyExternal) && Uses(w.actions, actor, WorkspaceWrite)
        && Uses(w.actions, actor, Network) && |TargetsOf(w.actions, h, actor)| >= 3
      ensures ForkOf(EdgesBy(w.actions, h, actor))
        == Obstruction(TridentTaintFork, |TargetsOf(w.actions, h, actor)|, GapLift, EdgesOfActor(w.actions, h, actor))
    {
      ForkMeans(w.actions, h, actor);
    }
    hide EdgeOf, EdgesBy, IsFork, ForkOf, Uses, TargetsOf, EdgesOfActor;
    if o in rows {
      var actor :| IsFork(EdgesBy(w.actions, h, actor)) && o == ForkOf(EdgesBy(w.actions, h, actor));
    }
  }

  lemma ForkMeans(actions: seq<Action>, h: Digests, actor: Producer)
    ensures var edges := EdgesBy(actions, h, actor);
      && (IsFork(edges) <==>
        Uses(actions, actor, ReadOnlyExternal) && Uses(actions, actor, WorkspaceWrite) && Uses(actions, actor, Network)
        && |TargetsOf(actions, h, actor)| >= 3)
      && ForkOf(edges) == Obstruction(TridentTaintFork, |TargetsOf(actions, h, actor)|, GapLift, EdgesOfActor(actions, h, actor))
  {
    var edges := EdgesBy(actions, h, actor);
    EdgesOfOne(actions, h, actor);
    hide EdgesBy;
    assert Targets(edges) == TargetsOf(actions, h, actor);
    assert (set e | e in edges :: e.id) == EdgesOfActor(actions, h, actor);
    MaskIsUsed(actions, h, actor, ReadOnlyExternal);
    MaskIsUsed(actions, h, actor, WorkspaceWrite);
    MaskIsUsed(actions, h, actor, Network);
  }

  lemma MaskIsUsed(actions: seq<Action>, h: Digests, actor: Producer, authority: Authority)
    ensures MaskOf(authority) in MasksOf(EdgesBy(actions, h, actor)) <==> Uses(actions, actor, authority)
  {
    EdgesOfOne(actions, h, actor);
    MasksApart();
    var edges := EdgesBy(actions, h, actor);
    hide EdgesBy, MaskOf;
    if MaskOf(authority) in MasksOf(edges) {
      var e :| e in edges && e.mask == MaskOf(authority);
      var a :| a in actions && a.producer == actor && e == EdgeOf(a, h);
    }
    if a :| a in actions && a.producer == actor && a.authority == authority {
      assert EdgeOf(a, h) in edges;
    }
  }

  lemma MasksApart()
    ensures forall a: Authority, b: Authority :: MaskOf(a) == MaskOf(b) ==> a == b
  {
  }

  lemma {:induction false} EdgesOfOne(actions: seq<Action>, h: Digests, actor: Producer)
    ensures forall e :: e in EdgesBy(actions, h, actor) <==> exists a :: a in actions && a.producer == actor && e == EdgeOf(a, h)
  {
    hide EdgeOf;
    if actions != [] {
      var k := |actions| - 1;
      EdgesOfOne(actions[..k], h, actor);
      assert actions == actions[..k] + [actions[k]];
    }
  }

  /** A denied action on a target that actions which are not denied touch before and after. */
  lemma OcclusionMeans(w: Window, g: Graph, h: Digests, rules: Rules, readings: Readings, rows: Rows, o: Obstruction)
    requires |w.actions| == |w.effects| && IsRegistry(w, g, h, rules, readings, rows) && o.kind == CrateLogOcclusion
    ensures o in rows <==>
      exists b, i, a :: (0 <= b < i < a < |w.actions|
        && w.effects[b] != Deny && w.effects[i] == Deny && w.effects[a] != Deny
        && w.actions[b].target == w.actions[i].target == w.actions[a].target
        && o == Obstruction(CrateLogOcclusion, 1, Discharge, {EdgeOf(w.actions[i], h).id}))
  {
    hide EdgeOf;
    if b, i, a :| (0 <= b < i < a < |w.actions|
        && w.effects[b] != Deny && w.effects[i] == Deny && w.effects[a] != Deny
        && w.actions[b].target == w.actions[i].target == w.actions[a].target
        && o == Obstruction(CrateLogOcclusion, 1, Discharge, {EdgeOf(w.actions[i], h).id})) {
      assert Touches(w, b, w.actions[i].target) && Touches(w, a, w.actions[i].target);
      assert IsHidden(w, i);
    }
  }

  /** A message without a slot below the configured number. */
  lemma SlotMeans(w: Window, g: Graph, h: Digests, rules: Rules, readings: Readings, rows: Rows, o: Obstruction)
    requires |w.actions| == |w.effects| && IsRegistry(w, g, h, rules, readings, rows) && o.kind == IpcCardinalityInvalid
    ensures o in rows <==>
      exists a :: (a in w.actions && a.service == "ipc" && !HasSlot(a, rules.maxIpcSlots)
        && o == Obstruction(IpcCardinalityInvalid, 1, Discharge, {EdgeOf(a, h).id}))
  {
    hide EdgeOf;
  }

  ghost predicate HasSlot(a: Action, count: nat) {
    exists slot: nat :: slot < count && a.slot == Some(slot)
  }

  // ---------- what the list decides ----------

  /** Staircases and tridents ask for a review, and so do Penrose loops unless the policy demands
      that there are none; everything else denies. */
  lemma EffectMeans(w: Window, g: Graph, h: Digests, rules: Rules, readings: Readings, rows: Rows)
    requires |w.actions| == |w.effects| && IsRegistry(w, g, h, rules, readings, rows)
    ensures EffectOf(rows) == Allow <==> rows == {}
    ensures EffectOf(rows) == Deny <==> exists o :: o in rows && Denies(o.kind, rules)
  {
    hide EdgeOf;
    forall o | o in rows ensures o.mode == Discharge <==> Denies(o.kind, rules) {
      assert IsObstruction(w, g, h, rules, readings, o);
    }
    hide IsRegistry;
  }

  ghost predicate Denies(kind: Kind, rules: Rules) {
    kind != EgressStaircase && kind != TridentTaintFork && (kind == PrivilegePenroseLoop ==> rules.requireDeltaP)
  }
}
