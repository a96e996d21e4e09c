/** What a window shows, every window that ends at the same action and starts earlier shows too. */
module Evidence {
  import opened Graphs
  import opened Effects
  import opened Actions
  import opened Registry
  import opened RoleRegistry
  import Holonomy
  import opened Rotations
  import opened Sorting
  import FC = ForbiddenCycles

  /** The short window is the end of the long one, from position k. */
  ghost predicate IsSuffix(short: Window, long: Window, k: nat) {
    && |long.actions| == |long.effects| && k <= |long.actions|
    && short == Window(long.actions[k..], long.effects[k..])
  }

  lemma EdgesInSuffix(short: Window, long: Window, k: nat, h: Digests)
    requires IsSuffix(short, long, k)
    ensures forall e :: e in EdgesOf(short.actions, h) ==> e in EdgesOf(long.actions, h)
  {
    hide EdgeOf;
    forall e | e in EdgesOf(short.actions, h) ensures e in EdgesOf(long.actions, h) {
      var i :| 0 <= i < |short.actions| && EdgesOf(short.actions, h)[i] == e;
      assert EdgesOf(long.actions, h)[k + i] == e;
    }
  }

  /** Path dependence cannot be undone by more edges. */
  lemma HolonomyGrows(gs: Graph, gl: Graph, epsilon: nat, short: Holonomy.Report, long: Holonomy.Report)
    requires Holonomy.IsHolonomy(gs, epsilon, short) && Holonomy.IsHolonomy(gl, epsilon, long)
    requires forall e :: e in gs.edges ==> e in gl.edges
    ensures short.residuals != [] ==> long.residuals != []
  {
    hide IsWalk, Holonomy.IsReported, Explains;
    if IsPathIndependent(gl.edges) {
      forall v, walk | IsWalk(gs.edges, v, v, walk) ensures Transport(walk) == 0 {
        WalkInMore(gs.edges, gl.edges, v, v, walk);
      }
    }
  }

  lemma CycleGrows(edges: seq<Edge>, more: seq<Edge>, patterns: seq<seq<string>>, o: Obstruction)
    requires IsForbiddenCycle(edges, patterns, o) && forall e :: e in edges ==> e in more
    ensures IsForbiddenCycle(more, patterns, o)
  {
    hide CycleOf;
    var p, m :| p in patterns && FC.IsReportedCycle(edges, p, m) && o == CycleOf(p, m);
    ReportGrows(edges, more, p, m);
  }

  lemma ReportGrows(edges: seq<Edge>, more: seq<Edge>, p: seq<string>, m: seq<Digest>)
    requires FC.IsReportedCycle(edges, p, m) && forall e :: e in edges ==> e in more
    ensures FC.IsReportedCycle(more, p, m)
  {
    hide CanonicalRotation;
    var path :| FC.IsMatch(edges, p, path) && m == CanonicalRotation(AtMost, FC.Ids(path));
    assert FC.IsMatch(more, p, path);
  }

  lemma StaircaseGrows(short: Window, long: Window, k: nat, h: Digests, o: Obstruction)
    requires IsSuffix(short, long, k) && IsStaircase(short.actions, h, o)
    ensures IsStaircase(long.actions, h, o)
  {
    hide StaircaseOf, IsRead, IsEgress;
    var i: nat, j: nat :| j < |short.actions| && Climbs(short.actions, i, j)
      && o == StaircaseOf(short.actions[i], short.actions[j], h);
    assert Climbs(long.actions, k + i, k + j);
  }

  lemma {:induction false} EdgesByGrow(actions: seq<Action>, k: nat, h: Digests, actor: Producer)
    requires k <= |actions|
    ensures forall e :: e in EdgesBy(actions[k..], h, actor) ==> e in EdgesBy(actions, h, actor)
    decreases |actions|
  {
    hide EdgeOf;
    if k < |actions| {
      var n := |actions| - 1;
      EdgesByGrow(actions[..n], k, h, actor);
      assert actions[k..][..|actions[k..]| - 1] == actions[..n][k..];
    }
  }

  lemma ForkGrows(edges: seq<Edge>, more: seq<Edge>)
    requires IsFork(edges) && forall e :: e in edges ==> e in more
    ensures IsFork(more) && ForkOf(more).residual >= ForkOf(edges).residual
  {
    assert MasksOf(edges) <= MasksOf(more);
    assert Targets(edges) <= Targets(more);
    SmallerSet(Targets(edges), Targets(more));
  }

  lemma SmallerSet(a: set<Digest>, b: set<Digest>)
    requires a <= b
    ensures |a| <= |b|
  {
    assert b == a + (b - a);
  }

  lemma TridentGrows(short: Window, long: Window, k: nat, h: Digests, o: Obstruction)
    requires IsSuffix(short, long, k) && IsTrident(short.actions, h, o)
    ensures exists more :: IsTrident(long.actions, h, more) && more.kind == o.kind && more.residual >= o.residual
  {
    hide IsFork, Targets;
    var actor :| IsFork(EdgesBy(short.actions, h, actor)) && o == ForkOf(EdgesBy(short.actions, h, actor));
    EdgesByGrow(long.actions, k, h, actor);
    ForkGrows(EdgesBy(short.actions, h, actor), EdgesBy(long.actions, h, actor));
    assert IsTrident(long.actions, h, ForkOf(EdgesBy(long.actions, h, actor)));
  }

  lemma OcclusionGrows(short: Window, long: Window, k: nat, h: Digests, o: Obstruction)
    requires IsSuffix(short, long, k) && IsOcclusion(short, h, o)
    ensures IsOcclusion(long, h, o)
  {
    hide OcclusionOf;
    var i: nat :| i < |short.actions| && IsHidden(short, i) && o == OcclusionOf(short.actions[i], h);
    var target := short.actions[i].target;
    var b :| 0 <= b < i && Touches(short, b, target);
    var a :| i < a < |short.actions| && Touches(short, a, target);
    assert Touches(long, k + b, target) && Touches(long, k + a, target);
    assert IsHidden(long, k + i);
  }

  lemma SlotGrows(short: Window, long: Window, k: nat, h: Digests, maximum: nat, o: Obstruction)
    requires IsSuffix(short, long, k) && IsIpcInvalid(short.actions, h, maximum, o)
    ensures IsIpcInvalid(long.actions, h, maximum, o)
  {
    hide BadSlotOf, IsBadSlot;
    var i: nat :| i < |short.actions| && IsBadSlot(short.actions[i], maximum) && o == BadSlotOf(short.actions[i], h);
    assert long.actions[k + i] == short.actions[i];
  }

  /** Structural evidence is monotone: cycles, staircases, occlusions and slot errors of the short
      window are the same obstructions in the long one, and a path dependence or a fork of the
      short window leaves one in the long window too. */
  lemma ObstructionGrows(short: Window, long: Window, k: nat, gs: Graph, gl: Graph, h: Digests, rules: Rules,
    rs: Readings, rl: Readings, shortRows: Rows, longRows: Rows, o: Obstruction)
    requires IsSuffix(short, long, k)
    requires gs.edges == EdgesOf(short.actions, h) && gl.edges == EdgesOf(long.actions, h)
    requires IsRegistry(short, gs, h, rules, rs, shortRows) && IsRegistry(long, gl, h, rules, rl, longRows)
    requires rs.residuals != [] ==> rl.residuals != []
    requires o in shortRows && !IsThreshold(o.kind)
    ensures Lists(longRows, o.kind)
    ensures o.kind != PrivilegePenroseLoop && o.kind != TridentTaintFork ==> o in longRows
  {
    hide IsForbiddenCycle, IsStaircase, IsTrident, IsOcclusion, IsIpcInvalid, EdgesOf;
    assert IsObstruction(short, gs, h, rules, rs, o);
    EdgesInSuffix(short, long, k, h);
    match o.kind
    case PrivilegePenroseLoop =>
      var r := rl.residuals[0];
      assert IsObstruction(long, gl, h, rules, rl, PenroseOf(r, rules));
    case ForbiddenPolicyCycle =>
      CycleGrows(gs.edges, gl.edges, rules.forbidCycles, o);
    case EgressStaircase =>
      StaircaseGrows(short, long, k, h, o);
    case TridentTaintFork =>
      TridentGrows(short, long, k, h, o);
      var more :| IsTrident(long.actions, h, more) && more.kind == o.kind && more.residual >= o.residual;
      assert IsObstruction(long, gl, h, rules, rl, more);
    case CrateLogOcclusion =>
      OcclusionGrows(short, long, k, h, o);
    case IpcCardinalityInvalid =>
      SlotGrows(short, long, k, h, rules.maxIpcSlots, o);
  }

  lemma KindsGrow(short: Window, long: Window, k: nat, gs: Graph, gl: Graph, h: Digests, rules: Rules,
    rs: Readings, rl: Readings, shortRows: Rows, longRows: Rows)
    requires IsSuffix(short, long, k)
    requires gs.edges == EdgesOf(short.actions, h) && gl.edges == EdgesOf(long.actions, h)
    requires IsRegistry(short, gs, h, rules, rs, shortRows) && IsRegistry(long, gl, h, rules, rl, longRows)
    requires rs.residuals != [] ==> rl.residuals != []
    ensures forall kind :: !IsThreshold(kind) && Lists(shortRows, kind) ==> Lists(longRows, kind)
  {
    hide IsRegistry, EdgesOf;
    forall kind | !IsThreshold(kind) && Lists(shortRows, kind) ensures Lists(longRows, kind) {
      var o :| o in shortRows && o.kind == kind;
      ObstructionGrows(short, long, k, gs, gl, h, rules, rs, rl, shortRows, longRows, o);
    }
  }
}
