/** Forman curvature: the unweighted profile v1 (`build_curvature` in geometry.py) and the integer
    weighted profile v2 (`build_forman_curvature_v2` in geometry_profile_v2_policy.py). */
module Forman {
  import opened Graphs
  import opened Outcomes
  import opened Integers
  import Json

  const MAX_WEIGHT := 1_000_000

  datatype Policy = Policy(weighted: bool, weightMap: map<string, nat>, maxAbs: nat, maxWindowL1: nat)

  datatype Entry = Entry(edge: Digest, weight: int, forman: int, quantized: int)

  datatype Report = Report(entries: seq<Entry>, windowL1: nat, absTrips: seq<Digest>, windowL1Trip: bool,
    trips: set<Digest>, ok: bool)

  function Abs(n: int): (r: nat)
    ensures n <= r && -n <= r && (r == n || r == -n)
  {
    if n < 0 then -n else n
  }

  // ---------- weights, degrees and curvature ----------

  predicate IsWeighed(e: Edge, p: Policy) {
    p.weighted ==> e.operation in p.weightMap
  }

  function Weight(e: Edge, p: Policy): int
    requires IsWeighed(e, p)
  {
    if p.weighted then p.weightMap[e.operation] else 1
  }

  /** How many ends of e lie at v: a loop counts twice. */
  function Incidence(e: Edge, v: Digest): nat {
    (if e.source == v then 1 else 0) + (if e.target == v then 1 else 0)
  }

  predicate AreWeighed(edges: seq<Edge>, p: Policy) {
    forall e :: e in edges ==> IsWeighed(e, p)
  }

  /** The sum of the weights of incident edge ends. */
  function WeightedDegree(edges: seq<Edge>, p: Policy, v: Digest): int
    requires AreWeighed(edges, p)
  {
    if edges == [] then 0
    else
      var k := |edges| - 1;
      WeightedDegree(edges[..k], p, v) + Mul(Weight(edges[k], p), Incidence(edges[k], v))
  }

  /** The curvature of e in the whole window: 4w(e) - d(u) - d(v). */
  function Curvature(edges: seq<Edge>, p: Policy, e: Edge): int
    requires AreWeighed(edges, p) && IsWeighed(e, p)
  {
    4 * Weight(e, p) - WeightedDegree(edges, p, e.source) - WeightedDegree(edges, p, e.target)
  }

  function EntryOf(edges: seq<Edge>, p: Policy, scale: nat, e: Edge): Entry
    requires AreWeighed(edges, p) && IsWeighed(e, p)
  {
    var forman := Curvature(edges, p, e);
    Entry(e.id, Weight(e, p), forman, forman * scale)
  }

  /** The sum of absolute curvatures over some of the edges of the window. */
  function AbsoluteSum(edges: seq<Edge>, p: Policy, some: seq<Edge>): nat
    requires AreWeighed(edges, p) && AreWeighed(some, p)
  {
    if some == [] then 0
    else
      var k := |some| - 1;
      AbsoluteSum(edges, p, some[..k]) + Abs(Curvature(edges, p, some[k]))
  }

  // ---------- profile v2 ----------

  ghost predicate AreDegrees(degree: map<Digest, int>, vertices: seq<Digest>, edges: seq<Edge>, p: Policy) {
    && AreWeighed(edges, p)
    && (forall v :: v in degree <==> v in vertices)
    && forall v :: v in degree ==> degree[v] == WeightedDegree(edges, p, v)
  }

  lemma DegreesStep(degree: map<Digest, int>, vertices: seq<Digest>, edges: seq<Edge>, e: Edge, p: Policy)
    requires AreDegrees(degree, vertices, edges, p) && IsWeighed(e, p)
    requires e.source in vertices && e.target in vertices
    ensures var w := Weight(e, p);
      var once := degree[e.source := degree[e.source] + w];
      AreDegrees(if e.source == e.target then degree[e.source := degree[e.source] + 2 * w]
        else once[e.target := once[e.target] + w], vertices, edges + [e], p)
  {
    hide Mul, Weight;
    var longer := edges + [e];
    assert longer[..|edges|] == edges;
    assert AreWeighed(longer, p);
    var w := Weight(e, p);
    Multiples(w);
    forall v | v in degree
      ensures WeightedDegree(longer, p, v) == WeightedDegree(edges, p, v) + Mul(w, Incidence(e, v))
    {
    }
  }

  lemma Multiples(w: int)
    ensures Mul(w, 0) == 0 && Mul(w, 1) == w && Mul(w, 2) == 2 * w
  {
  }

  ghost predicate IsCurvature(g: Graph, p: Policy, scale: nat, report: Report) {
    && AreWeighed(g.edges, p)
    && |report.entries| == |g.edges|
    && (forall i :: 0 <= i < |g.edges| ==> report.entries[i] == EntryOf(g.edges, p, scale, g.edges[i]))
    && report.windowL1 == AbsoluteSum(g.edges, p, g.edges)
    // an edge trips just when its own bound is exceeded, and the window when the sum is
    && (forall id :: id in report.absTrips <==>
      exists e :: e in g.edges && e.id == id && Abs(Curvature(g.edges, p, e)) > p.maxAbs)
    && (report.windowL1Trip <==> report.windowL1 > p.maxWindowL1)
    && report.trips == (if report.windowL1Trip then AllIds(g.edges) else set id | id in report.absTrips)
    && (report.ok <==>
      (report.windowL1 <= p.maxWindowL1 && forall e :: e in g.edges ==> Abs(Curvature(g.edges, p, e)) <= p.maxAbs))
  }

  function AllIds(edges: seq<Edge>): set<Digest> {
    set e | e in edges :: e.id
  }

  method BuildWeightedDegrees(g: Graph, p: Policy) returns (result: Result<map<Digest, int>>)
    requires IsGraph(g)
    ensures result.Success? <==> AreWeighed(g.edges, p)
    ensures result.Success? ==> AreDegrees(result.value, g.vertices, g.edges, p)
    ensures result.Failure? ==> result.error == FormanWeightMissing
  {
    hide Mul, Weight, AreDegrees, WeightedDegree;
    var degree: map<Digest, int> := map v | v in g.vertices :: 0;
    NoDegrees(degree, g.vertices, p);
    for index := 0 to |g.edges|
      invariant forall i :: 0 <= i < index ==> IsWeighed(g.edges[i], p)
      invariant AreDegrees(degree, g.vertices, g.edges[..index], p)
    {
      var edge := g.edges[index];
      assert edge in g.edges && g.edges[..index + 1] == g.edges[..index] + [edge];
      if p.weighted && edge.operation !in p.weightMap {
        return Failure(FormanWeightMissing);
      }
      var weight := Weight(edge, p);
      DegreeKeys(degree, g.vertices, g.edges[..index], p);
      DegreesStep(degree, g.vertices, g.edges[..index], edge, p);
      if edge.source == edge.target {
        degree := degree[edge.source := degree[edge.source] + 2 * weight];
      } else {
        degree := degree[edge.source := degree[edge.source] + weight];
        degree := degree[edge.target := degree[edge.target] + weight];
      }
    }
    assert g.edges[..|g.edges|] == g.edges;
    result := Success(degree);
  }

  lemma NoDegrees(degree: map<Digest, int>, vertices: seq<Digest>, p: Policy)
    requires forall v :: v in degree <==> v in vertices
    requires forall v :: v in degree ==> degree[v] == 0
    ensures AreDegrees(degree, vertices, [], p)
  {
  }

  lemma DegreeKeys(degree: map<Digest, int>, vertices: seq<Digest>, edges: seq<Edge>, p: Policy)
    requires AreDegrees(degree, vertices, edges, p)
    ensures forall v :: v in degree <==> v in vertices
    ensures AreWeighed(edges, p) && forall v :: v in degree ==> degree[v] == WeightedDegree(edges, p, v)
  {
  }

  /** `build_forman_curvature_v2`.  Rows are listed in the order of the edges; the source sorts
      them by digest afterwards. */
  method BuildCurvature(g: Graph, p: Policy, scale: nat) returns (result: Result<Report>)
    requires IsGraph(g)
    ensures result.Success? <==> AreWeighed(g.edges, p)
    ensures result.Failure? ==> result.error == FormanWeightMissing
    ensures result.Success? ==> IsCurvature(g, p, scale, result.value)
  {
    hide Mul, Weight, AreDegrees, WeightedDegree, AbsoluteSum, Curvature, IsGraph;
    var degrees := BuildWeightedDegrees(g, p);
    if degrees.Failure? {
      return Failure(degrees.error);
    }
    var degree := degrees.value;
    assert AbsoluteSum(g.edges, p, g.edges[..0]) == 0 by { NothingSummed(g.edges, p); }
    var entries: seq<Entry> := [];
    var absTrips: seq<Digest> := [];
    var windowL1: nat := 0;
    for index := 0 to |g.edges|
      invariant |entries| == index
      invariant forall i :: 0 <= i < index ==> entries[i] == EntryOf(g.edges, p, scale, g.edges[i])
      invariant windowL1 == AbsoluteSum(g.edges, p, g.edges[..index])
      invariant forall id :: id in absTrips <==>
        exists i :: 0 <= i < index && g.edges[i].id == id && Abs(Curvature(g.edges, p, g.edges[i])) > p.maxAbs
    {
      var edge := g.edges[index];
      WeighedCurvature(degree, g, p, index);
      var weight := Weight(edge, p);
      var curvature := 4 * weight - degree[edge.source] - degree[edge.target];
      var absolute := Abs(curvature);
      AbsoluteStep(g.edges, p, index);
      windowL1 := windowL1 + absolute;
      if absolute > p.maxAbs {
        absTrips := absTrips + [edge.id];
      }
      entries := entries + [Entry(edge.id, weight, curvature, curvature * scale)];
    }
    assert g.edges[..|g.edges|] == g.edges;
    var windowL1Trip := windowL1 > p.maxWindowL1;
    var ok := absTrips == [] && !windowL1Trip;
    TripsByElement(g, p, absTrips);
    var trips := set id | id in absTrips;
    if windowL1Trip {
      trips := trips + AllIds(g.edges);
      assert trips == AllIds(g.edges);
    }
    result := Success(Report(entries, windowL1, absTrips, windowL1Trip, trips, ok));
  }

  lemma WeighedCurvature(degree: map<Digest, int>, g: Graph, p: Policy, index: nat)
    requires IsGraph(g) && AreDegrees(degree, g.vertices, g.edges, p) && index < |g.edges|
    ensures var edge := g.edges[index];
      && edge.source in degree && edge.target in degree && IsWeighed(edge, p) && AreWeighed(g.edges, p)
      && 4 * Weight(edge, p) - degree[edge.source] - degree[edge.target] == Curvature(g.edges, p, edge)
  {
    hide WeightedDegree, Weight;
    assert g.edges[index] in g.edges;
  }

  lemma NothingSummed(edges: seq<Edge>, p: Policy)
    requires AreWeighed(edges, p)
    ensures AbsoluteSum(edges, p, edges[..0]) == 0
  {
  }

  lemma AbsoluteStep(edges: seq<Edge>, p: Policy, k: nat)
    requires AreWeighed(edges, p) && k < |edges|
    ensures AbsoluteSum(edges, p, edges[..k + 1])
         == AbsoluteSum(edges, p, edges[..k]) + Abs(Curvature(edges, p, edges[k]))
  {
    assert edges[..k + 1][..k] == edges[..k];
  }

  lemma TripsByElement(g: Graph, p: Policy, trips: seq<Digest>)
    requires AreWeighed(g.edges, p)
    requires forall id :: id in trips <==>
      exists i :: 0 <= i < |g.edges| && g.edges[i].id == id && Abs(Curvature(g.edges, p, g.edges[i])) > p.maxAbs
    ensures forall id :: id in trips <==>
      exists e :: e in g.edges && e.id == id && Abs(Curvature(g.edges, p, e)) > p.maxAbs
    ensures (trips == []) <==> (forall e :: e in g.edges ==> Abs(Curvature(g.edges, p, e)) <= p.maxAbs)
    ensures forall id :: id in trips ==> id in AllIds(g.edges)
  {
    hide Mul, Weight, WeightedDegree, Curvature;
    forall e | e in g.edges && Abs(Curvature(g.edges, p, e)) > p.maxAbs ensures e.id in trips {
      var i :| 0 <= i < |g.edges| && g.edges[i] == e;
    }
    if trips != [] {
      assert trips[0] in trips;
    }
  }

  // ---------- profile v1 ----------

  function Degree(edges: seq<Edge>, v: Digest): nat {
    if edges == [] then 0
    else
      var k := |edges| - 1;
      Degree(edges[..k], v) + Incidence(edges[k], v)
  }

  function PlainCurvature(edges: seq<Edge>, e: Edge): int {
    4 - Degree(edges, e.source) - Degree(edges, e.target)
  }

  datatype PlainReport = PlainReport(entries: seq<(Digest, int, int)>, trips: seq<Digest>, ok: bool)

  ghost predicate IsPlainCurvature(g: Graph, scale: nat, maxAbs: nat, report: PlainReport) {
    && |report.entries| == |g.edges|
    && (forall i :: 0 <= i < |g.edges| ==>
      var forman := PlainCurvature(g.edges, g.edges[i]);
      report.entries[i] == (g.edges[i].id, forman, forman * scale))
    && (forall id :: id in report.trips <==>
      exists e :: e in g.edges && e.id == id && Abs(PlainCurvature(g.edges, e)) > maxAbs)
    && (report.ok <==> (forall e :: e in g.edges ==> Abs(PlainCurvature(g.edges, e)) <= maxAbs))
  }

  ghost predicate AreCounts(degree: map<Digest, int>, vertices: seq<Digest>, edges: seq<Edge>) {
    && (forall v :: v in degree <==> v in vertices)
    && forall v :: v in degree ==> degree[v] == Degree(edges, v)
  }

  lemma CountsStep(degree: map<Digest, int>, vertices: seq<Digest>, edges: seq<Edge>, e: Edge)
    requires AreCounts(degree, vertices, edges) && e.source in vertices && e.target in vertices
    ensures e.source in degree && e.target in degree
    ensures var once := degree[e.source := degree[e.source] + 1];
      AreCounts(if e.source == e.target then degree[e.source := degree[e.source] + 2]
        else once[e.target := once[e.target] + 1], vertices, edges + [e])
  {
    var longer := edges + [e];
    assert longer[..|edges|] == edges;
    forall v ensures Degree(longer, v) == Degree(edges, v) + Incidence(e, v) {
    }
  }

  method CountDegrees(g: Graph) returns (degree: map<Digest, int>)
    requires IsGraph(g)
    ensures AreCounts(degree, g.vertices, g.edges)
  {
    hide AreCounts, Degree;
    degree := map v | v in g.vertices :: 0;
    assert AreCounts(degree, g.vertices, g.edges[..0]) by { NothingCounted(degree, g.vertices, g.edges); }
    for index := 0 to |g.edges|
      invariant AreCounts(degree, g.vertices, g.edges[..index])
    {
      var edge := g.edges[index];
      assert edge in g.edges && g.edges[..index + 1] == g.edges[..index] + [edge];
      CountsStep(degree, g.vertices, g.edges[..index], edge);
      if edge.source == edge.target {
        degree := degree[edge.source := degree[edge.source] + 2];
      } else {
        degree := degree[edge.source := degree[edge.source] + 1];
        degree := degree[edge.target := degree[edge.target] + 1];
      }
    }
    assert g.edges[..|g.edges|] == g.edges;
  }

  lemma NothingCounted(degree: map<Digest, int>, vertices: seq<Digest>, edges: seq<Edge>)
    requires forall v :: v in degree <==> v in vertices
    requires forall v :: v in degree ==> degree[v] == 0
    ensures AreCounts(degree, vertices, edges[..0])
  {
  }

  lemma CountedCurvature(degree: map<Digest, int>, g: Graph, index: nat)
    requires IsGraph(g) && AreCounts(degree, g.vertices, g.edges) && index < |g.edges|
    ensures var edge := g.edges[index];
      && edge.source in degree && edge.target in degree
      && 4 - degree[edge.source] - degree[edge.target] == PlainCurvature(g.edges, edge)
  {
    hide Degree;
    assert g.edges[index] in g.edges;
  }

  /** `build_curvature`: degrees by counting, then one entry an edge. */
  method BuildPlainCurvature(g: Graph, scale: nat, maxAbs: nat) returns (report: PlainReport)
    requires IsGraph(g)
    ensures IsPlainCurvature(g, scale, maxAbs, report)
  {
    hide AreCounts, PlainCurvature, IsGraph;
    var degree := CountDegrees(g);
    var entries: seq<(Digest, int, int)> := [];
    var trips: seq<Digest> := [];
    for index := 0 to |g.edges|
      invariant |entries| == index
      invariant forall i :: 0 <= i < index ==>
        var forman := PlainCurvature(g.edges, g.edges[i]);
        entries[i] == (g.edges[i].id, forman, forman * scale)
      invariant forall id :: id in trips <==>
        exists i :: 0 <= i < index && g.edges[i].id == id && Abs(PlainCurvature(g.edges, g.edges[i])) > maxAbs
    {
      var edge := g.edges[index];
      CountedCurvature(degree, g, index);
      var curvature := 4 - degree[edge.source] - degree[edge.target];
      if Abs(curvature) > maxAbs {
        trips := trips + [edge.id];
      }
      entries := entries + [(edge.id, curvature, curvature * scale)];
    }
    PlainTrips(g, maxAbs, trips);
    report := PlainReport(entries, trips, trips == []);
  }

  lemma PlainTrips(g: Graph, maxAbs: nat, trips: seq<Digest>)
    requires forall id :: id in trips <==>
      exists i :: 0 <= i < |g.edges| && g.edges[i].id == id && Abs(PlainCurvature(g.edges, g.edges[i])) > maxAbs
    ensures forall id :: id in trips <==>
      exists e :: e in g.edges && e.id == id && Abs(PlainCurvature(g.edges, e)) > maxAbs
    ensures (trips == []) <==> (forall e :: e in g.edges ==> Abs(PlainCurvature(g.edges, e)) <= maxAbs)
  {
    hide PlainCurvature;
    forall e | e in g.edges && Abs(PlainCurvature(g.edges, e)) > maxAbs ensures e.id in trips {
      var i :| 0 <= i < |g.edges| && g.edges[i] == e;
    }
    if trips != [] {
      assert trips[0] in trips;
    }
  }

  // ---------- laws ----------

  lemma {:induction false} UnweightedDegree(edges: seq<Edge>, p: Policy, v: Digest)
    requires !p.weighted
    ensures AreWeighed(edges, p) && WeightedDegree(edges, p, v) == Degree(edges, v)
  {
    hide Mul;
    if edges != [] {
      UnweightedDegree(edges[..|edges| - 1], p, v);
      MulUnits(Incidence(edges[|edges| - 1], v));
    }
  }

  /** Unweighted mode is profile v1, edge by edge. */
  lemma UnweightedIsPlain(edges: seq<Edge>, p: Policy, e: Edge)
    requires !p.weighted && e in edges
    ensures AreWeighed(edges, p) && Curvature(edges, p, e) == PlainCurvature(edges, e)
  {
    hide WeightedDegree, Degree;
    UnweightedDegree(edges, p, e.source);
    UnweightedDegree(edges, p, e.target);
  }

  /** Both profiles judge an unweighted window alike when only the edge bound matters. */
  lemma UnweightedSameVerdict(g: Graph, p: Policy, scale: nat, report: Report, plain: PlainReport)
    requires !p.weighted && IsCurvature(g, p, scale, report) && IsPlainCurvature(g, scale, p.maxAbs, plain)
    ensures report.ok <==> (plain.ok && report.windowL1 <= p.maxWindowL1)
    ensures forall id :: id in report.absTrips <==> id in plain.trips
    ensures forall i :: 0 <= i < |g.edges| ==>
      plain.entries[i] == (report.entries[i].edge, report.entries[i].forman, report.entries[i].quantized)
  {
    hide WeightedDegree, Degree, AbsoluteSum;
    forall e | e in g.edges ensures Curvature(g.edges, p, e) == PlainCurvature(g.edges, e) {
      UnweightedIsPlain(g.edges, p, e);
    }
    hide Curvature, PlainCurvature;
    forall i | 0 <= i < |g.edges| ensures g.edges[i] in g.edges {}
  }

  /** Sum of f(v) over a list, for f(v) the incidence of e times a degree. */
  function VertexTerms(edges: seq<Edge>, p: Policy, some: seq<Edge>, vertices: seq<Digest>): (t: seq<int>)
    requires AreWeighed(edges, p)
    ensures |t| == |vertices|
  {
    seq(|vertices|, i requires 0 <= i < |vertices| =>
      Mul(Degree(some, vertices[i]), WeightedDegree(edges, p, vertices[i])))
  }

  function EdgeTerms(edges: seq<Edge>, p: Policy, e: Edge, vertices: seq<Digest>): (t: seq<int>)
    requires AreWeighed(edges, p)
    ensures |t| == |vertices|
  {
    seq(|vertices|, i requires 0 <= i < |vertices| =>
      Mul(Incidence(e, vertices[i]), WeightedDegree(edges, p, vertices[i])))
  }

  /** The incidence of one edge picks out the degrees of its two ends. */
  lemma EndsOfEdge(edges: seq<Edge>, p: Policy, e: Edge, vertices: seq<Digest>)
    requires AreWeighed(edges, p) && e.source in vertices && e.target in vertices
    requires forall i, j :: 0 <= i < j < |vertices| ==> vertices[i] < vertices[j]
    ensures Total(EdgeTerms(edges, p, e, vertices))
         == WeightedDegree(edges, p, e.source) + WeightedDegree(edges, p, e.target)
  {
    hide Mul, WeightedDegree;
    var n, t := |vertices|, EdgeTerms(edges, p, e, vertices);
    var i :| 0 <= i < n && vertices[i] == e.source;
    var j :| 0 <= j < n && vertices[j] == e.target;
    var first := seq(n, k requires 0 <= k < n => if k == i then WeightedDegree(edges, p, e.source) else 0);
    var second := seq(n, k requires 0 <= k < n => if k == j then WeightedDegree(edges, p, e.target) else 0);
    forall k | 0 <= k < n ensures t[k] == first[k] + second[k] {
      var w := WeightedDegree(edges, p, vertices[k]);
      MulUnits(w);
      MulDistributes(w, 1, 1);
      assert vertices[k] == e.source <==> k == i;
      assert vertices[k] == e.target <==> k == j;
    }
    TotalAdds(first, second, t);
    TotalPicks(first, i);
    TotalPicks(second, j);
  }

  function TotalCurvature(edges: seq<Edge>, p: Policy, some: seq<Edge>): int
    requires AreWeighed(edges, p) && AreWeighed(some, p)
  {
    if some == [] then 0
    else
      var k := |some| - 1;
      TotalCurvature(edges, p, some[..k]) + Curvature(edges, p, some[k])
  }

  function TotalWeight(p: Policy, some: seq<Edge>): int
    requires AreWeighed(some, p)
  {
    if some == [] then 0
    else
      var k := |some| - 1;
      TotalWeight(p, some[..k]) + Weight(some[k], p)
  }

  lemma {:induction false} PartialConservation(g: Graph, p: Policy, k: nat)
    requires IsGraph(g) && AreWeighed(g.edges, p) && k <= |g.edges|
    ensures TotalCurvature(g.edges, p, g.edges[..k])
         == 4 * TotalWeight(p, g.edges[..k]) - Total(VertexTerms(g.edges, p, g.edges[..k], g.vertices))
  {
    hide Mul, WeightedDegree, Weight;
    if k == 0 {
      forall i | 0 <= i < |g.vertices| ensures VertexTerms(g.edges, p, [], g.vertices)[i] == 0 {
        MulUnits(WeightedDegree(g.edges, p, g.vertices[i]));
      }
      TotalZero(VertexTerms(g.edges, p, [], g.vertices));
    } else {
      PartialConservation(g, p, k - 1);
      var e := g.edges[k - 1];
      assert e in g.edges && g.edges[..k][..k - 1] == g.edges[..k - 1];
      var before, after := VertexTerms(g.edges, p, g.edges[..k - 1], g.vertices), VertexTerms(g.edges, p, g.edges[..k], g.vertices);
      forall i | 0 <= i < |g.vertices| ensures after[i] == before[i] + EdgeTerms(g.edges, p, e, g.vertices)[i] {
        var v := g.vertices[i];
        MulDistributes(WeightedDegree(g.edges, p, v), Degree(g.edges[..k - 1], v), Incidence(e, v));
      }
      TotalAdds(before, EdgeTerms(g.edges, p, e, g.vertices), after);
      EndsOfEdge(g.edges, p, e, g.vertices);
    }
  }

  /** Forman conservation: over a window the curvatures add up to four times the weights less,
      for every vertex, its number of edge ends times its weighted degree. */
  lemma Conservation(g: Graph, p: Policy)
    requires IsGraph(g) && AreWeighed(g.edges, p)
    ensures TotalCurvature(g.edges, p, g.edges)
         == 4 * TotalWeight(p, g.edges) - Total(VertexTerms(g.edges, p, g.edges, g.vertices))
  {
    PartialConservation(g, p, |g.edges|);
    assert g.edges[..|g.edges|] == g.edges;
  }

  // ---------- every emitted integer is a safe integer ----------

  /** The bounds that `normalize_geometry_policy_v2` puts on weights. */
  ghost predicate IsLegal(p: Policy) {
    forall name :: name in p.weightMap ==> 1 <= p.weightMap[name] <= MAX_WEIGHT
  }

  lemma {:induction false} DegreeIsSmall(edges: seq<Edge>, p: Policy, v: Digest)
    requires AreWeighed(edges, p) && IsLegal(p)
    ensures 0 <= WeightedDegree(edges, p, v) <= 2 * MAX_WEIGHT * |edges|
  {
    hide Mul;
    if edges != [] {
      var k := |edges| - 1;
      DegreeIsSmall(edges[..k], p, v);
      Multiples(Weight(edges[k], p));
    }
  }

  lemma {:induction false} SumIsSmall(edges: seq<Edge>, p: Policy, some: seq<Edge>)
    requires AreWeighed(edges, p) && AreWeighed(some, p) && IsLegal(p)
    ensures AbsoluteSum(edges, p, some) <= (4 * MAX_WEIGHT + 4 * MAX_WEIGHT * |edges|) * |some|
  {
    hide Mul, WeightedDegree;
    if some != [] {
      var k := |some| - 1;
      SumIsSmall(edges, p, some[..k]);
      DegreeIsSmall(edges, p, some[k].source);
      DegreeIsSmall(edges, p, some[k].target);
      var bound := 4 * MAX_WEIGHT + 4 * MAX_WEIGHT * |edges|;
      assert Abs(Curvature(edges, p, some[k])) <= bound;
      assert bound * |some| == bound * k + bound;
    }
  }

  /** For legal policies and windows of at most 32 edges nothing leaves the safe range. */
  lemma SafeIntegers(g: Graph, p: Policy, scale: nat, report: Report)
    requires IsCurvature(g, p, scale, report) && IsLegal(p) && |g.edges| <= 32 && scale <= 64
    ensures report.windowL1 <= Json.MAX_SAFE_INTEGER
    ensures forall i :: 0 <= i < |report.entries| ==>
      && Abs(report.entries[i].weight) <= Json.MAX_SAFE_INTEGER
      && Abs(report.entries[i].forman) <= Json.MAX_SAFE_INTEGER
      && Abs(report.entries[i].quantized) <= Json.MAX_SAFE_INTEGER
  {
    hide Mul, WeightedDegree, AbsoluteSum;
    SumIsSmall(g.edges, p, g.edges);
    WindowBound(|g.edges|);
    forall i | 0 <= i < |report.entries|
      ensures Abs(report.entries[i].weight) <= MAX_WEIGHT
      ensures Abs(report.entries[i].forman) <= 132 * MAX_WEIGHT
      ensures Abs(report.entries[i].quantized) <= 8448 * MAX_WEIGHT
    {
      var e := g.edges[i];
      assert e in g.edges;
      DegreeIsSmall(g.edges, p, e.source);
      DegreeIsSmall(g.edges, p, e.target);
      QuantizedBound(Curvature(g.edges, p, e), scale);
    }
  }

  lemma WindowBound(n: nat)
    requires n <= 32
    ensures (4 * MAX_WEIGHT + 4 * MAX_WEIGHT * n) * n <= 132 * MAX_WEIGHT * 32
  {
    var bound := 4 * MAX_WEIGHT + 4 * MAX_WEIGHT * n;
    assert bound <= 132 * MAX_WEIGHT;
    assert bound * n <= bound * 32;
  }

  lemma QuantizedBound(forman: int, scale: nat)
    requires Abs(forman) <= 132 * MAX_WEIGHT && scale <= 64
    ensures Abs(forman * scale) <= 8448 * MAX_WEIGHT
  {
    assert -64 * 132 * MAX_WEIGHT <= forman * scale <= 64 * 132 * MAX_WEIGHT;
  }

  // ---------- the reports written out ----------

  /** The weight of an edge for a policy, written out. */
  ghost function WeightIn(e: Edge, p: Policy): int {
    if p.weighted && e.operation in p.weightMap then p.weightMap[e.operation] else 1
  }

  /** For each edge, its weight as often as it meets v. */
  ghost function Meetings(edges: seq<Edge>, p: Policy, v: Digest): (t: seq<int>)
    ensures |t| == |edges|
  {
    seq(|edges|, i requires 0 <= i < |edges| =>
      (if edges[i].source == v then WeightIn(edges[i], p) else 0) + (if edges[i].target == v then WeightIn(edges[i], p) else 0))
  }

  lemma {:induction false} DegreeIsTotal(edges: seq<Edge>, p: Policy, v: Digest)
    requires AreWeighed(edges, p)
    ensures WeightedDegree(edges, p, v) == Total(Meetings(edges, p, v))
  {
    if edges != [] {
      var k := |edges| - 1;
      DegreeIsTotal(edges[..k], p, v);
      assert Meetings(edges, p, v)[..k] == Meetings(edges[..k], p, v);
      Multiples(Weight(edges[k], p));
    }
  }

  ghost function Absolutes(entries: seq<Entry>): (t: seq<int>)
    ensures |t| == |entries|
  {
    seq(|entries|, i requires 0 <= i < |entries| => if entries[i].forman >= 0 then entries[i].forman else -entries[i].forman)
  }

  lemma {:induction false} SumIsTotal(edges: seq<Edge>, p: Policy, scale: nat, entries: seq<Entry>, k: nat)
    requires AreWeighed(edges, p) && k <= |edges| == |entries|
    requires forall i :: 0 <= i < |edges| ==> entries[i] == EntryOf(edges, p, scale, edges[i])
    ensures AbsoluteSum(edges, p, edges[..k]) == Total(Absolutes(entries)[..k])
  {
    hide Weight, WeightedDegree;
    if k > 0 {
      SumIsTotal(edges, p, scale, entries, k - 1);
      assert edges[..k][..k - 1] == edges[..k - 1];
      assert Absolutes(entries)[..k][..k - 1] == Absolutes(entries)[..k - 1];
    }
  }

  /** A report of profile v2, number by number: four times the weight of the edge, less the weights that
      meet either end; the scaled number; and the sum of the absolute values. */
  lemma ReportMeans(g: Graph, p: Policy, scale: nat, report: Report)
    requires IsCurvature(g, p, scale, report)
    ensures |report.entries| == |g.edges|
    ensures forall i :: 0 <= i < |g.edges| ==>
      var e, entry := g.edges[i], report.entries[i];
      && entry.edge == e.id && entry.weight == WeightIn(e, p) && entry.quantized == entry.forman * scale
      && entry.forman == 4 * WeightIn(e, p) - Total(Meetings(g.edges, p, e.source)) - Total(Meetings(g.edges, p, e.target))
    ensures report.windowL1 == Total(Absolutes(report.entries))
  {
    forall v ensures WeightedDegree(g.edges, p, v) == Total(Meetings(g.edges, p, v)) {
      DegreeIsTotal(g.edges, p, v);
    }
    SumIsTotal(g.edges, p, scale, report.entries, |g.edges|);
    assert g.edges[..|g.edges|] == g.edges && Absolutes(report.entries)[..|g.edges|] == Absolutes(report.entries);
    hide Meetings, Absolutes, WeightedDegree, AbsoluteSum;
    forall i | 0 <= i < |g.edges| ensures g.edges[i] in g.edges {
    }
  }
}
