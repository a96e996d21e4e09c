/** The bounded search for forbidden labelled cycles (`_matching_cycles` in geometry.py). */
module ForbiddenCycles {
  import opened Graphs
  import opened Outcomes
  import opened Rotations
  import opened Sorting

  const MAX_CYCLE_SEARCH_STEPS := 100_000

  type Adjacency = map<Digest, seq<Edge>>

  // ---------- what is searched for ----------

  function Ids(path: seq<Edge>): (ids: seq<Digest>)
    ensures |ids| == |path|
    ensures forall i :: 0 <= i < |path| ==> ids[i] == path[i].id
  {
    seq(|path|, i requires 0 <= i < |path| => path[i].id)
  }

  /** A directed cycle without a repeated vertex whose operations spell the pattern. */
  ghost predicate IsMatch(edges: seq<Edge>, pattern: seq<string>, path: seq<Edge>) {
    && |path| == |pattern| >= 1
    && (forall i :: 0 <= i < |path| ==> path[i] in edges && path[i].operation == pattern[i])
    && (forall i :: 0 < i < |path| ==> path[i].source == path[i - 1].target)
    && path[|path| - 1].target == path[0].source
    && (forall i, j :: 0 <= i < j < |path| ==> path[i].source != path[j].source)
  }

  /** A cycle is reported by the least rotation of its edge digests. */
  ghost predicate IsReportedCycle(edges: seq<Edge>, pattern: seq<string>, m: seq<Digest>) {
    exists path :: IsMatch(edges, pattern, path) && m == CanonicalRotation(AtMost, Ids(path))
  }

  // ---------- partial paths ----------

  ghost function Sources(path: seq<Edge>): set<Digest> {
    set e | e in path :: e.source
  }

  function Current(start: Digest, path: seq<Edge>): Digest {
    if path == [] then start else path[|path| - 1].target
  }

  /** A path the search may be following; only a complete one may return to its start. */
  ghost predicate IsPartial(edges: seq<Edge>, pattern: seq<string>, start: Digest, path: seq<Edge>) {
    && |path| <= |pattern|
    && (forall i :: 0 <= i < |path| ==> path[i] in edges && path[i].operation == pattern[i])
    && (forall i :: 0 < i < |path| ==> path[i].source == path[i - 1].target)
    && (path != [] ==> path[0].source == start)
    && (forall i, j :: 0 <= i < j < |path| ==> path[i].source != path[j].source)
    && (|path| < |pattern| ==> Current(start, path) !in Sources(path))
  }

  ghost predicate Completes(edges: seq<Edge>, pattern: seq<string>, start: Digest, path: seq<Edge>, full: seq<Edge>) {
    IsMatch(edges, pattern, full) && full[0].source == start && path <= full
  }

  /** m is the report of some cycle that extends the path. */
  ghost predicate Found(edges: seq<Edge>, pattern: seq<string>, start: Digest, path: seq<Edge>, m: seq<Digest>) {
    exists full :: Completes(edges, pattern, start, path, full) && m == CanonicalRotation(AtMost, Ids(full))
  }

  /** The guard of the loop body: whether the search goes on through e. */
  predicate Follows(pattern: seq<string>, start: Digest, e: Edge, offset: nat, visited: set<Digest>)
    requires offset < |pattern|
  {
    e.operation == pattern[offset] && !(e.target in visited && !(offset + 1 == |pattern| && e.target == start))
  }

  /** In terms of the path so far: an edge follows if it has the operation that is due and leads to a
      vertex that the path has not left from, or, as the last edge, back to the start. */
  lemma FollowsMeans(edges: seq<Edge>, pattern: seq<string>, start: Digest, path: seq<Edge>, e: Edge, visited: set<Digest>)
    requires |path| < |pattern| && e.source == Current(start, path)
    requires visited == Sources(path) + {Current(start, path)}
    ensures Follows(pattern, start, e, |path|, visited) <==>
      e.operation == pattern[|path|]
      && ((forall f :: f in path + [e] ==> f.source != e.target) || (|path + [e]| == |pattern| && e.target == start))
  {
    assert forall f :: f in path + [e] <==> f in path || f == e;
  }

  lemma FollowingIsPartial(edges: seq<Edge>, pattern: seq<string>, start: Digest, path: seq<Edge>, e: Edge, visited: set<Digest>)
    requires IsPartial(edges, pattern, start, path) && |path| < |pattern|
    requires e in edges && e.source == Current(start, path)
    requires visited == Sources(path) + {Current(start, path)}
    requires Follows(pattern, start, e, |path|, visited)
    ensures IsPartial(edges, pattern, start, path + [e])
    ensures |path| + 1 < |pattern| ==> visited + {e.target} == Sources(path + [e]) + {e.target}
  {
    var longer := path + [e];
    assert Sources(longer) == Sources(path) + {e.source};
  }

  /** A cycle that extends the path goes on through an edge the search follows. */
  lemma CompletionFollows(edges: seq<Edge>, pattern: seq<string>, start: Digest, path: seq<Edge>, full: seq<Edge>, visited: set<Digest>)
    requires IsPartial(edges, pattern, start, path) && |path| < |pattern|
    requires visited == Sources(path) + {Current(start, path)}
    requires Completes(edges, pattern, start, path, full)
    ensures var e := full[|path|];
      && e in edges && e.source == Current(start, path)
      && Follows(pattern, start, e, |path|, visited)
      && Completes(edges, pattern, start, path + [e], full)
  {
    var n, e := |path|, full[|path|];
    assert path == full[..n] && path + [e] == full[..n + 1];
    if n + 1 < |pattern| {
      assert e.target == full[n + 1].source;
      forall d | d in path ensures d.source != e.target {
        var i :| 0 <= i < n && path[i] == d;
        assert full[i].source != full[n + 1].source;
      }
      assert full[n].source != full[n + 1].source;
      assert e.target !in visited;
    }
  }

  lemma CompletePath(edges: seq<Edge>, pattern: seq<string>, start: Digest, path: seq<Edge>)
    requires IsPartial(edges, pattern, start, path) && |path| == |pattern| >= 1
    ensures forall m :: Found(edges, pattern, start, path, m) <==>
      (Current(start, path) == start && m == CanonicalRotation(AtMost, Ids(path)))
  {
    hide CanonicalRotation;
    if Current(start, path) == start {
      assert Completes(edges, pattern, start, path, path);
    }
    forall full | Completes(edges, pattern, start, path, full) ensures full == path {
    }
  }

  // ---------- the number of steps ----------

  function Adjacent(adjacency: Adjacency, v: Digest): seq<Edge> {
    if v in adjacency then adjacency[v] else []
  }

  /** How many times `walk` is called below this node of the search tree, itself included. */
  ghost function Visits(adjacency: Adjacency, pattern: seq<string>, start: Digest, current: Digest, offset: nat, visited: set<Digest>): nat
    decreases |pattern| - offset, 1, 0
  {
    1 + if offset >= |pattern| then 0
        else VisitsOver(adjacency, pattern, start, Adjacent(adjacency, current), offset, visited)
  }

  ghost function VisitsOver(adjacency: Adjacency, pattern: seq<string>, start: Digest, edges: seq<Edge>, offset: nat, visited: set<Digest>): nat
    requires offset < |pattern|
    decreases |pattern| - offset, 0, |edges|
  {
    if edges == [] then 0
    else
      var e := edges[|edges| - 1];
      VisitsOver(adjacency, pattern, start, edges[..|edges| - 1], offset, visited)
        + if Follows(pattern, start, e, offset, visited)
          then Visits(adjacency, pattern, start, e.target, offset + 1, visited + {e.target}) else 0
  }

  lemma {:induction false} VisitsOverGrows(adjacency: Adjacency, pattern: seq<string>, start: Digest, edges: seq<Edge>, offset: nat, visited: set<Digest>, k: nat)
    requires offset < |pattern| && k <= |edges|
    ensures VisitsOver(adjacency, pattern, start, edges[..k], offset, visited)
         <= VisitsOver(adjacency, pattern, start, edges, offset, visited)
    decreases |edges|
  {
    hide Follows;
    if k < |edges| {
      var n := |edges| - 1;
      assert edges[..n][..k] == edges[..k];
      VisitsOverGrows(adjacency, pattern, start, edges[..n], offset, visited, k);
    } else {
      assert edges[..k] == edges;
    }
  }

  // ---------- the search ----------

  ghost predicate IsAdjacency(edges: seq<Edge>, adjacency: Adjacency) {
    forall v, e :: e in Adjacent(adjacency, v) <==> e in edges && e.source == v
  }

  /** What the first k edges out of the current vertex contribute. */
  ghost predicate FoundAmong(edges: seq<Edge>, pattern: seq<string>, start: Digest, path: seq<Edge>, visited: set<Digest>, next: seq<Edge>, k: nat, m: seq<Digest>)
    requires |path| < |pattern| && k <= |next|
  {
    exists i :: 0 <= i < k && Follows(pattern, start, next[i], |path|, visited) && Found(edges, pattern, start, path + [next[i]], m)
  }

  lemma FoundIsAmong(edges: seq<Edge>, pattern: seq<string>, start: Digest, path: seq<Edge>, visited: set<Digest>, next: seq<Edge>)
    requires IsPartial(edges, pattern, start, path) && |path| < |pattern|
    requires visited == Sources(path) + {Current(start, path)}
    requires forall e :: e in next <==> e in edges && e.source == Current(start, path)
    ensures forall m :: Found(edges, pattern, start, path, m) <==>
      FoundAmong(edges, pattern, start, path, visited, next, |next|, m)
  {
    hide CanonicalRotation, IsPartial, Follows;
    forall m | Found(edges, pattern, start, path, m)
      ensures FoundAmong(edges, pattern, start, path, visited, next, |next|, m)
    {
      var full :| Completes(edges, pattern, start, path, full) && m == CanonicalRotation(AtMost, Ids(full));
      CompletionFollows(edges, pattern, start, path, full, visited);
      var e := full[|path|];
      var i :| 0 <= i < |next| && next[i] == e;
      assert Found(edges, pattern, start, path + [e], m);
    }
    forall m | FoundAmong(edges, pattern, start, path, visited, next, |next|, m)
      ensures Found(edges, pattern, start, path, m)
    {
      var i :| 0 <= i < |next| && Follows(pattern, start, next[i], |path|, visited)
        && Found(edges, pattern, start, path + [next[i]], m);
      var full :| Completes(edges, pattern, start, path + [next[i]], full) && m == CanonicalRotation(AtMost, Ids(full));
      assert path <= full by { assert path <= path + [next[i]]; }
    }
  }

  class CycleSearch {
    const edges: seq<Edge>
    const adjacency: Adjacency
    const pattern: seq<string>
    var steps: nat
    var matches: set<seq<Digest>>

    constructor (edges: seq<Edge>, adjacency: Adjacency, pattern: seq<string>)
      ensures this.edges == edges && this.adjacency == adjacency && this.pattern == pattern
      ensures steps == 0 && matches == {}
    {
      this.edges := edges;
      this.adjacency := adjacency;
      this.pattern := pattern;
      steps := 0;
      matches := {};
    }

    method Walk(start: Digest, current: Digest, offset: nat, edgePath: seq<Digest>, visited: set<Digest>, ghost path: seq<Edge>)
      returns (result: Result<()>)
      requires IsAdjacency(edges, adjacency) && |pattern| >= 1 && steps <= MAX_CYCLE_SEARCH_STEPS
      requires IsPartial(edges, pattern, start, path) && offset == |path| && current == Current(start, path)
      requires edgePath == Ids(path)
      requires offset < |pattern| ==> visited == Sources(path) + {current}
      modifies this`steps, this`matches
      ensures result.Success? <==>
        old(steps) + Visits(adjacency, pattern, start, current, offset, visited) <= MAX_CYCLE_SEARCH_STEPS
      ensures result.Failure? ==> result.error == CycleSearchLimit
      ensures result.Success? ==> steps == old(steps) + Visits(adjacency, pattern, start, current, offset, visited)
      ensures result.Success? ==>
        forall m :: m in matches <==> m in old(matches) || Found(edges, pattern, start, path, m)
      decreases |pattern| - offset
    {
      hide IsPartial, CanonicalRotation, Found, FoundAmong, Follows, Sources, Collected;
      steps := steps + 1;
      if steps > MAX_CYCLE_SEARCH_STEPS {
        return Failure(CycleSearchLimit);
      }
      if offset == |pattern| {
        if current == start {
          matches := matches + {CanonicalRotation(AtMost, edgePath)};
        }
        CompletePath(edges, pattern, start, path);
        return Success(());
      }
      PartialIsShort(edges, pattern, start, path);
      var next := Adjacent(adjacency, current);
      NothingAmong(matches, edges, pattern, start, path, visited, next);
      for index := 0 to |next|
        invariant steps == old(steps) + 1 + VisitsOver(adjacency, pattern, start, next[..index], offset, visited)
        invariant steps <= MAX_CYCLE_SEARCH_STEPS
        invariant Collected(matches, old(matches), edges, pattern, start, path, visited, next, index)
      {
        var edge := next[index];
        assert next[..index + 1][..index] == next[..index];
        VisitsOverGrows(adjacency, pattern, start, next, offset, visited, index + 1);
        ghost var before := matches;
        if Follows(pattern, start, edge, offset, visited) {
          FollowingIsPartial(edges, pattern, start, path, edge, visited);
          IdsExtend(path, edge);
          var walked := Walk(start, edge.target, offset + 1, edgePath + [edge.id], visited + {edge.target}, path + [edge]);
          if walked.Failure? {
            return walked;
          }
        }
        OneMoreAmong(matches, before, old(matches), edges, pattern, start, path, visited, next, index);
      }
      assert next[..|next|] == next;
      AllCollected(matches, old(matches), edges, pattern, start, path, visited, next);
      result := Success(());
    }
  }

  lemma PartialIsShort(edges: seq<Edge>, pattern: seq<string>, start: Digest, path: seq<Edge>)
    requires IsPartial(edges, pattern, start, path)
    ensures |path| <= |pattern|
  {
  }

  lemma IdsExtend(path: seq<Edge>, e: Edge)
    ensures Ids(path + [e]) == Ids(path) + [e.id]
  {
  }

  /** The matches after the first k edges out of the current vertex. */
  ghost predicate Collected(matches: set<seq<Digest>>, before: set<seq<Digest>>, edges: seq<Edge>, pattern: seq<string>,
    start: Digest, path: seq<Edge>, visited: set<Digest>, next: seq<Edge>, k: nat)
    requires |path| < |pattern| && k <= |next|
  {
    forall m :: m in matches <==> m in before || FoundAmong(edges, pattern, start, path, visited, next, k, m)
  }

  lemma NothingAmong(matches: set<seq<Digest>>, edges: seq<Edge>, pattern: seq<string>,
    start: Digest, path: seq<Edge>, visited: set<Digest>, next: seq<Edge>)
    requires |path| < |pattern|
    ensures Collected(matches, matches, edges, pattern, start, path, visited, next, 0)
  {
  }

  lemma OneMoreAmong(after: set<seq<Digest>>, matches: set<seq<Digest>>, before: set<seq<Digest>>, edges: seq<Edge>,
    pattern: seq<string>, start: Digest, path: seq<Edge>, visited: set<Digest>, next: seq<Edge>, k: nat)
    requires |path| < |pattern| && k < |next|
    requires Collected(matches, before, edges, pattern, start, path, visited, next, k)
    requires if Follows(pattern, start, next[k], |path|, visited)
      then forall m :: m in after <==> m in matches || Found(edges, pattern, start, path + [next[k]], m)
      else after == matches
    ensures Collected(after, before, edges, pattern, start, path, visited, next, k + 1)
  {
    hide Found, Follows;
  }

  lemma AllCollected(matches: set<seq<Digest>>, before: set<seq<Digest>>, edges: seq<Edge>, pattern: seq<string>,
    start: Digest, path: seq<Edge>, visited: set<Digest>, next: seq<Edge>)
    requires IsPartial(edges, pattern, start, path) && |path| < |pattern|
    requires visited == Sources(path) + {Current(start, path)}
    requires forall e :: e in next <==> e in edges && e.source == Current(start, path)
    requires Collected(matches, before, edges, pattern, start, path, visited, next, |next|)
    ensures forall m :: m in matches <==> m in before || Found(edges, pattern, start, path, m)
  {
    hide Found, FoundAmong, Sources;
    FoundIsAmong(edges, pattern, start, path, visited, next);
  }

  // ---------- all starting points ----------

  predicate EdgeAtMost(a: Edge, b: Edge) {
    a.id <= b.id
  }

  ghost predicate KeysAreSources(edges: seq<Edge>, adjacency: Adjacency) {
    forall v :: v in adjacency ==> exists e :: e in edges && e.source == v
  }

  lemma EdgeListed(edges: seq<Edge>, edge: Edge, before: Adjacency)
    requires IsAdjacency(edges, before) && KeysAreSources(edges, before)
    ensures var after := before[edge.source := Adjacent(before, edge.source) + [edge]];
      IsAdjacency(edges + [edge], after) && KeysAreSources(edges + [edge], after)
  {
    var all, after := edges + [edge], before[edge.source := Adjacent(before, edge.source) + [edge]];
    forall v, e ensures e in Adjacent(after, v) <==> e in all && e.source == v {
      assert e in Adjacent(before, v) <==> e in edges && e.source == v;
    }
    forall v | v in after ensures exists e :: e in all && e.source == v {
      if v in before {
        var e :| e in edges && e.source == v;
        assert e in all;
      } else {
        assert edge in all;
      }
    }
  }

  method BuildAdjacency(g: Graph) returns (adjacency: Adjacency)
    ensures IsAdjacency(g.edges, adjacency) && KeysAreSources(g.edges, adjacency)
  {
    hide IsAdjacency, KeysAreSources;
    adjacency := map[];
    NoEdges();
    for index := 0 to |g.edges|
      invariant IsAdjacency(g.edges[..index], adjacency) && KeysAreSources(g.edges[..index], adjacency)
    {
      var edge := g.edges[index];
      assert g.edges[..index + 1] == g.edges[..index] + [edge];
      EdgeListed(g.edges[..index], edge, adjacency);
      adjacency := adjacency[edge.source := Adjacent(adjacency, edge.source) + [edge]];
    }
    assert g.edges[..|g.edges|] == g.edges;
    var sorted := map v | v in adjacency :: Sort(adjacency[v], EdgeAtMost);
    SortingKeepsAdjacency(g.edges, adjacency, sorted);
    adjacency := sorted;
  }

  lemma NoEdges()
    ensures IsAdjacency([], map[]) && KeysAreSources([], map[])
  {
  }

  lemma SortingKeepsAdjacency(edges: seq<Edge>, before: Adjacency, after: Adjacency)
    requires IsAdjacency(edges, before) && KeysAreSources(edges, before)
    requires after.Keys == before.Keys && forall v :: v in before ==> after[v] == Sort(before[v], EdgeAtMost)
    ensures IsAdjacency(edges, after) && KeysAreSources(edges, after)
  {
    hide EdgeAtMost;
    forall v, e ensures e in Adjacent(after, v) <==> e in Adjacent(before, v) {
      if v in before {
        assert multiset(after[v]) == multiset(before[v]);
        assert e in before[v] <==> e in multiset(before[v]);
        assert e in after[v] <==> e in multiset(after[v]);
      }
    }
  }

  /** `sorted` of a set. */
  method SortedSet(matches: set<seq<Digest>>) returns (rows: seq<seq<Digest>>)
    ensures forall m :: m in rows <==> m in matches
    ensures |rows| == |matches|
    ensures SortedBy(rows, TupleAtMost)
  {
    hide TupleAtMost;
    var rest := matches;
    var listed: seq<seq<Digest>> := [];
    while rest != {}
      invariant rest <= matches
      invariant forall m :: m in listed <==> m in matches - rest
      invariant |listed| + |rest| == |matches|
      decreases rest
    {
      var m :| m in rest;
      listed, rest := listed + [m], rest - {m};
    }
    rows := Sort(listed, TupleAtMost);
    TupleAtMostIsTotal();
    SortSorts(listed, TupleAtMost);
    forall m ensures m in rows <==> m in listed {
      assert m in rows <==> m in multiset(rows);
      assert m in listed <==> m in multiset(listed);
    }
  }

  /** The number of calls for the first n starting points. */
  ghost function TotalVisits(adjacency: Adjacency, pattern: seq<string>, starts: seq<Digest>): nat {
    if starts == [] then 0
    else
      var start := starts[|starts| - 1];
      TotalVisits(adjacency, pattern, starts[..|starts| - 1])
        + if start in adjacency then Visits(adjacency, pattern, start, start, 0, {start}) else 0
  }

  lemma {:induction false} TotalVisitsGrow(adjacency: Adjacency, pattern: seq<string>, starts: seq<Digest>, k: nat)
    requires k <= |starts|
    ensures TotalVisits(adjacency, pattern, starts[..k]) <= TotalVisits(adjacency, pattern, starts)
    decreases |starts|
  {
    if k < |starts| {
      var n := |starts| - 1;
      assert starts[..n][..k] == starts[..k];
      TotalVisitsGrow(adjacency, pattern, starts[..n], k);
    } else {
      assert starts[..k] == starts;
    }
  }

  /** Every reported cycle is found from the source of its first edge. */
  lemma ReportedIsFound(edges: seq<Edge>, pattern: seq<string>, m: seq<Digest>)
    ensures IsReportedCycle(edges, pattern, m) <==> exists start :: Found(edges, pattern, start, [], m)
  {
    hide CanonicalRotation;
    if IsReportedCycle(edges, pattern, m) {
      var path: seq<Edge> :| IsMatch(edges, pattern, path) && m == CanonicalRotation(AtMost, Ids(path));
      assert Completes(edges, pattern, path[0].source, [], path);
      assert Found(edges, pattern, path[0].source, [], m);
    }
    if start :| Found(edges, pattern, start, [], m) {
      var full: seq<Edge> :| Completes(edges, pattern, start, [], full) && m == CanonicalRotation(AtMost, Ids(full));
    }
  }

  lemma FoundStarts(edges: seq<Edge>, pattern: seq<string>, start: Digest, m: seq<Digest>)
    requires Found(edges, pattern, start, [], m)
    ensures exists e :: e in edges && e.source == start
  {
    hide CanonicalRotation;
    var full: seq<Edge> :| Completes(edges, pattern, start, [], full) && m == CanonicalRotation(AtMost, Ids(full));
    assert full[0] in edges;
  }

  lemma FoundHasEdge(edges: seq<Edge>, adjacency: Adjacency, pattern: seq<string>, start: Digest, m: seq<Digest>)
    requires IsAdjacency(edges, adjacency) && Found(edges, pattern, start, [], m)
    ensures start in adjacency
  {
    FoundStarts(edges, pattern, start, m);
    var e :| e in edges && e.source == start;
    assert e in Adjacent(adjacency, start);
  }

  /** Sound, complete and bounded: below the step bound the result lists exactly the reports of
      all matching cycles, and above it there is no result. */
  method MatchingCycles(g: Graph, pattern: seq<string>)
    returns (result: Result<seq<seq<Digest>>>, ghost adjacency: Adjacency)
    requires IsGraph(g) && |pattern| >= 1
    ensures IsAdjacency(g.edges, adjacency)
    ensures result.Success? <==> TotalVisits(adjacency, pattern, g.vertices) <= 100_000
    ensures result.Failure? ==> result.error == CycleSearchLimit
    ensures result.Success? ==> forall m :: m in result.value <==> IsReportedCycle(g.edges, pattern, m)
    ensures result.Success? ==> SortedBy(result.value, TupleAtMost)
  {
    hide Found, TupleAtMost, Visits, IsReportedCycle;
    var neighbours := BuildAdjacency(g);
    adjacency := neighbours;
    var search := new CycleSearch(g.edges, neighbours, pattern);
    // sorted(adjacency) lists the vertices, in their order, that have an edge going out
    for index := 0 to |g.vertices|
      invariant search.edges == g.edges && search.adjacency == neighbours && search.pattern == pattern
      invariant search.steps == TotalVisits(neighbours, pattern, g.vertices[..index]) <= MAX_CYCLE_SEARCH_STEPS
      invariant forall m :: m in search.matches <==>
        exists i :: 0 <= i < index && Found(g.edges, pattern, g.vertices[i], [], m)
    {
      var start := g.vertices[index];
      assert g.vertices[..index + 1][..index] == g.vertices[..index];
      TotalVisitsGrow(neighbours, pattern, g.vertices, index + 1);
      ghost var before := search.matches;
      if start in neighbours {
        StartIsPartial(g.edges, pattern, start);
        var walked := search.Walk(start, start, 0, [], {start}, []);
        if walked.Failure? {
          return Failure(walked.error), adjacency;
        }
      } else {
        forall m ensures !Found(g.edges, pattern, start, [], m) {
          if Found(g.edges, pattern, start, [], m) {
            FoundHasEdge(g.edges, neighbours, pattern, start, m);
          }
        }
      }
    }
    assert g.vertices[..|g.vertices|] == g.vertices;
    var rows := SortedSet(search.matches);
    forall m ensures m in rows <==> IsReportedCycle(g.edges, pattern, m) {
      ReportedIsFound(g.edges, pattern, m);
      forall start | Found(g.edges, pattern, start, [], m) ensures start in g.vertices {
        FoundStarts(g.edges, pattern, start, m);
      }
    }
    result := Success(rows);
  }

  lemma StartIsPartial(edges: seq<Edge>, pattern: seq<string>, start: Digest)
    requires |pattern| >= 1
    ensures IsPartial(edges, pattern, start, []) && Sources([]) + {start} == {start} && Ids([]) == []
  {
  }

  // ---------- rotations of the pattern ----------

  lemma MatchTurns(edges: seq<Edge>, pattern: seq<string>, path: seq<Edge>)
    requires IsMatch(edges, pattern, path)
    ensures IsMatch(edges, Turn(pattern), Turn(path))
    ensures Ids(Turn(path)) == Turn(Ids(path))
  {
    var n, p, q := |path|, Turn(pattern), Turn(path);
    forall i | 0 <= i < n
      ensures q[i] in edges && q[i].operation == p[i]
      ensures i > 0 ==> q[i].source == q[i - 1].target
    {
      if i == n - 1 {
        assert q[i] == path[0];
        assert i > 0 ==> q[i - 1] == path[i];
      } else {
        assert q[i] == path[i + 1];
      }
    }
    forall i, j | 0 <= i < j < n ensures q[i].source != q[j].source {
      assert q[i] == path[i + 1];
      assert q[j] == if j == n - 1 then path[0] else path[j + 1];
    }
  }

  lemma ReportTurns(edges: seq<Edge>, pattern: seq<string>, m: seq<Digest>)
    requires pattern != [] && IsReportedCycle(edges, pattern, m)
    ensures IsReportedCycle(edges, Turn(pattern), m)
  {
    hide CanonicalRotation;
    var path :| IsMatch(edges, pattern, path) && m == CanonicalRotation(AtMost, Ids(path));
    MatchTurns(edges, pattern, path);
    AtMostIsTotal();
    CanonicalOfTurned(AtMost, Ids(path));
  }

  lemma {:induction false} ReportTurnsMany(edges: seq<Edge>, pattern: seq<string>, m: seq<Digest>, n: nat)
    requires pattern != [] && IsReportedCycle(edges, pattern, m)
    ensures IsReportedCycle(edges, Turns(pattern, n), m)
    decreases n
  {
    hide IsReportedCycle;
    if n > 0 {
      ReportTurns(edges, pattern, m);
      ReportTurnsMany(edges, Turn(pattern), m, n - 1);
    }
  }

  /** Searching for a pattern or for any of its rotations gives the same cycles. */
  lemma RotatedPatternSameCycles(edges: seq<Edge>, pattern: seq<string>, rotated: seq<string>, m: seq<Digest>)
    requires pattern != [] && IsRotation(pattern, rotated)
    ensures IsReportedCycle(edges, pattern, m) <==> IsReportedCycle(edges, rotated, m)
  {
    hide IsReportedCycle;
    var k :| 0 <= k < |pattern| && rotated == Rotate(pattern, k);
    TurnsRotate(pattern, k);
    if IsReportedCycle(edges, pattern, m) {
      ReportTurnsMany(edges, pattern, m, k);
    }
    if IsReportedCycle(edges, rotated, m) {
      var back := if k == 0 then 0 else |pattern| - k;
      TurnsRotate(rotated, back);
      assert Rotate(rotated, back) == pattern;
      ReportTurnsMany(edges, rotated, m, back);
    }
  }

  /** So normalising a pattern to its canonical rotation changes nothing. */
  lemma NormalizedPatternSameCycles(edges: seq<Edge>, pattern: seq<string>, m: seq<Digest>)
    requires pattern != []
    ensures IsReportedCycle(edges, pattern, m) <==>
      IsReportedCycle(edges, CanonicalRotation(StringAtMost, pattern), m)
  {
    hide IsReportedCycle, CanonicalRotation, StringAtMost;
    StringAtMostIsTotal();
    CanonicalIsLeast(StringAtMost, pattern);
    RotatedPatternSameCycles(edges, pattern, CanonicalRotation(StringAtMost, pattern), m);
  }
}
