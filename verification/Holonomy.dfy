/** Authority holonomy (`build_holonomy` in geometry.py): breadth-first potentials in Z2^4 and the
    edges that contradict them. */
module Holonomy {
  import opened Actions
  import opened Graphs
  import opened Sorting
  import BF = BreadthFirst

  datatype Neighbour = Neighbour(target: Digest, mask: Mask, edge: Digest)

  datatype Residual = Residual(edge: Digest, mask: Mask, weight: nat)

  type Adjacency = map<Digest, seq<Neighbour>>

  type Potentials = map<Digest, Mask>

  datatype Report = Report(potentials: Potentials, residuals: seq<Residual>, maximum: nat, deltaP: nat)

  /** What is left of the mask of e after the difference of potentials is taken out. */
  function Discrepancy(e: Edge, potentials: Potentials): Mask
    requires e.source in potentials && e.target in potentials
  {
    Xor(Xor(potentials[e.source], e.mask), potentials[e.target])
  }

  function ResidualOf(e: Edge, potentials: Potentials): Residual
    requires e.source in potentials && e.target in potentials
  {
    Residual(e.id, Discrepancy(e, potentials), BitCount(Discrepancy(e, potentials)))
  }

  // ---------- adjacency ----------

  function Out(e: Edge): Neighbour {
    Neighbour(e.target, e.mask, e.id)
  }

  function Back(e: Edge): Neighbour {
    Neighbour(e.source, e.mask, e.id)
  }

  ghost predicate ComesFrom(edges: seq<Edge>, v: Digest, n: Neighbour) {
    exists e :: e in edges && ((e.source == v && n == Out(e)) || (e.target == v && n == Back(e)))
  }

  /** Every edge is listed at both of its ends, and nothing else is listed. */
  ghost predicate IsAdjacency(edges: seq<Edge>, adjacency: Adjacency) {
    && (forall e :: e in edges ==> e.source in adjacency && e.target in adjacency)
    && (forall e :: e in edges ==> Out(e) in adjacency[e.source] && Back(e) in adjacency[e.target])
    && (forall v, n :: v in adjacency && n in adjacency[v] ==> ComesFrom(edges, v, n))
  }

  predicate NeighbourBefore(a: Neighbour, b: Neighbour) {
    a.target < b.target || (a.target == b.target && a.edge <= b.edge)
  }

  method BuildAdjacency(g: Graph) returns (adjacency: Adjacency)
    requires IsGraph(g)
    ensures IsAdjacency(g.edges, adjacency)
    ensures forall v :: v in adjacency <==> v in g.vertices
    ensures forall v :: v in adjacency ==> SortedBy(adjacency[v], NeighbourBefore)
  {
    hide NeighbourBefore;
    adjacency := map v | v in g.vertices :: [];
    for index := 0 to |g.edges|
      invariant forall v :: v in adjacency <==> v in g.vertices
      invariant IsAdjacency(g.edges[..index], adjacency)
    {
      var edge := g.edges[index];
      assert g.edges[..index + 1] == g.edges[..index] + [edge];
      var before := adjacency;
      adjacency := adjacency[edge.source := adjacency[edge.source] + [Out(edge)]];
      adjacency := adjacency[edge.target := adjacency[edge.target] + [Back(edge)]];
      EdgeListed(g.edges[..index], edge, before, adjacency);
    }
    assert g.edges[..|g.edges|] == g.edges;
    var sorted := map v | v in adjacency :: Sort(adjacency[v], NeighbourBefore);
    SortingKeeps(g.edges, adjacency, sorted);
    adjacency := sorted;
  }

  lemma SortingKeeps(edges: seq<Edge>, adjacency: Adjacency, sorted: Adjacency)
    requires IsAdjacency(edges, adjacency)
    requires sorted.Keys == adjacency.Keys && forall v :: v in adjacency ==> sorted[v] == Sort(adjacency[v], NeighbourBefore)
    ensures IsAdjacency(edges, sorted)
    ensures forall v :: v in sorted ==> SortedBy(sorted[v], NeighbourBefore)
  {
    NeighbourOrder();
    hide NeighbourBefore, ComesFrom;
    forall v | v in adjacency ensures SortedBy(sorted[v], NeighbourBefore) && multiset(sorted[v]) == multiset(adjacency[v]) {
      SortSorts(adjacency[v], NeighbourBefore);
    }
    hide SortedBy;
    forall v, n | v in adjacency ensures n in adjacency[v] <==> n in sorted[v] {
      assert n in adjacency[v] <==> n in multiset(adjacency[v]);
      assert n in sorted[v] <==> n in multiset(sorted[v]);
    }
  }

  lemma NeighbourOrder()
    ensures IsTotalPreorder(NeighbourBefore)
  {
  }

  lemma EdgeListed(edges: seq<Edge>, edge: Edge, before: Adjacency, after: Adjacency)
    requires IsAdjacency(edges, before) && edge.source in before && edge.target in before
    requires var once := before[edge.source := before[edge.source] + [Out(edge)]];
      after == once[edge.target := once[edge.target] + [Back(edge)]]
    ensures IsAdjacency(edges + [edge], after)
  {
    var all := edges + [edge];
    assert edge in all;
    forall v, n | v in after && n in after[v] ensures ComesFrom(all, v, n) {
      if n in before[v] {
        assert ComesFrom(edges, v, n);
        var e :| e in edges && ((e.source == v && n == Out(e)) || (e.target == v && n == Back(e)));
        assert e in all;
      } else {
        assert (v == edge.source && n == Out(edge)) || (v == edge.target && n == Back(edge));
      }
    }
  }

  // ---------- the search ----------

  /** The mutable state of the search: potentials and residuals so far, and the queue. */
  datatype Search = Search(potentials: Potentials, residuals: seq<Residual>, pending: seq<Digest>)

  /** Every potential is the transport along some walk from the root of its component. */
  ghost predicate Rooted(edges: seq<Edge>, potentials: Potentials, roots: map<Digest, Digest>, trails: map<Digest, seq<Step>>) {
    && roots.Keys == potentials.Keys == trails.Keys
    && forall v :: v in potentials ==>
      IsWalk(edges, roots[v], v, trails[v]) && Transport(trails[v]) == potentials[v]
  }

  /** The edge lies within one component, and is reported if it contradicts the potentials. */
  ghost predicate Recorded(e: Edge, potentials: Potentials, residuals: seq<Residual>, roots: map<Digest, Digest>) {
    && e.source in potentials && e.target in potentials
    && e.source in roots && e.target in roots && roots[e.source] == roots[e.target]
    && (Discrepancy(e, potentials) != 0 ==> ResidualOf(e, potentials) in residuals)
  }

  /** Only contradictions are reported, each once. */
  ghost predicate Sound(edges: seq<Edge>, potentials: Potentials, residuals: seq<Residual>) {
    && (forall r :: r in residuals ==> exists e :: e in edges && IsReported(e, potentials, r))
    && forall i, j :: 0 <= i < j < |residuals| ==> residuals[i] != residuals[j]
  }

  predicate IsReported(e: Edge, potentials: Potentials, r: Residual) {
    && e.source in potentials && e.target in potentials
    && Discrepancy(e, potentials) != 0 && r == ResidualOf(e, potentials)
  }

  ghost predicate Invariant(edges: seq<Edge>, s: Search, roots: map<Digest, Digest>, trails: map<Digest, seq<Step>>, done: set<Digest>, current: set<Digest>, start: Digest) {
    && Rooted(edges, s.potentials, roots, trails)
    && Sound(edges, s.potentials, s.residuals)
    && s.potentials.Keys == done + current + (set v | v in s.pending)
    && done !! current
    && (forall v :: v in s.pending ==> v !in done && v !in current && roots[v] == start)
    && (forall i, j :: 0 <= i < j < |s.pending| ==> s.pending[i] != s.pending[j])
    && (forall v :: v in current ==> roots[v] == start)
    && (forall e :: e in edges && (e.source in done || e.target in done) ==>
      Recorded(e, s.potentials, s.residuals, roots))
  }

  /** What processing one neighbour establishes. */
  ghost predicate Handled(source: Digest, n: Neighbour, s: Search, roots: map<Digest, Digest>) {
    && source in s.potentials && n.target in s.potentials
    && source in roots && n.target in roots && roots[n.target] == roots[source]
    && var mask := Xor(Xor(s.potentials[source], n.mask), s.potentials[n.target]);
      mask != 0 ==> Residual(n.edge, mask, BitCount(mask)) in s.residuals
  }

  /** The loop body for one neighbour. */
  function Explore(s: Search, source: Digest, n: Neighbour): Search
    requires source in s.potentials
  {
    var proposed := Xor(s.potentials[source], n.mask);
    if n.target !in s.potentials then
      Search(s.potentials[n.target := proposed], s.residuals, s.pending + [n.target])
    else
      var mask := Xor(proposed, s.potentials[n.target]);
      var residual := Residual(n.edge, mask, BitCount(mask));
      if mask == 0 || residual in s.residuals then s
      else Search(s.potentials, s.residuals + [residual], s.pending)
  }

  /** The walk to a vertex that is reached for the first time. */
  lemma Discover(edges: seq<Edge>, s: Search, source: Digest, n: Neighbour,
    roots: map<Digest, Digest>, trails: map<Digest, seq<Step>>) returns (trail: seq<Step>)
    requires Rooted(edges, s.potentials, roots, trails) && source in s.potentials
    requires ComesFrom(edges, source, n)
    ensures IsWalk(edges, roots[source], n.target, trail)
    ensures Transport(trail) == Xor(s.potentials[source], n.mask)
  {
    hide Xor;
    var e :| e in edges && ((e.source == source && n == Out(e)) || (e.target == source && n == Back(e)));
    var step := Step(e, e.source == source && n == Out(e));
    OneStep(edges, step);
    WalkJoins(edges, roots[source], source, n.target, trails[source], [step]);
    trail := trails[source] + [step];
  }

  lemma NewlyReached(edges: seq<Edge>, s: Search, source: Digest, n: Neighbour,
    roots: map<Digest, Digest>, trails: map<Digest, seq<Step>>, trail: seq<Step>,
    done: set<Digest>, start: Digest)
    requires Invariant(edges, s, roots, trails, done, {source}, start)
    requires n.target !in s.potentials && ComesFrom(edges, source, n)
    requires IsWalk(edges, roots[source], n.target, trail) && Transport(trail) == Xor(s.potentials[source], n.mask)
    ensures var t := n.target;
      Invariant(edges, Explore(s, source, n), roots[t := roots[source]], trails[t := trail], done, {source}, start)
    ensures Handled(source, n, Explore(s, source, n), roots[n.target := roots[source]])
  {
    hide Xor, IsWalk, Transport;
    var t, s' := n.target, Explore(s, source, n);
    XorLaws(s'.potentials[t], 0, 0);
    StaysSound(edges, s.potentials, s'.potentials, s.residuals);
    hide Sound, ResidualOf;
  }

  lemma StaysSound(edges: seq<Edge>, potentials: Potentials, more: Potentials, residuals: seq<Residual>)
    requires Sound(edges, potentials, residuals)
    requires forall v :: v in potentials ==> v in more && more[v] == potentials[v]
    ensures Sound(edges, more, residuals)
  {
    hide Xor, BitCount;
    forall r | r in residuals ensures exists e :: e in edges && IsReported(e, more, r) {
      var e :| e in edges && IsReported(e, potentials, r);
      assert IsReported(e, more, r);
    }
  }

  lemma SameRoot(edges: seq<Edge>, s: Search, source: Digest, n: Neighbour, e: Edge,
    roots: map<Digest, Digest>, trails: map<Digest, seq<Step>>, done: set<Digest>, start: Digest)
    requires Invariant(edges, s, roots, trails, done, {source}, start) && n.target in s.potentials && e in edges
    requires (e.source == source && n == Out(e)) || (e.target == source && n == Back(e))
    ensures source in s.potentials && source in roots && n.target in roots && roots[n.target] == roots[source]
  {
    hide Xor, IsWalk, Transport, Sound, Discrepancy;
    if n.target in done {
      assert Recorded(e, s.potentials, s.residuals, roots);
    }
  }

  /** What is found at a neighbour is the discrepancy of the edge, from whichever end it is seen. */
  lemma SameDiscrepancy(potentials: Potentials, source: Digest, n: Neighbour, e: Edge)
    requires source in potentials && n.target in potentials
    requires (e.source == source && n == Out(e)) || (e.target == source && n == Back(e))
    ensures e.source in potentials && e.target in potentials
    ensures var mask := Xor(Xor(potentials[source], n.mask), potentials[n.target]);
      mask == Discrepancy(e, potentials) && Residual(n.edge, mask, BitCount(mask)) == ResidualOf(e, potentials)
  {
    hide Xor, BitCount;
    SwapEnds(potentials[source], n.mask, potentials[n.target]);
  }

  lemma ResidualAdded(edges: seq<Edge>, s: Search, roots: map<Digest, Digest>, trails: map<Digest, seq<Step>>,
    done: set<Digest>, source: Digest, start: Digest, e: Edge, r: Residual)
    requires Invariant(edges, s, roots, trails, done, {source}, start)
    requires e in edges && IsReported(e, s.potentials, r) && r !in s.residuals
    ensures Invariant(edges, Search(s.potentials, s.residuals + [r], s.pending), roots, trails, done, {source}, start)
  {
    hide Rooted, Sound, IsReported, Discrepancy;
    ReportsOnce(edges, s.potentials, s.residuals, e, r);
  }

  lemma AlreadyReached(edges: seq<Edge>, s: Search, source: Digest, n: Neighbour,
    roots: map<Digest, Digest>, trails: map<Digest, seq<Step>>, done: set<Digest>, start: Digest)
    requires Invariant(edges, s, roots, trails, done, {source}, start)
    requires n.target in s.potentials && ComesFrom(edges, source, n)
    ensures Invariant(edges, Explore(s, source, n), roots, trails, done, {source}, start)
    ensures Handled(source, n, Explore(s, source, n), roots)
  {
    hide Xor, Invariant, Discrepancy, ResidualOf, BitCount;
    var e :| e in edges && ((e.source == source && n == Out(e)) || (e.target == source && n == Back(e)));
    hide Out, Back;
    SameRoot(edges, s, source, n, e, roots, trails, done, start);
    SameDiscrepancy(s.potentials, source, n, e);
    if Explore(s, source, n) != s {
      ResidualAdded(edges, s, roots, trails, done, source, start, e, ResidualOf(e, s.potentials));
    }
  }

  lemma ReportsOnce(edges: seq<Edge>, potentials: Potentials, residuals: seq<Residual>, e: Edge, r: Residual)
    requires Sound(edges, potentials, residuals) && e in edges && IsReported(e, potentials, r) && r !in residuals
    ensures Sound(edges, potentials, residuals + [r])
  {
    hide IsReported;
  }

  lemma SwapEnds(a: Mask, m: Mask, b: Mask)
    ensures Xor(Xor(a, m), b) == Xor(Xor(b, m), a)
  {
  }

  // ---------- the order of the search ----------

  /** The neighbours of v, all of them, in order. */
  ghost predicate AreNeighbours(edges: seq<Edge>, v: Digest, neighbours: seq<Neighbour>) {
    && SortedBy(neighbours, NeighbourBefore)
    && (forall n :: n in neighbours ==> ComesFrom(edges, v, n))
    && forall e :: e in edges ==>
      (e.source == v ==> Out(e) in neighbours) && (e.target == v ==> Back(e) in neighbours)
  }

  /** The vertices have been reached in breadth-first order, and the first of them are exhausted. */
  ghost predicate Traced(edges: seq<Edge>, vertices: set<Digest>, order: seq<Digest>, finished: nat, potentials: Potentials) {
    && finished <= |order|
    && BF.IsOrder(edges, vertices, order, potentials)
    && (forall v :: v in order <==> v in potentials)
    && BF.IsClosed(edges, vertices, order, finished)
  }

  /** And the queue holds what comes after them. */
  ghost predicate Queued(order: seq<Digest>, finished: nat, pending: seq<Digest>) {
    finished <= |order| && order[finished..] == pending
  }

  ghost function Reached(order: seq<Digest>, s: Search, n: Neighbour): seq<Digest> {
    if n.target in s.potentials then order else order + [n.target]
  }

  /** A neighbour that is reached for the first time is the next vertex of the order. */
  lemma NextNeighbour(edges: seq<Edge>, vertices: set<Digest>, order: seq<Digest>, finished: nat, potentials: Potentials,
    neighbours: seq<Neighbour>, index: nat)
    requires Traced(edges, vertices, order, finished, potentials) && finished < |order| && index < |neighbours|
    requires AreNeighbours(edges, order[finished], neighbours)
    requires forall i :: 0 <= i < index ==> neighbours[i].target in potentials
    requires neighbours[index].target !in potentials && neighbours[index].target in vertices
    requires order[finished] in potentials
    ensures var n := neighbours[index];
      BF.IsNext(edges, vertices, order, n.target, potentials[n.target := Xor(potentials[order[finished]], n.mask)])
  {
    hide BF.IsOrder, BF.IsClosed, Xor;
    var source, n := order[finished], neighbours[index];
    var t, more := n.target, potentials[n.target := Xor(potentials[source], n.mask)];
    forall w | w in vertices && w !in order && BF.Adjacent(edges, source, w) ensures t <= w {
      var e :| e in edges && BF.Joins(e, source, w);
      var k := Listed(edges, source, neighbours, e, w);
      assert k >= index;
    }
    assert ComesFrom(edges, source, n);
    var e :| e in edges && ((e.source == source && n == Out(e)) || (e.target == source && n == Back(e)));
    forall f | f in edges && BF.Joins(f, source, t) ensures e.id <= f.id {
      var k := Listed(edges, source, neighbours, f, t);
      assert k >= index;
    }
    assert BF.IsFirstEdge(edges, source, t, e);
    assert BF.Continues(edges, vertices, order, t, more, finished);
  }

  lemma Listed(edges: seq<Edge>, v: Digest, neighbours: seq<Neighbour>, e: Edge, w: Digest) returns (k: nat)
    requires AreNeighbours(edges, v, neighbours) && e in edges && BF.Joins(e, v, w)
    ensures k < |neighbours| && neighbours[k].target == w && neighbours[k].edge == e.id
  {
    var n := if e.source == v && e.target == w then Out(e) else Back(e);
    k :| 0 <= k < |neighbours| && neighbours[k] == n;
  }

  lemma TraceNeighbour(edges: seq<Edge>, vertices: set<Digest>, order: seq<Digest>, finished: nat, s: Search,
    neighbours: seq<Neighbour>, index: nat)
    requires Traced(edges, vertices, order, finished, s.potentials) && finished < |order| && index < |neighbours|
    requires Queued(order, finished + 1, s.pending) && AreNeighbours(edges, order[finished], neighbours)
    requires forall i :: 0 <= i < index ==> neighbours[i].target in s.potentials
    requires neighbours[index].target in vertices
    ensures order[finished] in s.potentials
    ensures var n, t := neighbours[index], Explore(s, order[finished], neighbours[index]);
      var more := Reached(order, s, n);
      && Traced(edges, vertices, more, finished, t.potentials) && Queued(more, finished + 1, t.pending)
      && finished < |more| && more[finished] == order[finished] && n.target in t.potentials
  {
    hide BF.IsNext, AreNeighbours, Xor, BF.IsOrder;
    var source, n := order[finished], neighbours[index];
    assert source in order;
    if n.target !in s.potentials {
      NextNeighbour(edges, vertices, order, finished, s.potentials, neighbours, index);
      BF.OrderGrows(edges, vertices, order, n.target, s.potentials, Explore(s, source, n).potentials);
      assert (order + [n.target])[finished + 1..] == order[finished + 1..] + [n.target];
    }
  }

  lemma TraceFinish(edges: seq<Edge>, vertices: set<Digest>, order: seq<Digest>, finished: nat, potentials: Potentials,
    neighbours: seq<Neighbour>)
    requires Traced(edges, vertices, order, finished, potentials) && finished < |order|
    requires AreNeighbours(edges, order[finished], neighbours)
    requires forall n :: n in neighbours ==> n.target in potentials
    ensures Traced(edges, vertices, order, finished + 1, potentials)
  {
    hide BF.IsOrder;
    forall w | w in vertices && w !in order ensures !BF.Adjacent(edges, order[finished], w) {
      if e :| e in edges && BF.Joins(e, order[finished], w) {
        var k := Listed(edges, order[finished], neighbours, e, w);
        assert neighbours[k] in neighbours;
      }
    }
  }

  lemma TraceStart(edges: seq<Edge>, vertices: set<Digest>, order: seq<Digest>, potentials: Potentials, start: Digest)
    requires Traced(edges, vertices, order, |order|, potentials) && start in vertices && start !in potentials
    requires forall w :: w in vertices && w !in potentials ==> start <= w
    ensures Traced(edges, vertices, order + [start], |order|, potentials[start := 0])
  {
    hide BF.IsOrder, BF.Adjacent;
    var more := potentials[start := 0];
    assert BF.Begins(edges, vertices, order, start, more);
    assert BF.IsNext(edges, vertices, order, start, more);
    BF.OrderGrows(edges, vertices, order, start, potentials, more);
    assert BF.IsClosed(edges, vertices, order + [start], |order|);
  }

  lemma NothingTraced(edges: seq<Edge>, vertices: set<Digest>)
    ensures Traced(edges, vertices, [], 0, map[]) && Queued([], 0, [])
  {
  }

  /** The inner loop: all neighbours of one vertex. */
  method Visit(edges: seq<Edge>, neighbours: seq<Neighbour>, source: Digest, before: Search,
    ghost roots0: map<Digest, Digest>, ghost trails0: map<Digest, seq<Step>>, ghost done: set<Digest>, ghost start: Digest,
    ghost vertices: set<Digest>, ghost order0: seq<Digest>, ghost finished: nat)
    returns (s: Search, ghost roots: map<Digest, Digest>, ghost trails: map<Digest, seq<Step>>, ghost order: seq<Digest>)
    requires AreNeighbours(edges, source, neighbours) && finished < |order0| && order0[finished] == source
    requires Traced(edges, vertices, order0, finished, before.potentials) && Queued(order0, finished + 1, before.pending)
    ensures finished < |order| && order[finished] == source
    ensures Traced(edges, vertices, order, finished + 1, s.potentials) && Queued(order, finished + 1, s.pending)
    requires Invariant(edges, before, roots0, trails0, done, {source}, start)
    requires forall n :: n in neighbours ==> ComesFrom(edges, source, n) && n.target in vertices
    requires before.potentials.Keys <= vertices
    ensures s.potentials.Keys <= vertices
    ensures Invariant(edges, s, roots, trails, done, {source}, start)
    ensures before.potentials.Keys <= s.potentials.Keys
    ensures forall n :: n in neighbours ==> Handled(source, n, s, roots)
  {
    hide Xor, IsWalk, Transport, Invariant, Explore, Handled, ComesFrom, Traced, Queued, AreNeighbours, Reached;
    s, roots, trails, order := before, roots0, trails0, order0;
    for index := 0 to |neighbours|
      invariant finished < |order| && order[finished] == source
      invariant Traced(edges, vertices, order, finished, s.potentials) && Queued(order, finished + 1, s.pending)
      invariant forall i :: 0 <= i < index ==> neighbours[i].target in s.potentials
      invariant Invariant(edges, s, roots, trails, done, {source}, start)
      invariant before.potentials.Keys <= s.potentials.Keys <= vertices
      invariant forall i :: 0 <= i < index ==> Handled(source, neighbours[i], s, roots)
    {
      var n := neighbours[index];
      SourceIsKnown(edges, s, source, roots, trails, done, start);
      ghost var s0, r0 := s, roots;
      if n.target !in s.potentials {
        ghost var trail := Discover(edges, s, source, n, roots, trails);
        NewlyReached(edges, s, source, n, roots, trails, trail, done, start);
        roots, trails := roots[n.target := roots[source]], trails[n.target := trail];
      } else {
        AlreadyReached(edges, s, source, n, roots, trails, done, start);
      }
      TraceNeighbour(edges, vertices, order, finished, s, neighbours, index);
      order := Reached(order, s, n);
      s := Explore(s, source, n);
      forall i | 0 <= i < index ensures Handled(source, neighbours[i], s, roots) {
        HandledStays(source, neighbours[i], n, s0, r0, s, roots);
      }
      ExploreGrows(s0, source, n);
    }
    TraceFinish(edges, vertices, order, finished, s.potentials, neighbours);
  }

  lemma SourceIsKnown(edges: seq<Edge>, s: Search, source: Digest,
    roots: map<Digest, Digest>, trails: map<Digest, seq<Step>>, done: set<Digest>, start: Digest)
    requires Invariant(edges, s, roots, trails, done, {source}, start)
    ensures source in s.potentials && source in roots && Rooted(edges, s.potentials, roots, trails)
  {
    hide IsWalk, Transport;
  }

  lemma ExploreGrows(s: Search, source: Digest, n: Neighbour)
    requires source in s.potentials
    ensures s.potentials.Keys <= Explore(s, source, n).potentials.Keys <= s.potentials.Keys + {n.target}
  {
  }

  lemma HandledStays(source: Digest, old': Neighbour, n: Neighbour, s: Search, roots: map<Digest, Digest>, s': Search, roots': map<Digest, Digest>)
    requires Handled(source, old', s, roots) && s' == Explore(s, source, n)
    requires roots' == roots || (n.target !in s.potentials && roots'.Keys == roots.Keys + {n.target}
      && roots' == roots[n.target := roots'[n.target]] && roots.Keys == s.potentials.Keys)
    ensures Handled(source, old', s', roots')
  {
    hide Xor, BitCount;
  }

  // ---------- the whole sensor ----------

  /** The result of a completed search. */
  ghost predicate IsComplete(g: Graph, potentials: Potentials, residuals: seq<Residual>, roots: map<Digest, Digest>, trails: map<Digest, seq<Step>>) {
    && (forall v :: v in potentials <==> v in g.vertices)
    && Rooted(g.edges, potentials, roots, trails)
    && Sound(g.edges, potentials, residuals)
    && forall e :: e in g.edges ==> Recorded(e, potentials, residuals, roots)
  }

  lemma EdgeFromNeighbours(e: Edge, u: Digest, s: Search, roots: map<Digest, Digest>)
    requires (e.source == u && Handled(u, Out(e), s, roots)) || (e.target == u && Handled(u, Back(e), s, roots))
    ensures Recorded(e, s.potentials, s.residuals, roots)
  {
    hide Xor, BitCount;
    SwapEnds(s.potentials[e.source], e.mask, s.potentials[e.target]);
  }

  /** A vertex whose neighbours are all handled is done. */
  lemma FinishVertex(edges: seq<Edge>, adjacency: Adjacency, source: Digest, s: Search,
    roots: map<Digest, Digest>, trails: map<Digest, seq<Step>>, done: set<Digest>, start: Digest)
    requires Invariant(edges, s, roots, trails, done, {source}, start) && IsAdjacency(edges, adjacency)
    requires source in adjacency && forall n :: n in adjacency[source] ==> Handled(source, n, s, roots)
    ensures Invariant(edges, s, roots, trails, done + {source}, {}, start)
  {
    hide Handled, Recorded, IsWalk, Transport, Sound, Xor;
    forall e | e in edges && (e.source in done + {source} || e.target in done + {source})
      ensures Recorded(e, s.potentials, s.residuals, roots)
    {
      if e.source !in done && e.target !in done {
        EdgeFromNeighbours(e, source, s, roots);
      }
    }
  }

  lemma PopVertex(edges: seq<Edge>, s: Search, roots: map<Digest, Digest>, trails: map<Digest, seq<Step>>, done: set<Digest>, start: Digest)
    requires Invariant(edges, s, roots, trails, done, {}, start) && s.pending != []
    ensures Invariant(edges, s.(pending := s.pending[1..]), roots, trails, done, {s.pending[0]}, start)
    ensures s.pending[0] in s.potentials && s.pending[0] !in done
  {
    hide Recorded, IsWalk, Transport, Sound, Xor, Rooted;
    var u, rest := s.pending[0], s.pending[1..];
    assert s.pending == [u] + rest;
    assert forall i :: 0 <= i < |rest| ==> rest[i] == s.pending[i + 1];
  }

  lemma StartComponent(edges: seq<Edge>, s: Search, roots: map<Digest, Digest>, trails: map<Digest, seq<Step>>,
    done: set<Digest>, before: Digest, start: Digest)
    requires Invariant(edges, s, roots, trails, done, {}, before) && s.pending == [] && start !in s.potentials
    ensures Invariant(edges, Search(s.potentials[start := 0], s.residuals, [start]), roots[start := start],
      trails[start := []], done, {}, start)
  {
    hide Xor, BitCount;
    var s' := Search(s.potentials[start := 0], s.residuals, [start]);
    assert IsWalk(edges, start, start, []) && Transport([]) == 0;
    hide IsWalk, Transport;
    forall r | r in s.residuals ensures exists e :: e in edges && IsReported(e, s'.potentials, r) {
      var e :| e in edges && IsReported(e, s.potentials, r);
      assert IsReported(e, s'.potentials, r);
    }
  }

  lemma NothingFound(edges: seq<Edge>, start: Digest)
    ensures Invariant(edges, Search(map[], [], []), map[], map[], {}, {}, start)
  {
  }

  lemma AllDone(g: Graph, s: Search, roots: map<Digest, Digest>, trails: map<Digest, seq<Step>>, done: set<Digest>, start: Digest)
    requires IsGraph(g) && Invariant(g.edges, s, roots, trails, done, {}, start) && s.pending == []
    requires forall v :: v in s.potentials <==> v in g.vertices
    ensures IsComplete(g, s.potentials, s.residuals, roots, trails)
  {
    hide Recorded, IsWalk, Transport, Sound, Xor;
    assert s.potentials.Keys == done;
  }

  lemma NeighboursComeFrom(g: Graph, adjacency: Adjacency, v: Digest)
    requires IsGraph(g) && IsAdjacency(g.edges, adjacency) && v in g.vertices
    ensures v in adjacency ==> forall n :: n in adjacency[v] ==> ComesFrom(g.edges, v, n) && n.target in g.vertices
  {
  }

  /** The labels are those of a breadth-first search that starts at the least vertex of each component and
      takes neighbours in ascending order. */
  ghost predicate IsSearched(g: Graph, potentials: Potentials) {
    exists order :: IsSearchOrder(g, order, potentials)
  }

  ghost predicate IsSearchOrder(g: Graph, order: seq<Digest>, potentials: Potentials) {
    BF.IsOrder(g.edges, (set v | v in g.vertices), order, potentials) && forall v :: v in order <==> v in g.vertices
  }

  method FindPotentials(g: Graph) returns (s: Search, ghost roots: map<Digest, Digest>, ghost trails: map<Digest, seq<Step>>)
    requires IsGraph(g)
    ensures IsComplete(g, s.potentials, s.residuals, roots, trails)
    ensures IsSearched(g, s.potentials)
  {
    hide Invariant, IsComplete, IsAdjacency, IsWalk, Transport, Handled, Sound, Recorded, Xor, Traced, Queued, AreNeighbours,
      IsSearched, NeighbourBefore;
    var adjacency := BuildAdjacency(g);
    s, roots, trails := Search(map[], [], []), map[], map[];
    ghost var done, root, vertices := {}, 0, set v | v in g.vertices;
    ghost var order, finished := [], 0;
    NothingFound(g.edges, root);
    NothingTraced(g.edges, vertices);
    for index := 0 to |g.vertices|
      invariant Invariant(g.edges, s, roots, trails, done, {}, root) && s.pending == []
      invariant forall i :: 0 <= i < index ==> g.vertices[i] in s.potentials
      invariant s.potentials.Keys <= vertices
      invariant Traced(g.edges, vertices, order, finished, s.potentials) && Queued(order, finished, [])
    {
      var start := g.vertices[index];
      if start in s.potentials {
        continue;
      }
      StartComponent(g.edges, s, roots, trails, done, root, start);
      TraceComponent(g, vertices, order, finished, s.potentials, index);
      order := order + [start];
      s := Search(s.potentials[start := 0], s.residuals, [start]);
      roots, trails, root := roots[start := start], trails[start := []], start;
      ghost var reached := s.potentials.Keys;
      while s.pending != []
        invariant Invariant(g.edges, s, roots, trails, done, {}, root)
        invariant reached <= s.potentials.Keys
        invariant s.potentials.Keys <= vertices
        invariant Traced(g.edges, vertices, order, finished, s.potentials) && Queued(order, finished, s.pending)
        decreases vertices - done
      {
        var source := s.pending[0];
        PopVertex(g.edges, s, roots, trails, done, root);
        NeighboursComeFrom(g, adjacency, source);
        AdjacencyLists(g, adjacency, source);
        QueuePops(order, finished, s.pending);
        s, roots, trails, order := Visit(g.edges, adjacency[source], source, s.(pending := s.pending[1..]), roots, trails,
          done, root, vertices, order, finished);
        finished := finished + 1;
        FinishVertex(g.edges, adjacency, source, s, roots, trails, done, root);
        done := done + {source};
      }
    }
    AllDone(g, s, roots, trails, done, root);
    AllTraced(g, vertices, order, finished, s.potentials);
  }

  lemma AdjacencyLists(g: Graph, adjacency: Adjacency, v: Digest)
    requires IsAdjacency(g.edges, adjacency) && v in adjacency && SortedBy(adjacency[v], NeighbourBefore)
    ensures AreNeighbours(g.edges, v, adjacency[v])
  {
    hide NeighbourBefore;
  }

  lemma QueuePops(order: seq<Digest>, finished: nat, pending: seq<Digest>)
    requires Queued(order, finished, pending) && pending != []
    ensures finished < |order| && order[finished] == pending[0] && Queued(order, finished + 1, pending[1..])
  {
  }

  lemma TraceComponent(g: Graph, vertices: set<Digest>, order: seq<Digest>, finished: nat, potentials: Potentials, index: nat)
    requires IsGraph(g) && index < |g.vertices| && (forall v :: v in vertices <==> v in g.vertices)
    requires Traced(g.edges, vertices, order, finished, potentials) && Queued(order, finished, [])
    requires (forall i :: 0 <= i < index ==> g.vertices[i] in potentials) && g.vertices[index] !in potentials
    ensures Traced(g.edges, vertices, order + [g.vertices[index]], finished, potentials[g.vertices[index] := 0])
    ensures Queued(order + [g.vertices[index]], finished, [g.vertices[index]])
  {
    var start := g.vertices[index];
    assert |order[finished..]| == 0;
    forall w | w in vertices && w !in potentials ensures start <= w {
      var k :| 0 <= k < |g.vertices| && g.vertices[k] == w;
      assert k >= index;
    }
    TraceStart(g.edges, vertices, order, potentials, start);
  }

  lemma AllTraced(g: Graph, vertices: set<Digest>, order: seq<Digest>, finished: nat, potentials: Potentials)
    requires vertices == (set v | v in g.vertices) && Traced(g.edges, vertices, order, finished, potentials)
    requires forall v :: v in potentials <==> v in g.vertices
    ensures IsSearched(g, potentials)
  {
    hide BF.IsOrder;
    assert IsSearchOrder(g, order, potentials);
  }

  // ---------- what the residuals mean ----------

  /** The closed walk that a contradicted edge closes. */
  lemma Contradiction(g: Graph, potentials: Potentials, residuals: seq<Residual>,
    roots: map<Digest, Digest>, trails: map<Digest, seq<Step>>, e: Edge)
    requires IsComplete(g, potentials, residuals, roots, trails) && e in g.edges && IsPathIndependent(g.edges)
    ensures e.source in potentials && e.target in potentials && Discrepancy(e, potentials) == 0
  {
    hide Xor, Sound;
    assert Recorded(e, potentials, residuals, roots);
    var root, step := roots[e.source], Step(e, true);
    assert IsWalk(g.edges, root, e.source, trails[e.source]) && Transport(trails[e.source]) == potentials[e.source];
    assert IsWalk(g.edges, root, e.target, trails[e.target]) && Transport(trails[e.target]) == potentials[e.target];
    hide IsWalk, Transport;
    OneStep(g.edges, step);
    WalkReverses(g.edges, root, e.target, trails[e.target]);
    WalkJoins(g.edges, root, e.source, e.target, trails[e.source], [step]);
    WalkJoins(g.edges, root, e.target, root, trails[e.source] + [step], Backwards(trails[e.target]));
  }

  lemma NoResidualsExplain(g: Graph, potentials: Potentials, residuals: seq<Residual>,
    roots: map<Digest, Digest>, trails: map<Digest, seq<Step>>)
    requires IsComplete(g, potentials, residuals, roots, trails) && residuals == []
    ensures Explains(potentials, g.edges)
  {
    hide IsWalk, Transport, Xor;
    forall e | e in g.edges
      ensures e.source in potentials && e.target in potentials
      ensures e.mask == Xor(potentials[e.source], potentials[e.target])
    {
      assert Recorded(e, potentials, residuals, roots);
      Balance(potentials[e.source], e.mask, potentials[e.target]);
    }
  }

  lemma Balance(a: Mask, m: Mask, b: Mask)
    ensures Xor(Xor(a, m), b) == 0 <==> m == Xor(a, b)
  {
  }

  /** No residual, no closed walk with transport, a labelling that explains all masks: the same. */
  lemma ResidualsMeanPathDependence(g: Graph, potentials: Potentials, residuals: seq<Residual>,
    roots: map<Digest, Digest>, trails: map<Digest, seq<Step>>)
    requires IsComplete(g, potentials, residuals, roots, trails)
    ensures residuals == [] <==> IsPathIndependent(g.edges)
    ensures residuals == [] <==> exists labels :: Explains(labels, g.edges)
  {
    hide IsWalk, Transport, Xor, IsComplete, Explains;
    if residuals == [] {
      NoResidualsExplain(g, potentials, residuals, roots, trails);
      ExplainedIsPathIndependent(potentials, g.edges);
    }
    if IsPathIndependent(g.edges) && residuals != [] {
      var e := ReportedEdge(g, potentials, residuals, roots, trails, residuals[0]);
      Contradiction(g, potentials, residuals, roots, trails, e);
      assert false;
    }
    forall labels | Explains(labels, g.edges) ensures IsPathIndependent(g.edges) {
      ExplainedIsPathIndependent(labels, g.edges);
    }
  }

  lemma ReportedEdge(g: Graph, potentials: Potentials, residuals: seq<Residual>,
    roots: map<Digest, Digest>, trails: map<Digest, seq<Step>>, r: Residual) returns (e: Edge)
    requires IsComplete(g, potentials, residuals, roots, trails) && r in residuals
    ensures e in g.edges && IsReported(e, potentials, r)
  {
    e :| e in g.edges && IsReported(e, potentials, r);
  }

  predicate ResidualBefore(a: Residual, b: Residual) {
    a.edge < b.edge || (a.edge == b.edge &&
      (a.mask as int < b.mask as int || (a.mask as int == b.mask as int && a.weight <= b.weight)))
  }

  function MaximumWeight(rows: seq<Residual>): (n: nat)
    ensures forall r :: r in rows ==> r.weight <= n
    ensures rows == [] ==> n == 0
    ensures rows != [] ==> exists r :: r in rows && r.weight == n
  {
    if rows == [] then 0
    else
      var rest := MaximumWeight(rows[1..]);
      assert rows == [rows[0]] + rows[1..];
      if |rows| == 1 || rows[0].weight >= rest then
        assert rows[0] in rows;
        rows[0].weight
      else
        rest
  }

  /** The contract of the sensor. */
  ghost predicate IsHolonomy(g: Graph, epsilon: nat, report: Report) {
    && (forall v :: v in report.potentials <==> v in g.vertices)
    && IsSearched(g, report.potentials)
    // the rows are exactly the contradicted edges, one row each, in ascending order
    && (forall r :: r in report.residuals <==> exists e :: e in g.edges && IsReported(e, report.potentials, r))
    && (forall i, j :: 0 <= i < j < |report.residuals| ==> report.residuals[i].edge < report.residuals[j].edge)
    // there are none just when authority is path-independent
    && (report.residuals == [] <==> IsPathIndependent(g.edges))
    && (report.residuals == [] <==> exists labels :: Explains(labels, g.edges))
    && report.maximum == MaximumWeight(report.residuals)
    && report.deltaP == (if report.maximum >= epsilon then 1 else 0)
  }

  lemma RowsAreContradictions(g: Graph, s: Search, roots: map<Digest, Digest>, trails: map<Digest, seq<Step>>, r: Residual)
    requires IsComplete(g, s.potentials, s.residuals, roots, trails)
    ensures r in s.residuals <==> exists e :: e in g.edges && IsReported(e, s.potentials, r)
  {
    hide IsWalk, Transport, Xor, Rooted;
    if e :| e in g.edges && IsReported(e, s.potentials, r) {
      assert Recorded(e, s.potentials, s.residuals, roots);
    }
  }

  lemma ResidualOrder()
    ensures IsTotalOrder(ResidualBefore)
  {
  }

  /** Sorted rows have strictly ascending edges, since an edge yields at most one row. */
  lemma RowsAscend(g: Graph, s: Search, roots: map<Digest, Digest>, trails: map<Digest, seq<Step>>, rows: seq<Residual>)
    requires IsGraph(g) && IsComplete(g, s.potentials, s.residuals, roots, trails)
    requires SortedBy(rows, ResidualBefore) && multiset(rows) == multiset(s.residuals)
    ensures forall i, j :: 0 <= i < j < |rows| ==> rows[i].edge < rows[j].edge
  {
    hide IsWalk, Transport, Xor, Rooted;
    forall i, j | 0 <= i < j < |rows| ensures rows[i].edge < rows[j].edge {
      assert ResidualBefore(rows[i], rows[j]);
      if rows[i].edge == rows[j].edge {
        assert rows[i] in multiset(s.residuals) && rows[j] in multiset(s.residuals);
        var e := ReportedEdge(g, s.potentials, s.residuals, roots, trails, rows[i]);
        var d := ReportedEdge(g, s.potentials, s.residuals, roots, trails, rows[j]);
        assert e == d;
        TwiceInside(rows, i, j);
        OnceInside(s.residuals, rows[i]);
        assert false;
      }
    }
  }

  method BuildHolonomy(g: Graph, epsilon: nat) returns (report: Report)
    requires IsGraph(g)
    ensures IsHolonomy(g, epsilon, report)
  {
    hide IsComplete, IsReported, Sort, ResidualBefore, IsPathIndependent, Explains, IsSearched;
    var s, roots, trails := FindPotentials(g);
    var rows := Sort(s.residuals, ResidualBefore);
    var maximum := MaximumWeight(rows);
    report := Report(s.potentials, rows, maximum, if maximum >= epsilon then 1 else 0);
    CompleteVertices(g, s, roots, trails);
    ResidualOrder();
    SortSorts(s.residuals, ResidualBefore);
    RowsAscend(g, s, roots, trails, rows);
    ResidualsMeanPathDependence(g, s.potentials, s.residuals, roots, trails);
    forall r ensures r in rows <==> exists e :: e in g.edges && IsReported(e, s.potentials, r) {
      RowsAreContradictions(g, s, roots, trails, r);
      assert r in rows <==> r in multiset(rows);
    }
    assert |rows| == |s.residuals|;
  }

  lemma CompleteVertices(g: Graph, s: Search, roots: map<Digest, Digest>, trails: map<Digest, seq<Step>>)
    requires IsComplete(g, s.potentials, s.residuals, roots, trails)
    ensures forall v :: v in s.potentials <==> v in g.vertices
  {
  }

  /** The labels of the search depend on the vertices and on the edges as a set, and on nothing else. */
  lemma SearchIsUnique(g: Graph, h: Graph, first: Potentials, second: Potentials)
    requires IsGraph(g) && IsGraph(h) && g.vertices == h.vertices && BF.SameEdges(g.edges, h.edges)
    requires IsSearched(g, first) && IsSearched(h, second)
    requires (forall v :: v in first <==> v in g.vertices) && forall v :: v in second <==> v in g.vertices
    ensures first == second
  {
    hide BF.IsOrder, BF.IsNext, BF.SameEdges;
    var vertices := set v | v in g.vertices;
    var a :| IsSearchOrder(g, a, first);
    var b :| IsSearchOrder(h, b, second);
    var n := if |a| <= |b| then |a| else |b|;
    BF.OrderIsUnique(g.edges, h.edges, vertices, a, first, b, second, n);
    assert a[..|a|] == a && b[..|b|] == b;
    if |a| <= |b| {
      BF.NothingFollows(h.edges, vertices, a, b, second);
    } else {
      BF.NothingFollows(g.edges, vertices, b, a, first);
    }
    assert forall v :: v in first <==> v in second;
    forall v | v in first ensures v in second && first[v] == second[v] {
      assert v in a[..n];
    }
  }

  /** So the report is determined: there is one for every set of edges, in whatever order they are listed. */
  lemma HolonomyIsUnique(g: Graph, h: Graph, epsilon: nat, report: Report, other: Report)
    requires IsGraph(g) && IsGraph(h) && g.vertices == h.vertices && BF.SameEdges(g.edges, h.edges)
    requires IsHolonomy(g, epsilon, report) && IsHolonomy(h, epsilon, other)
    ensures report == other
  {
    hide IsPathIndependent, Explains, IsSearched, IsReported, IsGraph, ResidualBefore;
    SearchIsUnique(g, h, report.potentials, other.potentials);
    RowsAreSorted(report.residuals);
    RowsAreSorted(other.residuals);
    ResidualOrder();
    forall r ensures r in report.residuals <==> r in other.residuals {
      if r in report.residuals {
        var e :| e in g.edges && IsReported(e, report.potentials, r);
        assert e in h.edges;
      }
      if r in other.residuals {
        var e :| e in h.edges && IsReported(e, report.potentials, r);
        assert e in g.edges;
      }
    }
    SortedSetUnique(report.residuals, other.residuals, ResidualBefore);
  }

  lemma RowsAreSorted(rows: seq<Residual>)
    requires forall i, j :: 0 <= i < j < |rows| ==> rows[i].edge < rows[j].edge
    ensures SortedBy(rows, ResidualBefore) && Separates(ResidualBefore, rows)
    ensures forall i, j :: 0 <= i < j < |rows| ==> rows[i] != rows[j]
  {
    ResidualOrder();
  }

  /** The bit that the geometry commits to: some contradiction weighs at least epsilon. */
  lemma DeltaPMeaning(g: Graph, epsilon: nat, report: Report)
    requires IsGraph(g) && IsHolonomy(g, epsilon, report) && epsilon >= 1
    ensures report.deltaP == 1 <==> exists e :: e in g.edges && Contradicts(e, report.potentials, epsilon)
    ensures report.deltaP == 0 || report.deltaP == 1
    ensures report.residuals == [] ==> report.deltaP == 0
    ensures epsilon == 1 ==> (report.deltaP == 0 <==> IsPathIndependent(g.edges))
  {
    hide IsPathIndependent, Explains, Xor, Grants;
    if report.deltaP == 1 {
      var r :| r in report.residuals && r.weight == report.maximum;
      var e :| e in g.edges && IsReported(e, report.potentials, r);
      WeightIsAuthorities(r.mask);
    }
    forall e | e in g.edges && Contradicts(e, report.potentials, epsilon) ensures report.deltaP == 1 {
      var mask := Discrepancy(e, report.potentials);
      WeightIsAuthorities(mask);
      assert IsReported(e, report.potentials, ResidualOf(e, report.potentials));
    }
    if report.residuals != [] {
      var r := report.residuals[0];
      assert r in report.residuals;
      var e :| e in g.edges && IsReported(e, report.potentials, r);
    }
  }

  /** A reported row names the edge, what is left over, and how many authorities that is. */
  lemma ReportedMeans(e: Edge, potentials: Potentials, r: Residual)
    ensures IsReported(e, potentials, r) <==>
      Contradicts(e, potentials, 1) && r.edge == e.id
      && r.mask == Xor(Xor(potentials[e.source], e.mask), potentials[e.target]) && r.weight == |Grants(r.mask)|
  {
    if e.source in potentials && e.target in potentials {
      var mask := Discrepancy(e, potentials);
      WeightIsAuthorities(mask);
    }
  }

  /** The potentials disagree with the edge in at least so many single authorities. */
  ghost predicate Contradicts(e: Edge, potentials: Potentials, epsilon: nat) {
    && e.source in potentials && e.target in potentials
    && |Grants(Xor(Xor(potentials[e.source], e.mask), potentials[e.target]))| >= epsilon
  }
}
