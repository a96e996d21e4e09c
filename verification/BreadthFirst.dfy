/** The order in which a breadth-first search reaches vertices, and the labels it gives them, said without
    the search: what comes next is the least new vertex beside the earliest vertex that has new ones
    beside it, or, if there is none, the least new vertex. */
module BreadthFirst {
  import opened Graphs

  type Labels = map<Digest, Mask>

  ghost predicate Joins(e: Edge, u: Digest, v: Digest) {
    (e.source == u && e.target == v) || (e.source == v && e.target == u)
  }

  ghost predicate Adjacent(edges: seq<Edge>, u: Digest, v: Digest) {
    exists e :: e in edges && Joins(e, u, v)
  }

  /** The first edge, by identifier, between u and v. */
  ghost predicate IsFirstEdge(edges: seq<Edge>, u: Digest, v: Digest, e: Edge) {
    e in edges && Joins(e, u, v) && forall f :: f in edges && Joins(f, u, v) ==> e.id <= f.id
  }

  /** No vertex of the front is adjacent to anything new. */
  ghost predicate IsClosed(edges: seq<Edge>, vertices: set<Digest>, order: seq<Digest>, n: nat)
    requires n <= |order|
  {
    forall l, w :: 0 <= l < n && w in vertices && w !in order ==> !Adjacent(edges, order[l], w)
  }

  /** v is the next root. */
  ghost predicate Begins(edges: seq<Edge>, vertices: set<Digest>, order: seq<Digest>, v: Digest, labels: Labels) {
    && IsClosed(edges, vertices, order, |order|)
    && (forall w :: w in vertices && w !in order ==> v <= w)
    && v in labels && labels[v] == 0
  }

  /** v is the next vertex beside the one at index j, which is the first with new vertices beside it. */
  ghost predicate Continues(edges: seq<Edge>, vertices: set<Digest>, order: seq<Digest>, v: Digest, labels: Labels, j: nat)
    requires j < |order|
  {
    && IsClosed(edges, vertices, order, j)
    && (forall w :: w in vertices && w !in order && Adjacent(edges, order[j], w) ==> v <= w)
    && v in labels && order[j] in labels
    && exists e :: IsFirstEdge(edges, order[j], v, e) && labels[v] == Xor(labels[order[j]], e.mask)
  }

  ghost predicate IsNext(edges: seq<Edge>, vertices: set<Digest>, order: seq<Digest>, v: Digest, labels: Labels) {
    && v in vertices && v !in order
    && (Begins(edges, vertices, order, v, labels)
      || exists j :: 0 <= j < |order| && Continues(edges, vertices, order, v, labels, j))
  }

  ghost predicate IsOrder(edges: seq<Edge>, vertices: set<Digest>, order: seq<Digest>, labels: Labels) {
    forall i :: 0 <= i < |order| ==> IsNext(edges, vertices, order[..i], order[i], labels)
  }

  // ---------- growing ----------

  lemma NextStays(edges: seq<Edge>, vertices: set<Digest>, order: seq<Digest>, v: Digest, labels: Labels, more: Labels)
    requires IsNext(edges, vertices, order, v, labels)
    requires forall w :: w in labels ==> w in more && more[w] == labels[w]
    ensures IsNext(edges, vertices, order, v, more)
  {
    hide IsClosed, IsFirstEdge, Adjacent, Xor;
    if j :| 0 <= j < |order| && Continues(edges, vertices, order, v, labels, j) {
      assert Continues(edges, vertices, order, v, more, j);
    }
  }

  lemma OrderGrows(edges: seq<Edge>, vertices: set<Digest>, order: seq<Digest>, v: Digest, labels: Labels, more: Labels)
    requires IsOrder(edges, vertices, order, labels) && IsNext(edges, vertices, order, v, more)
    requires forall w :: w in labels ==> w in more && more[w] == labels[w]
    ensures IsOrder(edges, vertices, order + [v], more)
  {
    hide IsNext;
    var longer := order + [v];
    forall i | 0 <= i < |longer| ensures IsNext(edges, vertices, longer[..i], longer[i], more) {
      if i < |order| {
        assert longer[..i] == order[..i];
        NextStays(edges, vertices, order[..i], order[i], labels, more);
      } else {
        assert longer[..i] == order;
      }
    }
  }

  /** An order that holds all vertices has no continuation. */
  lemma NothingFollows(edges: seq<Edge>, vertices: set<Digest>, order: seq<Digest>, longer: seq<Digest>, labels: Labels)
    requires IsOrder(edges, vertices, longer, labels) && |order| <= |longer| && longer[..|order|] == order
    requires forall v :: v in vertices ==> v in order
    ensures order == longer
  {
    OrderIsFresh(edges, vertices, longer, labels, |order|);
    assert longer[..|longer|] == longer;
  }

  lemma OrderIsFresh(edges: seq<Edge>, vertices: set<Digest>, order: seq<Digest>, labels: Labels, n: nat)
    requires IsOrder(edges, vertices, order, labels)
    ensures n < |order| ==> order[n] in vertices && order[n] !in order[..n]
  {
    hide Begins, Continues;
  }

  // ---------- there is one order, and one labelling ----------

  lemma FirstEdgeIsUnique(edges: seq<Edge>, u: Digest, v: Digest, e: Edge, f: Edge)
    requires forall i, j :: 0 <= i < j < |edges| ==> edges[i].id != edges[j].id
    requires IsFirstEdge(edges, u, v, e) && IsFirstEdge(edges, u, v, f)
    ensures e == f
  {
  }

  ghost predicate SameEdges(edges: seq<Edge>, others: seq<Edge>) {
    forall e :: e in edges <==> e in others
  }

  lemma AdjacentAlike(edges: seq<Edge>, others: seq<Edge>)
    requires SameEdges(edges, others)
    ensures forall u, v :: Adjacent(edges, u, v) <==> Adjacent(others, u, v)
    ensures forall u, v, e :: IsFirstEdge(edges, u, v, e) <==> IsFirstEdge(others, u, v, e)
  {
  }

  lemma NextAlike(edges: seq<Edge>, others: seq<Edge>, vertices: set<Digest>, order: seq<Digest>, v: Digest, labels: Labels)
    requires SameEdges(edges, others) && IsNext(edges, vertices, order, v, labels)
    ensures IsNext(others, vertices, order, v, labels)
  {
    AdjacentAlike(edges, others);
    hide Adjacent, IsFirstEdge, Xor, SameEdges;
    if j :| 0 <= j < |order| && Continues(edges, vertices, order, v, labels, j) {
      assert Continues(others, vertices, order, v, labels, j);
    }
  }

  lemma NextIsUnique(edges: seq<Edge>, vertices: set<Digest>, order: seq<Digest>, v: Digest, labels: Labels, w: Digest, others: Labels)
    requires forall i, j :: 0 <= i < j < |edges| ==> edges[i].id != edges[j].id
    requires IsNext(edges, vertices, order, v, labels) && IsNext(edges, vertices, order, w, others)
    requires forall u :: u in order ==> u in labels && u in others && labels[u] == others[u]
    ensures v == w && v in labels && v in others && labels[v] == others[v]
  {
    hide IsFirstEdge, Xor;
    if Begins(edges, vertices, order, v, labels) {
      NotBoth(edges, vertices, order, w, others);
    } else {
      var j :| 0 <= j < |order| && Continues(edges, vertices, order, v, labels, j);
      NotBoth(edges, vertices, order, v, labels);
      var e :| IsFirstEdge(edges, order[j], v, e) && labels[v] == Xor(labels[order[j]], e.mask);
      JoinedByFirst(edges, order[j], v, e);
      assert !Begins(edges, vertices, order, w, others);
      var k :| 0 <= k < |order| && Continues(edges, vertices, order, w, others, k);
      var f :| IsFirstEdge(edges, order[k], w, f) && others[w] == Xor(others[order[k]], f.mask);
      JoinedByFirst(edges, order[k], w, f);
      assert j == k;
      FirstEdgeIsUnique(edges, order[j], v, e, f);
    }
  }

  lemma JoinedByFirst(edges: seq<Edge>, u: Digest, v: Digest, e: Edge)
    requires IsFirstEdge(edges, u, v, e)
    ensures Adjacent(edges, u, v)
  {
  }

  lemma NotBoth(edges: seq<Edge>, vertices: set<Digest>, order: seq<Digest>, v: Digest, labels: Labels)
    requires v in vertices && v !in order
    ensures forall j :: 0 <= j < |order| && Continues(edges, vertices, order, v, labels, j) ==>
      !IsClosed(edges, vertices, order, |order|)
  {
    forall j | 0 <= j < |order| && Continues(edges, vertices, order, v, labels, j)
      ensures !IsClosed(edges, vertices, order, |order|)
    {
      var e :| IsFirstEdge(edges, order[j], v, e);
      JoinedByFirst(edges, order[j], v, e);
      assert Adjacent(edges, order[j], v);
    }
  }

  /** The order is fixed, as far as both go, by the vertices and the edges as a set; and so are the labels. */
  lemma {:induction false} OrderIsUnique(edges: seq<Edge>, others: seq<Edge>, vertices: set<Digest>,
    order: seq<Digest>, labels: Labels, second: seq<Digest>, more: Labels, n: nat)
    requires forall i, j :: 0 <= i < j < |edges| ==> edges[i].id != edges[j].id
    requires SameEdges(edges, others)
    requires IsOrder(edges, vertices, order, labels) && IsOrder(others, vertices, second, more)
    requires n <= |order| && n <= |second|
    ensures order[..n] == second[..n]
    ensures forall v :: v in order[..n] ==> v in labels && v in more && labels[v] == more[v]
  {
    hide IsNext;
    if n > 0 {
      OrderIsUnique(edges, others, vertices, order, labels, second, more, n - 1);
      var k := n - 1;
      NextAlike(others, edges, vertices, second[..k], second[k], more);
      NextIsUnique(edges, vertices, order[..k], order[k], labels, second[k], more);
      assert order[..n] == order[..k] + [order[k]] && second[..n] == second[..k] + [second[k]];
    }
  }
}
