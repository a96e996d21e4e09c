/** Action graphs: a directed multigraph whose vertices and edges are named by digests.

    A digest is modelled by an integer: all that matters is that digests are compared and sorted. */
module Graphs {

  type Digest = int

  /** An authority, as an element of the group Z2^4. */
  type Mask = bv4

  datatype Edge = Edge(id: Digest, source: Digest, target: Digest, sequence: nat, action: string, operation: string, mask: Mask)

  datatype Graph = Graph(vertices: seq<Digest>, edges: seq<Edge>)

  /** What `build_action_graph` guarantees of its result. */
  ghost predicate IsGraph(g: Graph) {
    && (forall i, j :: 0 <= i < j < |g.vertices| ==> g.vertices[i] < g.vertices[j])
    && (forall e :: e in g.edges ==> e.source in g.vertices && e.target in g.vertices)
    && (forall i, j :: 0 <= i < j < |g.edges| ==> g.edges[i].id != g.edges[j].id)
  }

  // ---------- the group Z2^4 ----------

  function Xor(a: Mask, b: Mask): Mask {
    a ^ b
  }

  lemma XorLaws(a: Mask, b: Mask, c: Mask)
    ensures Xor(a, b) == Xor(b, a)
    ensures Xor(Xor(a, b), c) == Xor(a, Xor(b, c))
    ensures Xor(a, a) == 0
    ensures Xor(a, 0) == a
    ensures Xor(a, b) == 0 <==> a == b
  {
  }

  /** The Hamming weight. */
  function BitCount(m: Mask): (n: nat)
    ensures n <= 4
    ensures n == 0 <==> m == 0
  {
    (if m & 1 != 0 then 1 else 0) + (if m & 2 != 0 then 1 else 0)
      + (if m & 4 != 0 then 1 else 0) + (if m & 8 != 0 then 1 else 0)
  }

  // ---------- walks ----------

  /** One edge, passed in its own direction or against it. */
  datatype Step = Step(edge: Edge, forward: bool) {
    function Start(): Digest {
      if forward then edge.source else edge.target
    }

    function End(): Digest {
      if forward then edge.target else edge.source
    }
  }

  /** A walk in the undirected multigraph. */
  ghost predicate IsWalk(edges: seq<Edge>, start: Digest, end: Digest, walk: seq<Step>)
    decreases |walk|
  {
    if walk == [] then start == end
    else walk[0].edge in edges && walk[0].Start() == start && IsWalk(edges, walk[0].End(), end, walk[1..])
  }

  /** The authority transported along a walk. */
  ghost function Transport(walk: seq<Step>): Mask {
    if walk == [] then 0 else Xor(walk[0].edge.mask, Transport(walk[1..]))
  }

  ghost function Backwards(walk: seq<Step>): seq<Step> {
    if walk == [] then [] else Backwards(walk[1..]) + [Step(walk[0].edge, !walk[0].forward)]
  }

  lemma {:induction false} WalkJoins(edges: seq<Edge>, a: Digest, b: Digest, c: Digest, first: seq<Step>, second: seq<Step>)
    requires IsWalk(edges, a, b, first) && IsWalk(edges, b, c, second)
    ensures IsWalk(edges, a, c, first + second)
    ensures Transport(first + second) == Xor(Transport(first), Transport(second))
    decreases |first|
  {
    hide Xor;
    if first == [] {
      assert first + second == second;
      XorLaws(Transport(second), 0, 0);
    } else {
      assert (first + second)[1..] == first[1..] + second;
      WalkJoins(edges, first[0].End(), b, c, first[1..], second);
      XorLaws(first[0].edge.mask, Transport(first[1..]), Transport(second));
    }
  }

  lemma OneStep(edges: seq<Edge>, step: Step)
    requires step.edge in edges
    ensures IsWalk(edges, step.Start(), step.End(), [step])
    ensures Transport([step]) == step.edge.mask
  {
    hide Xor;
    XorLaws(step.edge.mask, 0, 0);
    assert [step][1..] == [];
  }

  lemma {:induction false} WalkReverses(edges: seq<Edge>, a: Digest, b: Digest, walk: seq<Step>)
    requires IsWalk(edges, a, b, walk)
    ensures IsWalk(edges, b, a, Backwards(walk))
    ensures Transport(Backwards(walk)) == Transport(walk)
    decreases |walk|
  {
    hide Xor;
    if walk != [] {
      var step := Step(walk[0].edge, !walk[0].forward);
      WalkReverses(edges, walk[0].End(), b, walk[1..]);
      OneStep(edges, step);
      WalkJoins(edges, b, walk[0].End(), a, Backwards(walk[1..]), [step]);
      XorLaws(Transport(walk[1..]), walk[0].edge.mask, 0);
    }
  }

  lemma {:induction false} WalkInMore(edges: seq<Edge>, more: seq<Edge>, a: Digest, b: Digest, walk: seq<Step>)
    requires IsWalk(edges, a, b, walk) && forall e :: e in edges ==> e in more
    ensures IsWalk(more, a, b, walk)
    decreases |walk|
  {
    if walk != [] {
      WalkInMore(edges, more, walk[0].End(), b, walk[1..]);
    }
  }

  // ---------- path independence ----------

  /** Transport around every closed walk is trivial. */
  ghost predicate IsPathIndependent(edges: seq<Edge>) {
    forall v, walk :: IsWalk(edges, v, v, walk) ==> Transport(walk) == 0
  }

  /** A labelling of the vertices that explains every edge mask. */
  ghost predicate Explains(labels: map<Digest, Mask>, edges: seq<Edge>) {
    forall e :: e in edges ==>
      e.source in labels && e.target in labels && e.mask == Xor(labels[e.source], labels[e.target])
  }

  lemma {:induction false} ExplainedTransport(labels: map<Digest, Mask>, edges: seq<Edge>, a: Digest, b: Digest, walk: seq<Step>)
    requires Explains(labels, edges) && IsWalk(edges, a, b, walk) && a in labels
    ensures b in labels && Transport(walk) == Xor(labels[a], labels[b])
    decreases |walk|
  {
    hide Xor;
    if walk == [] {
      XorLaws(labels[a], 0, 0);
    } else {
      var c := walk[0].End();
      ExplainedTransport(labels, edges, c, b, walk[1..]);
      XorLaws(labels[a], labels[c], 0);
      XorLaws(labels[a], labels[c], Xor(labels[c], labels[b]));
      XorLaws(labels[c], labels[c], labels[b]);
      XorLaws(labels[b], 0, 0);
    }
  }

  lemma ExplainedIsPathIndependent(labels: map<Digest, Mask>, edges: seq<Edge>)
    requires Explains(labels, edges)
    ensures IsPathIndependent(edges)
  {
    hide Xor;
    forall v, walk: seq<Step> | IsWalk(edges, v, v, walk) ensures Transport(walk) == 0 {
      if walk != [] {
        assert walk[0].edge in edges;
        ExplainedTransport(labels, edges, v, v, walk);
        XorLaws(labels[v], 0, 0);
      }
    }
  }
}
