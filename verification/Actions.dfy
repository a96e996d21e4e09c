/** Actions, and the directed multigraph of a window of actions (`build_action_graph`).

    SHA-256 is an unknown function from descriptors to digests, passed around as `Digests`.
    Where two different descriptors must not collide, that is stated as a hypothesis. */
module Actions {
  import opened Graphs
  import opened Outcomes
  import opened Sorting

  datatype Option<+T> = None | Some(value: T)

  datatype Authority = SimOnly | ReadOnlyExternal | WorkspaceWrite | Network | ControlledExecution

  function MaskOf(a: Authority): Mask {
    match a
    case SimOnly => 0
    case ReadOnlyExternal => 1
    case WorkspaceWrite => 2
    case Network => 4
    case ControlledExecution => 8
  }

  /** The single authorities in a mask. */
  ghost function Grants(m: Mask): set<Authority> {
    set a: Authority | a != SimOnly && m & MaskOf(a) != 0
  }

  /** Each authority but SIM_ONLY, which is none at all, is a bit of its own, in ascending order. */
  lemma AuthorityBits()
    ensures Grants(MaskOf(SimOnly)) == {}
    ensures forall a: Authority :: a != SimOnly ==> Grants(MaskOf(a)) == {a}
    ensures MaskOf(ReadOnlyExternal) < MaskOf(WorkspaceWrite) < MaskOf(Network) < MaskOf(ControlledExecution)
    ensures MaskOf(ReadOnlyExternal) == 1
  {
    forall a: Authority | a != SimOnly ensures Grants(MaskOf(a)) == {a} {
      GrantsAre(MaskOf(a));
      match a
      case ReadOnlyExternal =>
      case WorkspaceWrite =>
      case Network =>
      case ControlledExecution =>
    }
  }

  lemma GrantsAre(m: Mask)
    ensures Grants(m) == (if m & 1 != 0 then {ReadOnlyExternal} else {}) + (if m & 2 != 0 then {WorkspaceWrite} else {})
      + (if m & 4 != 0 then {Network} else {}) + (if m & 8 != 0 then {ControlledExecution} else {})
  {
  }

  /** The weight of a mask is the number of authorities in it. */
  lemma WeightIsAuthorities(m: Mask)
    ensures BitCount(m) == |Grants(m)|
  {
    GrantsAre(m);
    var a := if m & 1 != 0 then {ReadOnlyExternal} else {};
    var b := if m & 2 != 0 then {WorkspaceWrite} else {};
    var c := if m & 4 != 0 then {Network} else {};
    var d := if m & 8 != 0 then {ControlledExecution} else {};
    hide Grants;
    assert |a + b| == |a| + |b|;
    assert |a + b + c| == |a + b| + |c|;
    assert |a + b + c + d| == |a + b + c| + |d|;
  }

  datatype Producer = Producer(agentId: string, workloadId: Option<string>)

  /** A normalized action; `parameterLength` is the length of its canonical parameters. */
  datatype Action = Action(actionId: string, sequence: nat, producer: Producer, service: string, operation: string,
    target: string, parameterLength: nat, authority: Authority, slot: Option<nat>)

  datatype VertexCore =
    | Actor(agentId: string, workloadId: Option<string>)
    | Resource(service: string, target: string, slot: Option<nat>)

  datatype EdgeCore = EdgeCore(sequence: nat, actionId: string, source: Digest, target: Digest,
    service: string, operation: string, name: string, authority: Authority, mask: Mask)

  datatype Digests = Digests(vertex: VertexCore -> Digest, edge: EdgeCore -> Digest)

  predicate IsInbound(service: string, operation: string) {
    (service, operation) in {("file", "read"), ("ipc", "read"), ("ipc", "recv"), ("model", "recv"),
      ("network", "download"), ("network", "recv"), ("network", "receive"), ("tool", "read")}
  }

  function ActorOf(a: Action, h: Digests): Digest {
    h.vertex(Actor(a.producer.agentId, a.producer.workloadId))
  }

  function ResourceOf(a: Action, h: Digests): Digest {
    h.vertex(Resource(a.service, a.target, if a.service == "ipc" then a.slot else None))
  }

  function SourceOf(a: Action, h: Digests): Digest {
    if IsInbound(a.service, a.operation) then ResourceOf(a, h) else ActorOf(a, h)
  }

  function TargetOf(a: Action, h: Digests): Digest {
    if IsInbound(a.service, a.operation) then ActorOf(a, h) else ResourceOf(a, h)
  }

  function CoreOf(a: Action, h: Digests): EdgeCore {
    EdgeCore(a.sequence, a.actionId, SourceOf(a, h), TargetOf(a, h), a.service, a.operation,
      a.service + "." + a.operation, a.authority, MaskOf(a.authority))
  }

  function EdgeOf(a: Action, h: Digests): Edge {
    var core := CoreOf(a, h);
    Edge(h.edge(core), core.source, core.target, core.sequence, core.actionId, core.name, core.mask)
  }

  /** Whether the action brings something in: then its edge points at the actor. */
  ghost predicate BringsIn(a: Action) {
    || (a.service == "file" && a.operation == "read")
    || (a.service == "ipc" && (a.operation == "read" || a.operation == "recv"))
    || (a.service == "model" && a.operation == "recv")
    || (a.service == "network" && (a.operation == "download" || a.operation == "recv" || a.operation == "receive"))
    || (a.service == "tool" && a.operation == "read")
  }

  /** The edge of an action, part by part: it joins the actor and the resource, which counts the slot
      of a message only, and carries the authority that the action asks for. */
  lemma EdgeMeans(a: Action, h: Digests)
    ensures var e := EdgeOf(a, h);
      var actor := h.vertex(Actor(a.producer.agentId, a.producer.workloadId));
      var resource := h.vertex(Resource(a.service, a.target, if a.service == "ipc" then a.slot else None));
      && (BringsIn(a) ==> e.source == resource && e.target == actor)
      && (!BringsIn(a) ==> e.source == actor && e.target == resource)
      && e.sequence == a.sequence && e.action == a.actionId && e.operation == a.service + "." + a.operation
      && Grants(e.mask) == (if a.authority == SimOnly then {} else {a.authority})
      && e.id == h.edge(EdgeCore(a.sequence, a.actionId, e.source, e.target, a.service, a.operation, e.operation,
        a.authority, e.mask))
  {
    AuthorityBits();
    hide Grants, MaskOf;
  }

  function EdgesOf(actions: seq<Action>, h: Digests): (edges: seq<Edge>)
    ensures |edges| == |actions|
    ensures forall i :: 0 <= i < |actions| ==> edges[i] == EdgeOf(actions[i], h)
  {
    seq(|actions|, i requires 0 <= i < |actions| => EdgeOf(actions[i], h))
  }

  /** No two of these actions have edges that collide. */
  ghost predicate EdgesDoNotCollide(h: Digests, actions: seq<Action>) {
    forall a, b :: a in actions && b in actions && h.edge(CoreOf(a, h)) == h.edge(CoreOf(b, h)) ==> CoreOf(a, h) == CoreOf(b, h)
  }

  /** What `_normalize_actions` checks: ascending sequence numbers and distinct identifiers. */
  ghost predicate IsStream(actions: seq<Action>) {
    forall i, j :: 0 <= i < j < |actions| ==>
      actions[i].sequence < actions[j].sequence && actions[i].actionId != actions[j].actionId
  }

  predicate EdgeBefore(a: Edge, b: Edge) {
    a.sequence < b.sequence || (a.sequence == b.sequence && a.id <= b.id)
  }

  lemma {:induction false} SortOfOrdered(edges: seq<Edge>)
    requires forall i, j :: 0 <= i < j < |edges| ==> edges[i].sequence < edges[j].sequence
    ensures Sort(edges, EdgeBefore) == edges
  {
    if edges != [] {
      SortOfOrdered(edges[..|edges| - 1]);
    }
  }

  ghost predicate IsActionGraph(g: Graph, actions: seq<Action>, h: Digests) {
    && g.edges == EdgesOf(actions, h)
    && (forall i, j :: 0 <= i < j < |g.vertices| ==> g.vertices[i] < g.vertices[j])
    && (forall v :: v in g.vertices <==> exists e :: e in g.edges && (e.source == v || e.target == v))
    && |g.vertices| <= 2 * |actions|
  }

  /** The keys of the vertex dictionary: the ends of the edges so far, each once. */
  ghost predicate AreEnds(vertices: seq<Digest>, edges: seq<Edge>) {
    && (forall v :: v in vertices <==> exists e :: e in edges && (e.source == v || e.target == v))
    && (forall i, j :: 0 <= i < j < |vertices| ==> vertices[i] != vertices[j])
    && |vertices| <= 2 * |edges|
  }

  lemma EndsExtend(vertices: seq<Digest>, edges: seq<Edge>, a: Action, h: Digests)
    requires AreEnds(vertices, edges)
    ensures AreEnds(Include(Include(vertices, ActorOf(a, h)), ResourceOf(a, h)), edges + [EdgeOf(a, h)])
  {
    var edge := EdgeOf(a, h);
    var all := edges + [edge];
    EdgeEnds(a, h);
    hide EdgeOf, ActorOf, ResourceOf, Include;
    assert edge in all;
    forall v | v in vertices ensures exists e :: e in all && (e.source == v || e.target == v) {
      var e :| e in edges && (e.source == v || e.target == v);
      assert e in all;
    }
  }

  method BuildActionGraph(actions: seq<Action>, h: Digests) returns (result: Result<Graph>)
    requires IsStream(actions)
    ensures result.Success? <==> actions != []
    ensures result.Failure? ==> result.error == GraphInvalid
    ensures result.Success? ==> IsActionGraph(result.value, actions, h)
  {
    hide EdgeOf, EdgeBefore, AreEnds, ActorOf, ResourceOf, Include, EdgesOf, Sort;
    if actions == [] {
      return Failure(GraphInvalid);
    }
    var vertices: seq<Digest> := [];
    var edges: seq<Edge> := [];
    NoEnds();
    for index := 0 to |actions|
      invariant edges == EdgesOf(actions[..index], h)
      invariant AreEnds(vertices, edges)
    {
      var action := actions[index];
      EdgesExtend(actions, index, h);
      EndsExtend(vertices, edges, action, h);
      vertices := Include(vertices, ActorOf(action, h));
      vertices := Include(vertices, ResourceOf(action, h));
      edges := edges + [EdgeOf(action, h)];
    }
    assert actions[..|actions|] == actions;
    var sorted := Sort(vertices, AtMost);
    EdgesAscend(actions, h);
    SortOfOrdered(edges);
    AllEnds(vertices, edges, sorted);
    result := Success(Graph(sorted, Sort(edges, EdgeBefore)));
  }

  lemma EdgesExtend(actions: seq<Action>, k: nat, h: Digests)
    requires k < |actions|
    ensures EdgesOf(actions[..k + 1], h) == EdgesOf(actions[..k], h) + [EdgeOf(actions[k], h)]
  {
    hide EdgeOf;
  }

  lemma NoEnds()
    ensures AreEnds([], [])
  {
  }

  lemma AllEnds(vertices: seq<Digest>, edges: seq<Edge>, sorted: seq<Digest>)
    requires AreEnds(vertices, edges) && sorted == Sort(vertices, AtMost)
    ensures forall v :: v in sorted <==> exists e :: e in edges && (e.source == v || e.target == v)
    ensures forall i, j :: 0 <= i < j < |sorted| ==> sorted[i] < sorted[j]
    ensures |sorted| <= 2 * |edges|
  {
    AtMostIsTotal();
    SortSorts(vertices, AtMost);
    SortedDistinct(vertices, sorted);
  }

  lemma EdgeEnds(a: Action, h: Digests)
    ensures var e := EdgeOf(a, h);
      (e.source == ActorOf(a, h) && e.target == ResourceOf(a, h))
      || (e.source == ResourceOf(a, h) && e.target == ActorOf(a, h))
  {
  }

  lemma EdgesAscend(actions: seq<Action>, h: Digests)
    requires IsStream(actions)
    ensures forall i, j :: 0 <= i < j < |actions| ==> EdgesOf(actions, h)[i].sequence < EdgesOf(actions, h)[j].sequence
  {
  }

  /** Without collisions the result is a graph in the sense the sensors rely on. */
  lemma ActionGraphIsGraph(g: Graph, actions: seq<Action>, h: Digests)
    requires IsActionGraph(g, actions, h) && IsStream(actions) && EdgesDoNotCollide(h, actions)
    ensures IsGraph(g)
  {
    forall i, j | 0 <= i < j < |g.edges| ensures g.edges[i].id != g.edges[j].id {
      assert CoreOf(actions[i], h) != CoreOf(actions[j], h);
    }
  }
}
