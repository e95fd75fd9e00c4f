/** The fluent builder: a workflow leaves `Build` only with valid references and without cycles. */
module DagBuilder {
  import opened Pointer
  import opened Graphs
  import opened Errors
  import TopoSort

  datatype Dag<N> = Dag(name: string, nodes: map<NodeId, N>, edges: seq<Edge>)

  /** `id` is what the reference check reports: the first unknown id, a source before its target. */
  ghost predicate FirstUnknown(g: Graph, id: NodeId) {
    exists i ::
      0 <= i < |g.edges| && UnknownEnd(g, i, id) &&
      forall j | 0 <= j < i :: g.edges[j].from in g.nodes && g.edges[j].to in g.nodes
  }

  ghost predicate UnknownEnd(g: Graph, i: nat, id: NodeId)
    requires i < |g.edges|
  {
    if g.edges[i].from !in g.nodes then id == g.edges[i].from
    else g.edges[i].to !in g.nodes && id == g.edges[i].to
  }

  /** Of the first edge with an unknown end the source is reported if it is unknown, otherwise the target. */
  lemma FirstUnknownIs(g: Graph, i: nat, id: NodeId)
    requires i < |g.edges| && forall j | 0 <= j < i :: g.edges[j].from in g.nodes && g.edges[j].to in g.nodes
    requires g.edges[i].from !in g.nodes || g.edges[i].to !in g.nodes
    ensures FirstUnknown(g, id) <==> id == if g.edges[i].from !in g.nodes then g.edges[i].from else g.edges[i].to
  {
    if FirstUnknown(g, id) {
      var k :| 0 <= k < |g.edges| && UnknownEnd(g, k, id) &&
               forall j | 0 <= j < k :: g.edges[j].from in g.nodes && g.edges[j].to in g.nodes;
      assert k == i;
    } else {
      assert !UnknownEnd(g, i, id);
    }
  }

  class Builder<N> {
    const name: string
    var nodes: map<NodeId, N>
    var edges: seq<Edge>

    constructor (name: string)
      ensures this.name == name && nodes == map[] && edges == []
    {
      this.name := name;
      nodes, edges := map[], [];
    }

    ghost function Shape(): Graph
      reads this
    {
      Graph(nodes.Keys, edges)
    }

    method Node(id: NodeId, payload: N)
      modifies this`nodes
      ensures nodes == old(nodes)[id := payload]
    {
      nodes := nodes[id := payload];
    }

    method Edge(from: NodeId, to: NodeId, condition: EdgeCondition)
      modifies this`edges
      ensures edges == old(edges) + [Graphs.Edge(from, to, condition)]
    {
      edges := edges + [Graphs.Edge(from, to, condition)];
    }

    method Build() returns (r: Result<Dag<N>>)
      ensures r.Ok? <==> ValidRefs(Shape()) && Acyclic(Shape())
      ensures r.Ok? ==> r.value == Dag(name, nodes, edges)
      ensures !ValidRefs(Shape()) ==>
                r.Err? && r.error.NodeNotFound? && FirstUnknown(Shape(), r.error.id)
      ensures ValidRefs(Shape()) && r.Err? ==> r.error == CycleDetected
    {
      var g := Graph(nodes.Keys, edges);
      for i := 0 to |edges|
        invariant forall j | 0 <= j < i :: edges[j].from in g.nodes && edges[j].to in g.nodes
      {
        if edges[i].from !in g.nodes {
          assert UnknownEnd(g, i, edges[i].from);
          return Err(NodeNotFound(edges[i].from));
        }
        if edges[i].to !in g.nodes {
          assert UnknownEnd(g, i, edges[i].to);
          return Err(NodeNotFound(edges[i].to));
        }
      }
      var sorted, _, _ := TopoSort.Sort(g);
      r := if sorted.Err? then Err(sorted.error) else Ok(Dag(name, nodes, edges));
    }
  }

  /** Node "b" is its own predecessor, and "x" is not a node. */
  function Fooled(): Graph {
    Graph({"a", "b"}, [Graphs.Edge("a", "x", Always), Graphs.Edge("b", "b", Always)])
  }

  lemma FooledOrder()
    ensures TopoSort.PredsFirst(Fooled(), ["a", "x"]) && TopoSort.Exhausted(Fooled(), ["a", "x"])
    ensures Preds(Fooled(), "b") == {"b"}
  {
    var g := Fooled();
    var order: seq<NodeId> := ["a", "x"];
    assert g.edges[0] in g.edges && g.edges[1] in g.edges;
    assert TopoSort.Vertices(g) == {"a", "b", "x"};
    assert Preds(g, "a") == {} && Preds(g, "x") == {"a"} && Preds(g, "b") == {"b"};
    assert order[0] == "a";
    assert TopoSort.Before(order, 1, "a");
    assert !TopoSort.Eligible(g, "b", order);
  }

  /**
   Without the reference check the sort alone is fooled: an unknown target can stand in for a node
   on a cycle, so that the lengths agree. Every finished Kahn order of the graph above has the right
   length, so the sort accepts it, cycle and all.
   */
  lemma UnknownTargetHidesCycle()
    ensures !Acyclic(Fooled())
    ensures forall order | TopoSort.PredsFirst(Fooled(), order) && TopoSort.Exhausted(Fooled(), order) ::
              |order| == |Fooled().nodes|
    ensures |TopoSort.GroundedUnknown(Fooled())| == |TopoSort.UngroundedNodes(Fooled())|
  {
    FooledOrder();
    TopoSort.AcceptsIff(Fooled(), ["a", "x"]);
    assert IsCycle(Fooled(), ["b", "b"]);
    forall order | TopoSort.PredsFirst(Fooled(), order) && TopoSort.Exhausted(Fooled(), order)
      ensures |order| == |Fooled().nodes|
    {
      TopoSort.KahnOrdersAgree(Fooled(), ["a", "x"], order);
    }
  }
}
