/**
 * The part of a networkx `DiGraph` the editor relies on.
 *
 * Node ids are either the positive integers the ADD_NODE click allocates or the strings the bulk
 * and template loaders create. networkx keeps nodes and each node's successors in insertion order,
 * and `DiGraph.edges` yields, for each node in node order, its out-edges in the order they were
 * first added. The model keeps the node order and the global edge insertion order; the per-node
 * order is the global one restricted to that source.
 */
module Graph {
  import opened Seqs

  datatype NodeId = IntId(n: nat) | StrId(s: string)

  /** A directed pair (source, target). */
  type Pair = (NodeId, NodeId)

  /** The edge attribute dictionary `{weight, label, color}` (`label` becomes `text`). */
  datatype EdgeData = EdgeData(weight: real, text: string, color: string)

  datatype DiGraph = DiGraph(nodes: seq<NodeId>, edges: map<Pair, EdgeData>, edgeOrder: seq<Pair>)

  /** What networkx guarantees structurally: every edge's endpoints are nodes. */
  ghost predicate Wf(g: DiGraph) {
    && Distinct(g.nodes)
    && Distinct(g.edgeOrder)
    && (forall e :: e in g.edges <==> e in g.edgeOrder)
    && (forall e :: e in g.edges ==> e.0 in g.nodes && e.1 in g.nodes)
  }

  /** `nx.DiGraph()`, and the graph `clear()` leaves behind. */
  function Empty(): (g: DiGraph)
    ensures Wf(g)
    ensures g.nodes == [] && g.edges == map[]
  {
    DiGraph([], map[], [])
  }

  /** `add_node(n)`: appended when new, otherwise the order is unchanged. */
  function AddNode(g: DiGraph, n: NodeId): (r: DiGraph)
    ensures n in r.nodes
    ensures forall m :: m in r.nodes <==> m in g.nodes || m == n
    ensures n in g.nodes ==> r == g
    ensures n !in g.nodes ==> r.nodes == g.nodes + [n]
    ensures r.edges == g.edges && r.edgeOrder == g.edgeOrder
    ensures Wf(g) ==> Wf(r)
  {
    if n in g.nodes then g else g.(nodes := g.nodes + [n])
  }

  /** `has_edge(u, v)`. */
  predicate HasEdge(g: DiGraph, u: NodeId, v: NodeId) {
    (u, v) in g.edges
  }

  /**
   * `add_edge(u, v, **attrs)`: missing endpoints are added as nodes (u first), and an existing
   * (u, v) has its attributes replaced while keeping its place in the iteration order.
   */
  function AddEdge(g: DiGraph, u: NodeId, v: NodeId, d: EdgeData): (r: DiGraph)
    ensures r.edges == g.edges[(u, v) := d]
    ensures forall m :: m in r.nodes <==> m in g.nodes || m == u || m == v
    ensures u in g.nodes && v in g.nodes ==> r.nodes == g.nodes
    ensures HasEdge(g, u, v) ==> r.edgeOrder == g.edgeOrder
    ensures !HasEdge(g, u, v) ==> r.edgeOrder == g.edgeOrder + [(u, v)]
    ensures Wf(g) ==> Wf(r)
  {
    var withEnds := AddNode(AddNode(g, u), v);
    var order := if (u, v) in g.edges then g.edgeOrder else g.edgeOrder + [(u, v)];
    DiGraph(withEnds.nodes, g.edges[(u, v) := d], order)
  }

  /** True when the edge does not touch node `n`. */
  predicate Avoids(e: Pair, n: NodeId) {
    e.0 != n && e.1 != n
  }

  /** The filter keeping every node but `n`. */
  function IsNot(n: NodeId): NodeId -> bool {
    m => m != n
  }

  /** The filter keeping the edges that do not touch `n`. */
  function Avoiding(n: NodeId): Pair -> bool {
    e => Avoids(e, n)
  }

  /**
   * `remove_node(n)` for a node of the graph (networkx raises for any other): the node and every edge into or out of it go;
   * everything else keeps its attributes and its order.
   */
  function RemoveNode(g: DiGraph, n: NodeId): (r: DiGraph)
    requires Wf(g) && n in g.nodes
    ensures forall m :: m in r.nodes <==> m in g.nodes && m != n
    ensures forall e :: e in r.edges <==> e in g.edges && Avoids(e, n)
    ensures forall e :: e in r.edges ==> r.edges[e] == g.edges[e]
    ensures Wf(r)
  {
    var nodes := Filter(g.nodes, IsNot(n));
    var order := Filter(g.edgeOrder, Avoiding(n));
    var edges := map e | e in g.edges && Avoids(e, n) :: g.edges[e];
    FilterDistinct(g.nodes, IsNot(n));
    FilterDistinct(g.edgeOrder, Avoiding(n));
    DiGraph(nodes, edges, order)
  }

  /** The out-edges of `u`, in insertion order. */
  function EdgesFrom(order: seq<Pair>, u: NodeId): (r: seq<Pair>)
    ensures forall e :: e in r <==> e in order && e.0 == u
  {
    Filter(order, (e: Pair) => e.0 == u)
  }

  /** The order `DiGraph.edges` yields: node by node, each node's out-edges in insertion order. */
  function EdgeSequence(nodes: seq<NodeId>, order: seq<Pair>): (r: seq<Pair>)
    ensures forall e :: e in r <==> e in order && e.0 in nodes
  {
    if |nodes| == 0 then []
    else EdgesFrom(order, nodes[0]) + EdgeSequence(nodes[1..], order)
  }

  /**
   * Over distinct nodes and a duplicate-free insertion order, no edge is yielded twice: each
   * node's run is a filter of the order, and runs of different nodes have different sources.
   */
  lemma {:induction false} EdgeSequenceDistinct(nodes: seq<NodeId>, order: seq<Pair>)
    requires Distinct(nodes) && Distinct(order)
    ensures Distinct(EdgeSequence(nodes, order))
  {
    if |nodes| > 0 {
      var rest := nodes[1..];
      assert Distinct(rest) by {
        forall i, j | 0 <= i < j < |rest| ensures rest[i] != rest[j] {
          assert rest[i] == nodes[i + 1] && rest[j] == nodes[j + 1];
        }
      }
      EdgeSequenceDistinct(rest, order);
      FilterDistinct(order, (e: Pair) => e.0 == nodes[0]);
      assert nodes[0] !in rest;
      DistinctAppend(EdgesFrom(order, nodes[0]), EdgeSequence(rest, order));
    }
  }

  /** `for u, v, data in graph.edges(data=True)`: every edge of the graph, each one once. */
  function IterEdges(g: DiGraph): (r: seq<Pair>)
    requires Wf(g)
    ensures forall e :: e in r <==> e in g.edges
    ensures Distinct(r)
    ensures |r| == |g.edges|
  {
    var r := EdgeSequence(g.nodes, g.edgeOrder);
    EdgeSequenceDistinct(g.nodes, g.edgeOrder);
    DistinctCard(r);
    assert (set e | e in r) == g.edges.Keys;
    r
  }

  /** Removing a node that was just added gives back the graph it was added to. */
  lemma RemoveAddedNode(g: DiGraph, n: NodeId)
    requires Wf(g) && n !in g.nodes
    ensures RemoveNode(AddNode(g, n), n) == g
  {
    var r := RemoveNode(AddNode(g, n), n);
    RemoveAddedNodeOrder(g, n);
    RemoveAddedNodeEdges(g, n);
    assert r.nodes == g.nodes && r.edgeOrder == g.edgeOrder && r.edges == g.edges;
  }

  lemma RemoveAddedNodeOrder(g: DiGraph, n: NodeId)
    requires Wf(g) && n !in g.nodes
    ensures RemoveNode(AddNode(g, n), n).nodes == g.nodes
    ensures RemoveNode(AddNode(g, n), n).edgeOrder == g.edgeOrder
  {
    assert AddNode(g, n) == g.(nodes := g.nodes + [n]);
    FilterAppend(g.nodes, [n], IsNot(n));
    FilterAll(g.nodes, IsNot(n));
    assert Filter([n], IsNot(n)) == [];
    FilterAll(g.edgeOrder, Avoiding(n));
  }

  lemma RemoveAddedNodeEdges(g: DiGraph, n: NodeId)
    requires Wf(g) && n !in g.nodes
    ensures RemoveNode(AddNode(g, n), n).edges == g.edges
  {
    assert AddNode(g, n) == g.(nodes := g.nodes + [n]);
    assert (map e | e in g.edges && Avoids(e, n) :: g.edges[e]) == g.edges;
  }
}
