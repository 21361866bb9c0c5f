/**
 * The editor's state and the canvas-click, delete, clear and auto-layout handlers of
 * `GraphEditor` (graph_editor.py).
 *
 * A handler either returns the next state or the exception that aborted it. The Tk dialogs
 * become parameters: `askfloat` and `askstring` return `None` when cancelled. `math.sqrt` is the
 * `sqrt` parameter, and `winfo_width`/`winfo_height` are the `canvas` parameter.
 */
module Editor {
  import opened Wrappers
  import opened Seqs
  import opened Geometry
  import opened Graph
  import opened Scale
  import opened Relaxation

  /** `self.default_edge_color`. */
  const DefaultEdgeColor: string := "black"

  /** The relaxation after an edge is drawn. */
  const EdgeRelaxIterations: nat := 50

  /** The relaxation `auto_layout` runs. */
  const LayoutIterations: nat := 100

  /** The fields of `GraphEditor` the graph logic reads and writes. */
  datatype State = State(graph: DiGraph, pos: Positions, scale: Option<real>, selected: Option<NodeId>)

  /**
   * Every node has a position and every position belongs to a node. The selection is not
   * constrained: `clear_graph` keeps it even though its node is gone.
   */
  ghost predicate Invariant(s: State) {
    && Wf(s.graph)
    && (forall n :: n in s.pos <==> n in s.graph.nodes)
  }

  /** Why a handler was aborted. */
  datatype EditorError =
    | NodeNotFound(node: NodeId)    // networkx: removing a node the graph does not hold
    | MissingPosition(node: NodeId) // a `KeyError` reading `self.pos` for a node with no position

  /** The state `__init__` sets up: an empty graph, no scale, nothing selected. */
  function Initial(): (s: State)
    ensures Invariant(s)
    ensures s.graph.nodes == [] && s.pos == map[] && s.scale.None? && s.selected.None?
  {
    State(Empty(), map[], None, None)
  }

  /**
   * `clear_graph`: no nodes, edges or positions remain, but the scale and the selection are
   * kept as they were.
   */
  function ClearGraph(s: State): (r: State)
    ensures Invariant(r)
    ensures r.graph.nodes == [] && r.graph.edges == map[] && r.pos == map[]
    ensures r.scale == s.scale && r.selected == s.selected
  {
    State(Empty(), map[], s.scale, s.selected)
  }

  /** The click is on the node drawn at `p`: within one node radius of its centre. */
  predicate Hits(sqrt: real -> real, click: Point, p: Point) {
    PointDistance(sqrt, click, p) <= NodeRadius
  }

  /** The first node of `nodes` whose circle contains the click. */
  function FirstHit(nodes: seq<NodeId>, pos: Positions, click: Point, sqrt: real -> real): (r: Option<NodeId>)
    requires forall i :: 0 <= i < |nodes| ==> nodes[i] in pos
    ensures r.None? <==> forall i :: 0 <= i < |nodes| ==> !Hits(sqrt, click, pos[nodes[i]])
    ensures r.Some? ==>
      exists i :: 0 <= i < |nodes| && nodes[i] == r.value && Hits(sqrt, click, pos[nodes[i]]) &&
        forall j :: 0 <= j < i ==> !Hits(sqrt, click, pos[nodes[j]])
    decreases |nodes|
  {
    if |nodes| == 0 then None
    else if Hits(sqrt, click, pos[nodes[0]]) then Some(nodes[0])
    else
      var rest := FirstHit(nodes[1..], pos, click, sqrt);
      assert forall i :: 1 <= i < |nodes| ==> nodes[1..][i - 1] == nodes[i];
      rest
  }

  /**
   * `get_node_at(x, y)`: the first node, in insertion order, whose circle contains the click.
   * The position dictionary gains and loses keys together with the graph, so its order is the
   * node order.
   */
  function GetNodeAt(s: State, click: Point, sqrt: real -> real): (r: Option<NodeId>)
    requires Invariant(s)
    ensures r.Some? ==> r.value in s.graph.nodes && Hits(sqrt, click, s.pos[r.value])
    ensures r.None? <==> forall n :: n in s.pos ==> !Hits(sqrt, click, s.pos[n])
  {
    FirstHit(s.graph.nodes, s.pos, click, sqrt)
  }

  /** Python's truth value of a node id: `0` and `""` are false. */
  predicate Falsy(n: NodeId) {
    n == IntId(0) || n == StrId("")
  }

  /** `k` is the smallest positive integer that is not a node of `g`. */
  ghost predicate SmallestFreeId(g: DiGraph, k: nat) {
    && 1 <= k
    && IntId(k) !in g.nodes
    && forall j :: 1 <= j < k ==> IntId(j) in g.nodes
  }

  /** The integer ids of `g` from `id` upwards; the search below shrinks it at every step. */
  function IdsFrom(nodes: seq<NodeId>, id: nat): set<NodeId> {
    set n | n in nodes && n.IntId? && id <= n.n
  }

  /** The id search of ADD_NODE: counting up from 1 past every id already in the graph. */
  method FreshNodeId(g: DiGraph) returns (id: nat)
    ensures SmallestFreeId(g, id)
  {
    id := 1;
    while IntId(id) in g.nodes
      invariant 1 <= id
      invariant forall j :: 1 <= j < id ==> IntId(j) in g.nodes
      decreases IdsFrom(g.nodes, id)
    {
      assert IntId(id) in IdsFrom(g.nodes, id) && IntId(id) !in IdsFrom(g.nodes, id + 1);
      id := id + 1;
    }
  }

  /**
   * A click in ADD_NODE mode. On empty canvas (or on a node whose id is falsy) a node with
   * the smallest free positive integer id is added at the click; otherwise nothing happens.
   */
  method AddNodeClick(s: State, click: Point, sqrt: real -> real) returns (r: State)
    requires Invariant(s)
    ensures Invariant(r)
    ensures var hit := GetNodeAt(s, click, sqrt); hit.Some? && !Falsy(hit.value) ==> r == s
    ensures var hit := GetNodeAt(s, click, sqrt); hit.None? || Falsy(hit.value) ==>
      exists k :: SmallestFreeId(s.graph, k) &&
        r == State(s.graph.(nodes := s.graph.nodes + [IntId(k)]), s.pos[IntId(k) := click], s.scale, s.selected)
  {
    var hit := GetNodeAt(s, click, sqrt);
    if hit.Some? && !Falsy(hit.value) {
      return s;
    }
    var id := FreshNodeId(s.graph);
    r := State(AddNode(s.graph, IntId(id)), s.pos[IntId(id) := click], s.scale, s.selected);
  }

  /**
   * The edge-drawing branch of an ADD_EDGE click: an edge from the selection `from` to the
   * clicked node `to`, weight 1.0 and an empty label when a dialog is cancelled, then the scale
   * calibration, the selection dropped and 50 relaxation iterations, which leave every node
   * inside the margins unless the scale is still unset. A selection left over from
   * a cleared graph has no position, so drawing the new edge raises `KeyError`.
   */
  function ConnectSelected(s: State, from: NodeId, to: NodeId, weight: Option<real>, text: Option<string>, canvas: Canvas, sqrt: real -> real): (r: Result<State, EditorError>)
    requires Invariant(s) && to in s.graph.nodes
    ensures r.Err? <==> from !in s.pos
    ensures r.Ok? ==> Invariant(r.value)
    ensures r.Ok? ==>
      var w := weight.GetOr(1.0);
      && r.value.graph.edges == s.graph.edges[(from, to) := EdgeData(w, text.GetOr(""), DefaultEdgeColor)]
      && r.value.graph.nodes == s.graph.nodes
      && r.value.pos.Keys == s.pos.Keys
      && r.value.scale == Calibrate(s.scale, w)
      && r.value.selected.None?
    ensures r.Ok? && r.value.scale.None? ==> r.value.pos == s.pos
    ensures r.Ok? && r.value.scale.Some? ==> forall n :: n in r.value.pos ==> WithinCanvas(r.value.pos[n], canvas)
  {
    var w := weight.GetOr(1.0);
    var g := AddEdge(s.graph, from, to, EdgeData(w, text.GetOr(""), DefaultEdgeColor));
    var scale := Calibrate(s.scale, w);
    if from !in s.pos then Err(MissingPosition(from))
    else
      assert (from, to) in g.edges;
      Ok(State(g, Relax(g, s.pos, scale, {}, EdgeRelaxIterations, canvas, sqrt), scale, None))
  }

  /**
   * A click in ADD_EDGE mode, with the answers the weight and label dialogs would give.
   * Off any node it drops the selection; the first node clicked becomes the selection;
   * clicking it again drops it; a second, different node is connected from the selection.
   */
  function AddEdgeClick(s: State, click: Point, weight: Option<real>, text: Option<string>, canvas: Canvas, sqrt: real -> real): (r: Result<State, EditorError>)
    requires Invariant(s)
    ensures r.Ok? ==> Invariant(r.value)
    ensures var hit := GetNodeAt(s, click, sqrt);
      && (hit.None? ==> r == Ok(s.(selected := None)))
      && (hit.Some? && s.selected.None? ==> r == Ok(s.(selected := hit)))
      && (hit.Some? && s.selected == hit ==> r == Ok(s.(selected := None)))
      && (hit.Some? && s.selected.Some? && s.selected != hit ==>
            r == ConnectSelected(s, s.selected.value, hit.value, weight, text, canvas, sqrt))
  {
    var hit := GetNodeAt(s, click, sqrt);
    if hit.None? then Ok(s.(selected := None))
    else if s.selected.None? then Ok(s.(selected := hit))
    else if s.selected.value == hit.value then Ok(s.(selected := None))
    else ConnectSelected(s, s.selected.value, hit.value, weight, text, canvas, sqrt)
  }

  /**
   * `delete_item`: the selected node goes, with every edge into or out of it and its position,
   * and the selection is dropped. Without a selection nothing happens; a selection left over
   * from a cleared graph makes networkx raise.
   */
  function DeleteItem(s: State): (r: Result<State, EditorError>)
    requires Invariant(s)
    ensures r.Ok? ==> Invariant(r.value)
    ensures s.selected.None? ==> r == Ok(s)
    ensures r.Err? <==> s.selected.Some? && s.selected.value !in s.graph.nodes
    ensures s.selected.Some? && r.Ok? ==>
      var n := s.selected.value;
      && (forall m :: m in r.value.graph.nodes <==> m in s.graph.nodes && m != n)
      && (forall e :: e in r.value.graph.edges <==> e in s.graph.edges && e.0 != n && e.1 != n)
      && (forall e :: e in r.value.graph.edges ==> r.value.graph.edges[e] == s.graph.edges[e])
      && r.value.pos == s.pos - {n}
      && r.value.scale == s.scale
      && r.value.selected.None?
  {
    match s.selected
    case None => Ok(s)
    case Some(n) =>
      if n !in s.graph.nodes then Err(NodeNotFound(n))
      else Ok(State(RemoveNode(s.graph, n), s.pos - {n}, s.scale, None))
  }

  /** `auto_layout` (the definition in force): 100 relaxation iterations, nothing pinned. */
  function AutoLayout(s: State, canvas: Canvas, sqrt: real -> real): (r: State)
    requires Invariant(s)
    ensures Invariant(r)
    ensures r.graph == s.graph && r.scale == s.scale && r.selected == s.selected
    ensures r.pos.Keys == s.pos.Keys
    ensures s.graph.edges == map[] || s.scale.None? ==> r == s
    ensures s.graph.edges != map[] && s.scale.Some? ==> forall n :: n in r.pos ==> WithinCanvas(r.pos[n], canvas)
  {
    assert forall n :: n in s.graph.nodes ==> n in s.pos;
    s.(pos := Relax(s.graph, s.pos, s.scale, {}, LayoutIterations, canvas, sqrt))
  }

  /** Deleting a node that was just added, and selected, restores the graph and positions. */
  lemma DeleteUndoesAdd(s: State, n: NodeId, p: Point)
    requires Invariant(s) && n !in s.graph.nodes
    ensures var added := State(AddNode(s.graph, n), s.pos[n := p], s.scale, Some(n));
      DeleteItem(added) == Ok(s.(selected := None))
  {
    var added := State(AddNode(s.graph, n), s.pos[n := p], s.scale, Some(n));
    RemoveAddedNode(s.graph, n);
    assert s.pos[n := p] - {n} == s.pos;
  }
}
