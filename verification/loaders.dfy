/**
 * The two ways of replacing the whole graph: `process_bulk_data`, fed by the bulk-input
 * table, and `load_template`, fed by the `templates` module (graph_editor.py).
 *
 * Both clear the graph, place every node at a random point of the canvas, add the edges, set
 * the scale from the first positive weight and run `auto_layout`. `random.randint` is modelled
 * by the `draws` parameter: the k-th call returns `lo + draws(k) % (hi - lo + 1)`, which can be
 * any value of the range.
 */
module Loaders {
  import opened Wrappers
  import opened Seqs
  import opened Geometry
  import opened Graph
  import opened Scale
  import opened Relaxation
  import opened Editor

  /** Initial positions keep this far from the canvas edges. */
  const PlacementMargin: int := 50

  /** Canvas sizes below this are taken as "not laid out yet". */
  const MinPlacementSize: int := 100

  /** The width placement assumes when the canvas reports less than the minimum. */
  const DefaultWidth: int := 800

  /** The height placement assumes when the canvas reports less than the minimum. */
  const DefaultHeight: int := 600

  /** A canvas side reported below the minimum is replaced by its default (800 wide, 600 high). */
  function PlacementSize(reported: int, fallback: int): (r: int)
    requires MinPlacementSize <= fallback
    ensures MinPlacementSize <= r
    ensures reported < MinPlacementSize ==> r == fallback
    ensures MinPlacementSize <= reported ==> r == reported
  {
    if reported < MinPlacementSize then fallback else reported
  }

  /** `random.randint(lo, hi)` for the raw draw `d`. */
  function RandInt(lo: int, hi: int, d: nat): (r: int)
    requires lo <= hi
    ensures lo <= r <= hi
  {
    lo + d % (hi - lo + 1)
  }

  /** Every value of the range is some draw's result, so the model restricts nothing. */
  lemma RandIntCoversRange(lo: int, hi: int, v: int)
    requires lo <= v <= hi
    ensures RandInt(lo, hi, v - lo) == v
  {
  }

  /** At least the placement margin away from every edge of a `w` x `h` canvas. */
  predicate InPlacementBox(p: Point, w: int, h: int) {
    && PlacementMargin as real <= p.x <= (w - PlacementMargin) as real
    && PlacementMargin as real <= p.y <= (h - PlacementMargin) as real
  }

  /**
   * A random point at least the placement margin inside each side: x from the draw `calls`,
   * then y from the draw `calls + 1`.
   */
  function RandomPoint(w: int, h: int, draws: nat -> nat, calls: nat): (r: Point)
    requires MinPlacementSize <= w && MinPlacementSize <= h
    ensures InPlacementBox(r, w, h)
  {
    var x := RandInt(PlacementMargin, w - PlacementMargin, draws(calls));
    var y := RandInt(PlacementMargin, h - PlacementMargin, draws(calls + 1));
    Point(x as real, y as real)
  }

  /** Positions exactly for the nodes of the graph. */
  ghost predicate Placed(g: DiGraph, pos: Positions) {
    Wf(g) && forall n :: n in pos <==> n in g.nodes
  }

  /**
   * The node loop of both loaders: each name becomes a string node with a random position.
   * The bulk loader skips names already in the graph (`skipPresent`); the template loader
   * places every entry, so a repeated name gets a new position.
   */
  function PlaceNodes(g: DiGraph, pos: Positions, names: seq<string>, skipPresent: bool, w: int, h: int, draws: nat -> nat, calls: nat): (r: (DiGraph, Positions))
    requires Placed(g, pos)
    requires MinPlacementSize <= w && MinPlacementSize <= h
    ensures Placed(r.0, r.1)
    ensures r.0.edges == g.edges && r.0.edgeOrder == g.edgeOrder
    ensures forall n :: n in r.0.nodes <==> n in g.nodes || (n.StrId? && n.s in names)
    ensures forall n :: n in r.1 ==> (n in pos && r.1[n] == pos[n]) || InPlacementBox(r.1[n], w, h)
    decreases |names|
  {
    if |names| == 0 then (g, pos)
    else
      var n := StrId(names[0]);
      if skipPresent && n in g.nodes then PlaceNodes(g, pos, names[1..], skipPresent, w, h, draws, calls)
      else
        var p := RandomPoint(w, h, draws, calls);
        PlaceNodes(AddNode(g, n), pos[n := p], names[1..], skipPresent, w, h, draws, calls + 2)
  }

  /**
   * One row as `process_bulk_data` receives it. `source` and `target` are the `str` of the
   * first two cells; the table hands numeric cells over as integers (bulk_input.py:106), so
   * "01" and "1" both name node "1". `weight` is `None` when its cell does not parse as a float.
   */
  datatype Row = Row(source: string, target: string, weight: Option<real>, text: string)

  /** `float(w)`, or 1.0 when that raises. */
  function RowWeight(row: Row): real {
    row.weight.GetOr(1.0)
  }

  function RowPair(row: Row): Pair {
    (StrId(row.source), StrId(row.target))
  }

  function RowData(row: Row): EdgeData {
    EdgeData(RowWeight(row), row.text, DefaultEdgeColor)
  }

  function RowWeights(rows: seq<Row>): (r: seq<real>)
    ensures |r| == |rows| && forall i :: 0 <= i < |rows| ==> r[i] == RowWeight(rows[i])
  {
    seq(|rows|, i requires 0 <= i < |rows| => RowWeight(rows[i]))
  }

  /** The distinct (source, target) pairs of the rows. */
  function RowPairs(rows: seq<Row>): set<Pair>
    decreases |rows|
  {
    if |rows| == 0 then {} else {RowPair(rows[0])} + RowPairs(rows[1..])
  }

  /** The pairs are exactly those some row names. */
  lemma {:induction false} RowPairsMembers(rows: seq<Row>)
    ensures forall i :: 0 <= i < |rows| ==> RowPair(rows[i]) in RowPairs(rows)
    ensures forall e :: e in RowPairs(rows) ==> exists i :: 0 <= i < |rows| && RowPair(rows[i]) == e
    decreases |rows|
  {
    if |rows| > 0 {
      RowPairsMembers(rows[1..]);
      assert forall i :: 1 <= i < |rows| ==> rows[1..][i - 1] == rows[i];
    }
  }

  /** Every source and target named by the rows: the set the bulk loader builds first. */
  function Endpoints(rows: seq<Row>): set<string>
    decreases |rows|
  {
    if |rows| == 0 then {} else {rows[0].source, rows[0].target} + Endpoints(rows[1..])
  }

  /** The names are exactly the sources and targets of the rows. */
  lemma {:induction false} EndpointsMembers(rows: seq<Row>)
    ensures forall i :: 0 <= i < |rows| ==> rows[i].source in Endpoints(rows) && rows[i].target in Endpoints(rows)
    ensures forall x :: x in Endpoints(rows) ==> exists i :: 0 <= i < |rows| && (rows[i].source == x || rows[i].target == x)
    decreases |rows|
  {
    if |rows| > 0 {
      EndpointsMembers(rows[1..]);
      assert forall i :: 1 <= i < |rows| ==> rows[1..][i - 1] == rows[i];
    }
  }

  /** Row `i` exists and no later row has the same (source, target) pair. */
  ghost predicate LastFor(rows: seq<Row>, i: int) {
    && 0 <= i < |rows|
    && forall j :: i < j < |rows| ==> RowPair(rows[j]) != RowPair(rows[i])
  }

  /**
   * The edge loop of `process_bulk_data`: every row's edge is added in order, a row whose pair
   * is already an edge overwriting its attributes.
   */
  function AddRows(g: DiGraph, rows: seq<Row>): (r: DiGraph)
    ensures Wf(g) ==> Wf(r)
    ensures r.edges.Keys == g.edges.Keys + RowPairs(rows)
    decreases |rows|
  {
    if |rows| == 0 then g
    else AddRows(AddEdge(g, StrId(rows[0].source), StrId(rows[0].target), RowData(rows[0])), rows[1..])
  }

  /** The rows add their sources and targets as nodes, and no other node. */
  lemma {:induction false} AddRowsNodes(g: DiGraph, rows: seq<Row>)
    ensures forall n :: n in AddRows(g, rows).nodes <==> (n in g.nodes || (n.StrId? && n.s in Endpoints(rows)))
    decreases |rows|
  {
    if |rows| > 0 {
      var next := AddEdge(g, StrId(rows[0].source), StrId(rows[0].target), RowData(rows[0]));
      AddRowsNodes(next, rows[1..]);
      assert AddRows(g, rows) == AddRows(next, rows[1..]);
    }
  }

  /** An edge no row names keeps its attributes. */
  lemma {:induction false} AddRowsKeepsOthers(g: DiGraph, rows: seq<Row>, e: Pair)
    requires e in g.edges && e !in RowPairs(rows)
    ensures AddRows(g, rows).edges[e] == g.edges[e]
    decreases |rows|
  {
    if |rows| > 0 {
      AddRowsKeepsOthers(AddEdge(g, StrId(rows[0].source), StrId(rows[0].target), RowData(rows[0])), rows[1..], e);
    }
  }

  /** Of several rows with the same pair, the last one's weight, label and color are kept. */
  lemma {:induction false} AddRowsLastWins(g: DiGraph, rows: seq<Row>, i: int)
    requires LastFor(rows, i)
    ensures RowPair(rows[i]) in AddRows(g, rows).edges
    ensures AddRows(g, rows).edges[RowPair(rows[i])] == RowData(rows[i])
    decreases |rows|
  {
    var next := AddEdge(g, StrId(rows[0].source), StrId(rows[0].target), RowData(rows[0]));
    var rest := rows[1..];
    if i == 0 {
      RowPairsMembers(rest);
      assert forall j :: 0 <= j < |rest| ==> rest[j] == rows[j + 1];
      AddRowsKeepsOthers(next, rest, RowPair(rows[0]));
    } else {
      LastForTail(rows, i);
      AddRowsLastWins(next, rest, i - 1);
      assert rest[i - 1] == rows[i];
    }
  }

  /** Dropping the first row keeps a later row the last of its pair. */
  lemma LastForTail(rows: seq<Row>, i: int)
    requires LastFor(rows, i) && 0 < i
    ensures LastFor(rows[1..], i - 1)
  {
  }

  /**
   * `process_bulk_data(data)` up to its final `auto_layout`. `order` is the order in which
   * Python happens to iterate the set of node names; any order of that set may occur.
   */
  function BulkLoad(s: State, rows: seq<Row>, order: seq<string>, canvas: Canvas, draws: nat -> nat): (r: State)
    requires Invariant(s)
    requires forall x :: x in order <==> x in Endpoints(rows)
    ensures Invariant(r)
    ensures forall n :: n in r.graph.nodes <==> n.StrId? && n.s in Endpoints(rows)
    ensures forall n :: n in r.pos ==>
      InPlacementBox(r.pos[n], PlacementSize(canvas.width, DefaultWidth), PlacementSize(canvas.height, DefaultHeight))
    ensures r.graph.edges.Keys == RowPairs(rows)
    ensures r.scale == Some(LoadScale(RowWeights(rows)))
    ensures r.selected == s.selected
  {
    var cleared := ClearGraph(s);
    var w := PlacementSize(canvas.width, DefaultWidth);
    var h := PlacementSize(canvas.height, DefaultHeight);
    var placed := PlaceNodes(cleared.graph, cleared.pos, order, true, w, h, draws, 0);
    var g := AddRows(placed.0, rows);
    AddRowsNodes(placed.0, rows);
    State(g, placed.1, Some(LoadScale(RowWeights(rows))), cleared.selected)
  }

  /** In the bulk-loaded graph, each pair carries the attributes of its last row. */
  lemma BulkLoadLastWins(s: State, rows: seq<Row>, order: seq<string>, canvas: Canvas, draws: nat -> nat, i: int)
    requires Invariant(s)
    requires forall x :: x in order <==> x in Endpoints(rows)
    requires LastFor(rows, i)
    ensures RowPair(rows[i]) in BulkLoad(s, rows, order, canvas, draws).graph.edges
    ensures BulkLoad(s, rows, order, canvas, draws).graph.edges[RowPair(rows[i])] == RowData(rows[i])
  {
    var cleared := ClearGraph(s);
    var w := PlacementSize(canvas.width, DefaultWidth);
    var h := PlacementSize(canvas.height, DefaultHeight);
    var placed := PlaceNodes(cleared.graph, cleared.pos, order, true, w, h, draws, 0);
    AddRowsLastWins(placed.0, rows, i);
  }

  /** `process_bulk_data(data)`: the bulk load followed by `auto_layout`. */
  function ProcessBulkData(s: State, rows: seq<Row>, order: seq<string>, canvas: Canvas, draws: nat -> nat, sqrt: real -> real): (r: State)
    requires Invariant(s)
    requires forall x :: x in order <==> x in Endpoints(rows)
    ensures Invariant(r)
    ensures r.graph == BulkLoad(s, rows, order, canvas, draws).graph
    ensures r.scale == Some(LoadScale(RowWeights(rows)))
    ensures |r.graph.edges| == |RowPairs(rows)|
    ensures r.graph.edges != map[] ==> forall n :: n in r.pos ==> WithinCanvas(r.pos[n], canvas)
  {
    var loaded := BulkLoad(s, rows, order, canvas, draws);
    assert loaded.graph.edges.Keys == RowPairs(rows);
    AutoLayout(loaded, canvas, sqrt)
  }

  /** One key of a template dictionary, stringified, with its `{neighbour: weight}` items. */
  datatype TemplateEntry = TemplateEntry(node: string, neighbours: seq<(string, real)>)

  /**
   * A template `{node: {neighbour: weight}}` in iteration order. Keys are distinct in Python, but
   * two keys can stringify to the same name, so names may repeat here.
   */
  type Template = seq<TemplateEntry>

  /** One (node, neighbour, weight) item, in the order the nested loops visit them. */
  datatype Link = Link(u: string, v: string, weight: real)

  function LinkPair(l: Link): Pair {
    (StrId(l.u), StrId(l.v))
  }

  function LinkData(l: Link): EdgeData {
    EdgeData(l.weight, "", DefaultEdgeColor)
  }

  /** The items of one entry. */
  function EntryLinks(e: TemplateEntry): (r: seq<Link>)
    ensures |r| == |e.neighbours|
    ensures forall j :: 0 <= j < |r| ==> r[j] == Link(e.node, e.neighbours[j].0, e.neighbours[j].1)
  {
    seq(|e.neighbours|, j requires 0 <= j < |e.neighbours| => Link(e.node, e.neighbours[j].0, e.neighbours[j].1))
  }

  /** All the items of a template, entry by entry. */
  function Links(t: Template): (r: seq<Link>)
    ensures forall l :: l in r <==> exists i :: 0 <= i < |t| && l in EntryLinks(t[i])
  {
    if |t| == 0 then []
    else
      var rest := Links(t[1..]);
      assert forall i :: 1 <= i < |t| ==> t[1..][i - 1] == t[i];
      EntryLinks(t[0]) + rest
  }

  function LinkWeights(links: seq<Link>): (r: seq<real>)
    ensures |r| == |links| && forall i :: 0 <= i < |links| ==> r[i] == links[i].weight
  {
    seq(|links|, i requires 0 <= i < |links| => links[i].weight)
  }

  function LinkPairs(links: seq<Link>): set<Pair>
    decreases |links|
  {
    if |links| == 0 then {} else {LinkPair(links[0])} + LinkPairs(links[1..])
  }

  /** The pairs are exactly those some item names. */
  lemma {:induction false} LinkPairsMembers(links: seq<Link>)
    ensures forall i :: 0 <= i < |links| ==> LinkPair(links[i]) in LinkPairs(links)
    ensures forall e :: e in LinkPairs(links) ==> exists i :: 0 <= i < |links| && LinkPair(links[i]) == e
    decreases |links|
  {
    if |links| > 0 {
      LinkPairsMembers(links[1..]);
      assert forall i :: 1 <= i < |links| ==> links[1..][i - 1] == links[i];
    }
  }

  /** The node and neighbour names of the items. */
  function LinkEnds(links: seq<Link>): set<string>
    decreases |links|
  {
    if |links| == 0 then {} else {links[0].u, links[0].v} + LinkEnds(links[1..])
  }

  /** The names are exactly the nodes and neighbours of the items. */
  lemma {:induction false} LinkEndsMembers(links: seq<Link>)
    ensures forall i :: 0 <= i < |links| ==> links[i].u in LinkEnds(links) && links[i].v in LinkEnds(links)
    ensures forall x :: x in LinkEnds(links) ==> exists i :: 0 <= i < |links| && (links[i].u == x || links[i].v == x)
    decreases |links|
  {
    if |links| > 0 {
      LinkEndsMembers(links[1..]);
      assert forall i :: 1 <= i < |links| ==> links[1..][i - 1] == links[i];
    }
  }

  /** The node names of a template, in entry order. */
  function TemplateNames(t: Template): (r: seq<string>)
    ensures |r| == |t| && forall i :: 0 <= i < |t| ==> r[i] == t[i].node
  {
    seq(|t|, i requires 0 <= i < |t| => t[i].node)
  }

  /**
   * Every neighbour is itself a key. Otherwise `add_edge` would create a node without a position
   * and the relaxation would fail on it.
   */
  ghost predicate Closed(t: Template) {
    forall l :: l in Links(t) ==> l.v in TemplateNames(t)
  }

  /** Item `i` exists and no earlier item has the same (node, neighbour) pair. */
  ghost predicate FirstFor(links: seq<Link>, i: int) {
    && 0 <= i < |links|
    && forall j :: 0 <= j < i ==> LinkPair(links[j]) != LinkPair(links[i])
  }

  /**
   * The edge loop of `load_template`: an item whose pair is already an edge is skipped; the
   * reverse pair is a different edge and is added.
   */
  function AddLinks(g: DiGraph, links: seq<Link>): (r: DiGraph)
    ensures Wf(g) ==> Wf(r)
    ensures r.edges.Keys == g.edges.Keys + LinkPairs(links)
    decreases |links|
  {
    if |links| == 0 then g
    else AddLinks(AddLink(g, links[0]), links[1..])
  }

  /** One step of the edge loop of `load_template`. */
  function AddLink(g: DiGraph, l: Link): (r: DiGraph)
    ensures Wf(g) ==> Wf(r)
    ensures HasEdge(g, StrId(l.u), StrId(l.v)) ==> r == g
    ensures !HasEdge(g, StrId(l.u), StrId(l.v)) ==> r == AddEdge(g, StrId(l.u), StrId(l.v), LinkData(l))
  {
    if HasEdge(g, StrId(l.u), StrId(l.v)) then g else AddEdge(g, StrId(l.u), StrId(l.v), LinkData(l))
  }

  /** The items add their nodes and neighbours as nodes, and no other node. */
  lemma {:induction false} AddLinksNodes(g: DiGraph, links: seq<Link>)
    requires Wf(g)
    ensures forall n :: n in AddLinks(g, links).nodes <==> (n in g.nodes || (n.StrId? && n.s in LinkEnds(links)))
    decreases |links|
  {
    if |links| > 0 {
      var next := AddLink(g, links[0]);
      AddLinksNodes(next, links[1..]);
      assert AddLinks(g, links) == AddLinks(next, links[1..]);
      assert forall n :: n in next.nodes <==> (n in g.nodes || n == StrId(links[0].u) || n == StrId(links[0].v));
    }
  }

  /** An edge already present is never overwritten. */
  lemma {:induction false} AddLinksKeepsExisting(g: DiGraph, links: seq<Link>, e: Pair)
    requires e in g.edges
    ensures AddLinks(g, links).edges[e] == g.edges[e]
    decreases |links|
  {
    if |links| > 0 {
      AddLinksKeepsExisting(AddLink(g, links[0]), links[1..], e);
    }
  }

  /** Of several items with the same pair, the first one's weight is kept. */
  lemma {:induction false} AddLinksFirstWins(g: DiGraph, links: seq<Link>, i: int)
    requires FirstFor(links, i) && LinkPair(links[i]) !in g.edges
    ensures LinkPair(links[i]) in AddLinks(g, links).edges
    ensures AddLinks(g, links).edges[LinkPair(links[i])] == LinkData(links[i])
    decreases |links|
  {
    var next := AddLink(g, links[0]);
    if i == 0 {
      AddLinksKeepsExisting(next, links[1..], LinkPair(links[0]));
    } else {
      FirstForTail(links, i);
      AddLinksFirstWins(next, links[1..], i - 1);
      assert links[1..][i - 1] == links[i];
    }
  }

  /** Dropping the first item keeps a later item the first of its pair. */
  lemma FirstForTail(links: seq<Link>, i: int)
    requires FirstFor(links, i) && 0 < i
    ensures FirstFor(links[1..], i - 1)
  {
  }

  /** Every item's node is a key, and in a closed template so is every neighbour. */
  lemma LinkEndsNamed(t: Template)
    requires Closed(t)
    ensures forall x :: x in LinkEnds(Links(t)) ==> x in TemplateNames(t)
  {
    var links := Links(t);
    LinkEndsMembers(links);
    forall x | x in LinkEnds(links) ensures x in TemplateNames(t) {
      var i :| 0 <= i < |links| && (links[i].u == x || links[i].v == x);
      assert links[i] in links;
      if links[i].u == x {
        var k :| 0 <= k < |t| && links[i] in EntryLinks(t[k]);
        assert TemplateNames(t)[k] == t[k].node;
      }
    }
  }

  /** `load_template` between `clear_graph` and `auto_layout`, for a non-empty template. */
  function TemplateLoad(s: State, t: Template, canvas: Canvas, draws: nat -> nat): (r: State)
    requires Invariant(s)
    requires Closed(t)
    ensures Invariant(r)
    ensures forall n :: n in r.graph.nodes <==> n.StrId? && n.s in TemplateNames(t)
    ensures forall n :: n in r.pos ==>
      InPlacementBox(r.pos[n], PlacementSize(canvas.width, DefaultWidth), PlacementSize(canvas.height, DefaultHeight))
    ensures r.graph.edges.Keys == LinkPairs(Links(t))
    ensures r.scale == Some(LoadScale(LinkWeights(Links(t))))
    ensures r.selected == s.selected
  {
    var cleared := ClearGraph(s);
    var w := PlacementSize(canvas.width, DefaultWidth);
    var h := PlacementSize(canvas.height, DefaultHeight);
    var placed := PlaceNodes(cleared.graph, cleared.pos, TemplateNames(t), false, w, h, draws, 0);
    var links := Links(t);
    LinkEndsNamed(t);
    var g := AddLinks(placed.0, links);
    AddLinksNodes(placed.0, links);
    State(g, placed.1, Some(LoadScale(LinkWeights(links))), cleared.selected)
  }

  /**
   * In the template-loaded graph each pair carries the weight of its first item, whatever later
   * items say; the scale still counts the first positive weight of all items, skipped or not.
   */
  lemma TemplateLoadFirstWins(s: State, t: Template, canvas: Canvas, draws: nat -> nat, i: int)
    requires Invariant(s)
    requires Closed(t)
    requires FirstFor(Links(t), i)
    ensures LinkPair(Links(t)[i]) in TemplateLoad(s, t, canvas, draws).graph.edges
    ensures TemplateLoad(s, t, canvas, draws).graph.edges[LinkPair(Links(t)[i])] == LinkData(Links(t)[i])
  {
    var cleared := ClearGraph(s);
    var w := PlacementSize(canvas.width, DefaultWidth);
    var h := PlacementSize(canvas.height, DefaultHeight);
    var placed := PlaceNodes(cleared.graph, cleared.pos, TemplateNames(t), false, w, h, draws, 0);
    LinkEndsNamed(t);
    AddLinksFirstWins(placed.0, Links(t), i);
  }

  /** The template `load_template(name)` reads: `None` for a name it does not know. */
  function SelectTemplate(name: string, nsfnet: Template, usa: Template): Option<Template> {
    if name == "nsfnet" then Some(nsfnet)
    else if name == "usa" then Some(usa)
    else None
  }

  /**
   * `load_template(name)`, with the two templates of the `templates` module as parameters.
   * An unknown name, or an empty template, leaves the editor as it was.
   */
  function LoadTemplate(s: State, name: string, nsfnet: Template, usa: Template, canvas: Canvas, draws: nat -> nat, sqrt: real -> real): (r: State)
    requires Invariant(s)
    requires name == "nsfnet" ==> Closed(nsfnet)
    requires name == "usa" ==> Closed(usa)
    ensures Invariant(r)
    ensures SelectTemplate(name, nsfnet, usa).None? ==> r == s
    ensures SelectTemplate(name, nsfnet, usa) == Some([]) ==> r == s
    ensures SelectTemplate(name, nsfnet, usa).Some? && SelectTemplate(name, nsfnet, usa).value != [] ==>
      var t := SelectTemplate(name, nsfnet, usa).value;
      && r.graph == TemplateLoad(s, t, canvas, draws).graph
      && r.scale == Some(LoadScale(LinkWeights(Links(t))))
      && r.selected == s.selected
      && (r.graph.edges != map[] ==> forall n :: n in r.pos ==> WithinCanvas(r.pos[n], canvas))
  {
    match SelectTemplate(name, nsfnet, usa)
    case None => s
    case Some(t) =>
      if t == [] then s
      else AutoLayout(TemplateLoad(s, t, canvas, draws), canvas, sqrt)
  }

  /**
   * A template whose first two keys both stringify to "A": the second (A, B) item is skipped, so
   * the edge keeps weight 0.0, yet its weight 3.0 is the first positive one and sets the scale to
   * 150 / 3; the reverse pair (B, A) is a separate edge.
   */
  lemma SkippedItemSetsScale(s: State, t: Template, canvas: Canvas, draws: nat -> nat)
    requires Invariant(s)
    requires t == [TemplateEntry("A", [("B", 0.0)]), TemplateEntry("A", [("B", 3.0)]), TemplateEntry("B", [("A", 2.0)])]
    ensures Closed(t)
    ensures var r := TemplateLoad(s, t, canvas, draws);
      && r.graph.edges.Keys == {(StrId("A"), StrId("B")), (StrId("B"), StrId("A"))}
      && r.graph.edges[(StrId("A"), StrId("B"))] == EdgeData(0.0, "", DefaultEdgeColor)
      && r.graph.edges[(StrId("B"), StrId("A"))] == EdgeData(2.0, "", DefaultEdgeColor)
      && r.scale == Some(50.0)
  {
    var ab, ba := (StrId("A"), StrId("B")), (StrId("B"), StrId("A"));
    assert Closed(t) by {
      ExampleLinks(t);
    }
    var r := TemplateLoad(s, t, canvas, draws);
    assert r.graph.edges.Keys == {ab, ba} by {
      ExampleLinks(t);
      ExamplePairs(Links(t));
    }
    assert r.graph.edges[ab] == EdgeData(0.0, "", DefaultEdgeColor) by {
      ExampleLinks(t);
      TemplateLoadFirstWins(s, t, canvas, draws, 0);
    }
    assert r.graph.edges[ba] == EdgeData(2.0, "", DefaultEdgeColor) by {
      ExampleLinks(t);
      TemplateLoadFirstWins(s, t, canvas, draws, 2);
    }
    assert r.scale == Some(50.0) by {
      ExampleLinks(t);
      ExampleScale(Links(t));
    }
  }

  lemma ExamplePairs(links: seq<Link>)
    requires links == [Link("A", "B", 0.0), Link("A", "B", 3.0), Link("B", "A", 2.0)]
    ensures LinkPairs(links) == {(StrId("A"), StrId("B")), (StrId("B"), StrId("A"))}
  {
    assert links[1..] == [links[1], links[2]] && links[1..][1..] == [links[2]] && links[1..][1..][1..] == [];
    assert LinkPairs(links[1..][1..]) == {LinkPair(links[2])};
    assert LinkPairs(links[1..]) == {LinkPair(links[1]), LinkPair(links[2])};
  }

  lemma ExampleScale(links: seq<Link>)
    requires links == [Link("A", "B", 0.0), Link("A", "B", 3.0), Link("B", "A", 2.0)]
    ensures LoadScale(LinkWeights(links)) == 50.0
  {
    var ws := LinkWeights(links);
    assert ws == [0.0, 3.0, 2.0];
    assert ws[1..] == [3.0, 2.0];
    assert FirstPositive(ws) == Some(3.0);
  }

  /** The items and names of the template in `SkippedItemSetsScale`. */
  lemma ExampleLinks(t: Template)
    requires t == [TemplateEntry("A", [("B", 0.0)]), TemplateEntry("A", [("B", 3.0)]), TemplateEntry("B", [("A", 2.0)])]
    ensures Links(t) == [Link("A", "B", 0.0), Link("A", "B", 3.0), Link("B", "A", 2.0)]
    ensures Closed(t)
    ensures FirstFor(Links(t), 0) && FirstFor(Links(t), 2)
  {
    assert EntryLinks(t[0]) == [Link("A", "B", 0.0)];
    assert EntryLinks(t[1]) == [Link("A", "B", 3.0)];
    assert EntryLinks(t[2]) == [Link("B", "A", 2.0)];
    assert t[1..] == [t[1], t[2]] && t[1..][1..] == [t[2]] && t[1..][1..][1..] == [];
    assert Links(t[1..][1..]) == [Link("B", "A", 2.0)];
    assert Links(t[1..]) == [Link("A", "B", 3.0), Link("B", "A", 2.0)];
    assert TemplateNames(t) == ["A", "A", "B"];
  }
}
