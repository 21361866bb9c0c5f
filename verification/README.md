# Graph editor core, modelled in Dafny

This project models the graph logic of a small Tk graph editor. Its `GraphEditor` class
(graph_editor.py) keeps:

- a networkx `DiGraph` whose edges carry `weight`, `label` and `color`;
- a position for every node;
- a length scale `pixels_per_unit`;
- the currently selected node.

The model covers these parts of it:

- clicks on the canvas in ADD_NODE and ADD_EDGE mode;
- `get_node_at`;
- `delete_item`;
- `clear_graph`;
- the constraint relaxation `relax_graph` and the `auto_layout` that wraps it;
- the two whole-graph loaders, `process_bulk_data` and `load_template`;
- the geometry helpers of utils.py.

The modules follow the program's structure:

- `Wrappers`, `Seqs` (wrappers.dfy): `Option`, `Result`, and sequence filtering with its lemmas.
- `Geometry` (geometry.dfy): `point_distance` and `calculate_arrow_points`.
- `Graph` (graph.dfy): the part of `DiGraph` the editor uses. It keeps the insertion order of nodes and of edges, so `graph.edges(data=True)` can be enumerated in networkx's order.
- `Scale` (scale.dfy): how `pixels_per_unit` is set by ADD_EDGE and by the loaders.
- `Relaxation` (relax.dfy): `relax_graph`. Each iteration runs three passes over the positions: an attraction fold over the edges, a repulsion fold over the node pairs i < j, and a clamping fold over the nodes. Every step reads what the steps before it wrote.
- `Editor` (editor.dfy): the editor state, its invariant, and the click, delete, clear and layout handlers.
- `Loaders` (loaders.dfy): `process_bulk_data` and `load_template`.

Handlers are pure functions from one state to the next. A handler that would raise in Python returns `Err`.

Some calls are foreign or nondeterministic. They become parameters:

- `math.sqrt` is `sqrt: real -> real`. Results that need a true square root require `IsSqrt(sqrt)`. The others (pinned nodes, clamping, key preservation, the no-op guards) hold for any `sqrt`.
- The trigonometric functions are the `Trig` record.
- The canvas size is a `Canvas`.
- Dialog answers are `Option`s.
- `random.randint(lo, hi)` is `lo + draws(k) % (hi - lo + 1)` for an arbitrary `draws` sequence. Every value of the range can occur.
- The iteration order of the Python set of names in `process_bulk_data` is the `order` parameter. It may be any sequence of exactly those names.

`clear_graph` (graph_editor.py:175-178) clears only the graph and the positions; `pixels_per_unit` and `selected_node` survive. A selection left over from a cleared graph then behaves as follows:

- `delete_item` fails in networkx, which `DeleteItem` models as `NodeNotFound`.
- An ADD_EDGE from it re-creates the node through `add_edge` without a position, so drawing fails. `ConnectSelected` models this as `MissingPosition`.

## Model

| member | source | states |
|---|---|---|
| Geometry.SquaredDistance | utils.py:17 | The radicand of `point_distance` is never negative, so `sqrt` is always applied inside its domain. |
| Geometry.DistanceNonNegative | utils.py:16-17 | The distance is non-negative and its square is (x2−x1)² + (y2−y1)². |
| Geometry.DistanceSymmetric | utils.py:16-17 | Swapping the two points gives the same distance, whatever `sqrt` computes. |
| Geometry.DistanceZeroIff | utils.py:16-17 | The distance is 0 exactly when the points coincide. This is the case `relax_graph` replaces by 0.1. |
| Geometry.DistanceTranslationInvariant | utils.py:16-17 | Moving both points by the same offset keeps their distance. |
| Geometry.ScaledDistance | utils.py:16-17 | Scaling the vector between two points by c ≥ 0 scales their distance by c. |
| Geometry.ArrowPoints | utils.py:3-14 | The arrowhead is six numbers, and the first pair is the tip (x2, y2) unchanged. |
| Geometry.ArrowWingsAtArrowSize | utils.py:8-12 | When cos² + sin² = 1, both wing points lie exactly `arrow_size` from the tip. |
| Graph.Empty | graph_editor.py:14 | A new or cleared `DiGraph` has no nodes and no edges, and is well formed. |
| Graph.AddNode | graph_editor.py:40 | `add_node` appends a new node, leaves an existing one where it is, touches no edge and keeps the graph well formed. |
| Graph.AddEdge | graph_editor.py:58 | `add_edge` sets the attributes of (u, v), overwriting earlier ones. It adds missing endpoints as nodes and appends (u, v) to the edge order only when it is new. |
| Graph.RemoveNode | graph_editor.py:395 | `remove_node` drops the node and exactly the edges touching it. Every other edge keeps its attributes, and the graph stays well formed. |
| Graph.IterEdges | graph_editor.py:300 | `graph.edges(data=True)` yields every edge of the graph and nothing else, each edge once: the sequence has no repeats and its length is the number of edges. |
| Graph.EdgeSequenceDistinct | graph_editor.py:300 | Walking the nodes in order and yielding each node's out-edges in insertion order never yields an edge twice. |
| Graph.RemoveAddedNode | graph_editor.py:395 | Removing a node that was just added gives back the original graph, order included. |
| Scale.Calibrate | graph_editor.py:61-63 | A set scale never changes. An unset one becomes 150/w exactly when w > 0; otherwise it stays unset. |
| Scale.FirstPositive | graph_editor.py:506-507 | `first_weight` is the earliest positive weight, and is None only when no weight is positive. |
| Scale.LoadScale | graph_editor.py:512-515 | A loader's scale is positive: 150 over the first positive weight, otherwise 100. |
| Scale.CalibrateAll | graph_editor.py:61-63 | Once the scale is set, no later ADD_EDGE changes it. |
| Scale.CalibrateAllIsFirstPositive | graph_editor.py:61-63 | Drawing edges one by one from an unset scale calibrates on the first positive weight, the same weight a loader picks. |
| Relaxation.Floored | graph_editor.py:309 | The divisor is never 0 and differs from the distance only when that is 0. |
| Relaxation.MovePair | graph_editor.py:321-324 | Only the free ones among u and v move, to their new points; every other position is kept. |
| Relaxation.SpringEnds | graph_editor.py:303-324 | A spring step keeps the midpoint of the two ends. It moves neither end when they coincide or are already at a non-zero target length. |
| Relaxation.Attract | graph_editor.py:300-324 | One edge step moves only its free endpoints, to the spring step's points for target `weight * pixels_per_unit`. It skips an edge with an endpoint that has no position. |
| Relaxation.AttractAll | graph_editor.py:300-324 | The attraction pass keeps every key and every pinned node, and does not move nodes no edge touches. |
| Relaxation.PushEnds | graph_editor.py:336-350 | A repulsion step keeps the midpoint of the two nodes and never separates coincident ones. |
| Relaxation.RepelPair | graph_editor.py:333-350 | A pair at least 2.5 node radii apart is left alone. A closer pair moves only its free nodes, to the repulsion step's points. |
| Relaxation.RepelRow | graph_editor.py:331-350 | One row of the repulsion loop keeps every key and every pinned node. |
| Relaxation.RepelFrom | graph_editor.py:328-350 | The repulsion pass keeps every key and every pinned node. |
| Relaxation.ClampPoint | graph_editor.py:356-358 | A clamped point is inside the margins. A point already inside them is unchanged when the canvas is at least two margins wide and high. |
| Relaxation.ClampIdempotent | graph_editor.py:357-358 | Clamping a clamped point changes nothing, on any canvas. |
| Relaxation.ClampAll | graph_editor.py:353-359 | The clamping pass clamps exactly the free listed nodes. Pinned and unlisted nodes keep their positions. |
| Relaxation.ClampAllIdempotent | graph_editor.py:353-359 | Running the clamping pass twice gives the same positions as running it once. |
| Relaxation.Springs | graph_editor.py:300-306 | The attraction pass visits every edge exactly once: each spring is an edge and carries its weight, every edge has a spring, no two springs share an edge, and there are as many springs as edges. |
| Relaxation.Iteration | graph_editor.py:297-359 | One iteration keeps every key and every pinned node, and leaves every free node inside the margins. |
| Relaxation.RelaxLoop | graph_editor.py:297-359 | Any number of iterations keeps every key and every pinned node. After at least one, every free node is inside the margins. |
| Relaxation.Relax | graph_editor.py:278-359 | `relax_graph` keeps the key set and every pinned position. It is a no-op without edges, without a scale or with 0 iterations. Otherwise every free node ends at x, y ≥ margin, and at x ≤ width − margin (likewise y) on a canvas at least two margins wide (high). |
| Relaxation.CoincidentNotAttracted | graph_editor.py:309-324 | A spring between coincident nodes moves neither of them. |
| Relaxation.CoincidentNotRepelled | graph_editor.py:338-350 | Coincident nodes are not pushed apart. |
| Relaxation.AtTargetNotAttracted | graph_editor.py:306-324 | An edge already at its non-zero target length moves neither end. |
| Relaxation.SpringEndsReachTarget | graph_editor.py:305-324 | With a true square root, one spring step puts two distinct points exactly the target length apart. |
| Relaxation.PushEndsReachSeparation | graph_editor.py:338-350 | With a true square root, one repulsion step puts two distinct, too-close points exactly 2.5 node radii apart. |
| Relaxation.AttractReachesTarget | graph_editor.py:300-324 | After one edge step, two distinct free endpoints are exactly `weight * pixels_per_unit` apart. |
| Relaxation.RepelReachesSeparation | graph_editor.py:333-350 | After one repulsion step, two distinct free nodes that were too close are exactly the minimum separation apart. |
| Relaxation.SpringExample | graph_editor.py:300-324 | Worked example: nodes at (0, 0) and (10, 0), weight 2, scale 75. They end at (−70, 0) and (80, 0). |
| Editor.Initial | graph_editor.py:14-25 | The editor starts with an empty graph, no positions, no scale and no selection, and its invariant holds. |
| Editor.ClearGraph | graph_editor.py:175-178 | `clear_graph` empties nodes, edges and positions but keeps `pixels_per_unit` and the selection. |
| Editor.FirstHit | graph_editor.py:223-227 | The result is the first node in order whose circle holds the click. It is None exactly when no circle does. |
| Editor.GetNodeAt | graph_editor.py:223-227 | `get_node_at` returns a node within one radius of the click, and None exactly when no node is. |
| Editor.FreshNodeId | graph_editor.py:36-38 | The id search returns the smallest positive integer that is not a node. |
| Editor.AddNodeClick | graph_editor.py:35-41 | On empty canvas, or on a node with a falsy id, ADD_NODE adds exactly one node, with the smallest free positive id, at the click; nothing else changes. On any other node it does nothing. |
| Editor.ConnectSelected | graph_editor.py:51-69 | Drawing an edge sets (selected, clicked) to weight `w` (1.0 when cancelled), label "" when cancelled, color black. The scale is `Calibrate(scale, w)`, the selection is cleared and the nodes and position keys are unchanged. With a scale, the 50 relaxation iterations leave every node inside the margins; without one, no position moves. It fails exactly when the selection has no position. |
| Editor.AddEdgeClick | graph_editor.py:45-74 | Off any node, the selection is dropped. The first node clicked is selected, and clicking it again drops it. A second, different node is connected from the selection. The invariant is kept. |
| Editor.DeleteItem | graph_editor.py:393-399 | `delete_item` removes the selected node, exactly its incident edges and its position, and clears the selection; without a selection it is a no-op. It fails exactly when the selection is not a node. |
| Editor.AutoLayout | graph_editor.py:361-364 | `auto_layout` keeps the graph, the scale, the selection and the position keys. With edges and a scale it leaves every node inside the margins. |
| Editor.DeleteUndoesAdd | graph_editor.py:393-399 | Deleting a node that was just added and selected restores the graph and the positions. |
| Loaders.PlacementSize | graph_editor.py:485-488 | A reported size below 100 is replaced by the default (800 or 600); any other is kept. |
| Loaders.RandInt | graph_editor.py:494 | `randint(lo, hi)` lies in [lo, hi]. |
| Loaders.RandIntCoversRange | graph_editor.py:494 | Every value of [lo, hi] is some draw's result. |
| Loaders.RandomPoint | graph_editor.py:494 | An initial position lies in [50, W−50] × [50, H−50]. |
| Loaders.PlaceNodes | graph_editor.py:490-494 | The node loop adds exactly the named string nodes. Each gets a position in the placement box, and the edges are not touched. |
| Loaders.RowPairsMembers | graph_editor.py:498-509 | The pair set of the rows contains exactly the stringified (source, target) of some row. |
| Loaders.EndpointsMembers | graph_editor.py:479-482 | The first pass collects exactly the stringified sources and targets. |
| Loaders.AddRows | graph_editor.py:498-509 | After the edge loop the edge set is the old one plus exactly the rows' distinct pairs, and the graph stays well formed. |
| Loaders.AddRowsNodes | graph_editor.py:498-509 | The edge loop adds only the rows' endpoints as nodes. |
| Loaders.AddRowsKeepsOthers | graph_editor.py:498-509 | An edge that no row names keeps its attributes. |
| Loaders.AddRowsLastWins | graph_editor.py:498-509 | For duplicate rows, the edge carries the last row's weight, label and color. The weight is 1.0 when the cell does not parse. |
| Loaders.BulkLoad | graph_editor.py:474-515 | The nodes are exactly the stringified sources and targets, all placed in the box. The edges are exactly the distinct pairs. The scale is 150/first positive weight, else 100, and the selection is kept. |
| Loaders.BulkLoadLastWins | graph_editor.py:498-509 | In the loaded graph, a pair carries the attributes of its last row. |
| Loaders.ProcessBulkData | graph_editor.py:474-518 | After `auto_layout`: the edge count is the number of distinct pairs, and the graph and scale are those of the load. With any edge, every node is inside the margins. |
| Loaders.Links | graph_editor.py:549-552 | The items visited are exactly the (node, neighbour, weight) items of the template's entries. |
| Loaders.LinkPairsMembers | graph_editor.py:549-559 | The template's pair set contains exactly the pairs some item names. |
| Loaders.LinkEndsMembers | graph_editor.py:549-559 | The template's name set contains exactly the nodes and neighbours of the items. |
| Loaders.AddLink | graph_editor.py:558-559 | An item whose pair is already an edge leaves the graph unchanged; otherwise its edge is added. |
| Loaders.AddLinks | graph_editor.py:549-559 | The edge loop adds exactly the items' pairs and keeps the graph well formed. |
| Loaders.AddLinksNodes | graph_editor.py:549-559 | The edge loop adds only the items' nodes and neighbours as nodes. |
| Loaders.AddLinksKeepsExisting | graph_editor.py:558-559 | An edge already present is never overwritten. |
| Loaders.AddLinksFirstWins | graph_editor.py:549-559 | Among items with the same pair, the first one's weight is the one kept. |
| Loaders.LinkEndsNamed | graph_editor.py:542-559 | In a template whose neighbours are all keys, every name the edges use already has a placed node. |
| Loaders.TemplateLoad | graph_editor.py:532-568 | The nodes are exactly the template's keys, all placed in the box. The edges are exactly the distinct item pairs. The scale is 150/first positive weight over all items, else 100. |
| Loaders.TemplateLoadFirstWins | graph_editor.py:549-559 | In the loaded graph, each pair carries the weight of its first item. |
| Loaders.LoadTemplate | graph_editor.py:520-570 | An unknown name, or an empty template, leaves the editor unchanged. Otherwise the graph and scale are those of the template load, the selection is kept, and when the template has an edge `auto_layout` leaves every node inside the margins. |
| Loaders.SkippedItemSetsScale | graph_editor.py:549-568 | Worked example: a skipped duplicate item's weight still sets the scale, while the reverse pair becomes its own edge. |

## Left out

- Tk widgets, the toolbar, the properties panel, the MOVE-mode click, and the drag and release handlers. These are user interface code. Dialog answers and the canvas size are parameters instead.
- `draw_graph` and `export_png`: canvas and image rendering. `draw_graph`'s `KeyError` on a node without a position is modelled as the `MissingPosition` error.
- The ADD_SHAPE_* modes: they draw on the canvas and do not touch the graph state.
- The first `auto_layout` (graph_editor.py:180-211): the second definition shadows it.
- Node attributes `label` and `color`: no modelled operation reads them.
- `math.sqrt`, `math.atan2`, `cos`, `sin`: foreign calls, passed as parameters. The arrow's wing coordinates are stated only up to cos² + sin² = 1.
- Floating-point rounding: all arithmetic is on `real`.
- No claim about convergence or overlap reduction over the whole relaxation pass is made, since the code does not promise any. The one-step facts (`SpringEndsReachTarget`, `RepelReachesSeparation`) concern a single spring or a single pair.
- `float()` parsing: a bulk weight cell is an `Option<real>`, with `None` for a cell that does not parse.
- `random.randint`: its draws are a parameter.
- The state after an exception: Python leaves the edge added and the scale set before `draw_graph` raises. The model returns only the error.
- bulk_input.py (the dialog) and main.py (the Tk bootstrap) are not part of this model. The dialog's rule that source and target are required puts no constraint on the rows here, since every row is accepted.
- The `templates` module is not part of this model. The two templates are parameters.
- Loaders.LoadTemplate: requires every neighbour of the chosen template to be a key. Otherwise `add_edge` creates a node without a position, and `relax_graph` fails on it at graph_editor.py:335.
- Loaders.ProcessBulkData: when there are no edges, positions are only known to lie in the placement box, not inside the relaxation margins.
- Relaxation.Relax: `iterations` is a `nat`. A negative count, which `range` treats as zero, is not modelled.
