/**
 * `relax_graph` (graph_editor.py): the constraint relaxation that pulls each edge towards the
 * length its weight asks for, pushes apart nodes that overlap and keeps nodes on the canvas.
 *
 * One iteration runs three passes in order, each updating the positions in place so that every
 * step reads what the steps before it wrote: a fold over the edges (attraction), a fold over
 * the node pairs i < j (repulsion) and a fold over the nodes (clamping).
 */
module Relaxation {
  import opened Wrappers
  import opened Seqs
  import opened Geometry
  import opened Graph

  /** `self.node_radius`. */
  const NodeRadius: real := 20.0

  /** The factor `alpha` each spring moves both ends by. */
  const Stiffness: real := 0.5

  /** The distance used in place of 0 for coincident nodes. */
  const DistanceFloor: real := 0.1

  /** Node centres closer than this are pushed apart: 2.5 node radii. */
  const MinSeparation: real := 2.5 * NodeRadius

  /** The clamping margin, one node radius. */
  const Margin: real := NodeRadius

  /** Node positions, `self.pos`. */
  type Positions = map<NodeId, Point>

  /** The canvas size `winfo_width()` x `winfo_height()`, in whole pixels. */
  datatype Canvas = Canvas(width: int, height: int)

  /** One edge as the relaxation reads it: its endpoints and its weight. */
  datatype Spring = Spring(u: NodeId, v: NodeId, weight: real)

  /** The divisor both passes use: the distance, or the floor when it is 0. */
  function Floored(d: real): (r: real)
    ensures r != 0.0
    ensures d != 0.0 ==> r == d
  {
    if d == 0.0 then DistanceFloor else d
  }

  /** `pos` unchanged outside the nodes `u` and `v`, and on the pinned ones. */
  ghost predicate MovesOnly(pos: Positions, r: Positions, fixed: set<NodeId>, u: NodeId, v: NodeId) {
    && r.Keys == pos.Keys
    && (forall n :: n in pos && (n in fixed || (n != u && n != v)) ==> r[n] == pos[n])
  }

  /** Positions with every key kept and every pinned node unmoved. */
  ghost predicate KeepsPinned(pos: Positions, r: Positions, fixed: set<NodeId>) {
    && r.Keys == pos.Keys
    && (forall n :: n in pos && n in fixed ==> r[n] == pos[n])
  }

  /** Moves `u` to `a` and `v` to `b`, skipping whichever of them is pinned. */
  function MovePair(pos: Positions, fixed: set<NodeId>, u: NodeId, a: Point, v: NodeId, b: Point): (r: Positions)
    requires u in pos && v in pos
    ensures MovesOnly(pos, r, fixed, u, v)
    ensures v !in fixed ==> r[v] == b
    ensures u !in fixed && u != v ==> r[u] == a
  {
    var afterU := if u in fixed then pos else pos[u := a];
    if v in fixed then afterU else afterU[v := b]
  }

  /** Between coincident points, or with a zero factor, every scaled offset is zero. */
  lemma ZeroOffset(p: Point, q: Point, k: real)
    requires p == q || k == 0.0
    ensures (q.x - p.x) * k == 0.0 && (q.y - p.y) * k == 0.0
  {
  }

  /** `target_dist`: the length an edge's weight asks for at the current scale. */
  function TargetLength(s: Spring, scale: real): real {
    s.weight * scale
  }

  /**
   * Where one spring step puts two free ends: each moves along the line between them by half
   * the difference between their (floored) distance and the target, in opposite directions,
   * so their midpoint stays put.
   */
  function SpringEnds(p: Point, q: Point, target: real, sqrt: real -> real): (r: (Point, Point))
    ensures r.0.x + r.1.x == p.x + q.x && r.0.y + r.1.y == p.y + q.y
    ensures p == q ==> r == (p, q)
    ensures PointDistance(sqrt, p, q) == target != 0.0 ==> r == (p, q)
  {
    var d := Floored(PointDistance(sqrt, p, q));
    var diff := (d - target) / d;
    var dx := (q.x - p.x) * diff * Stiffness;
    var dy := (q.y - p.y) * diff * Stiffness;
    assert p == q || diff == 0.0 ==> dx == 0.0 && dy == 0.0 by {
      if p == q || diff == 0.0 {
        ZeroOffset(p, q, diff);
      }
    }
    (Point(p.x + dx, p.y + dy), Point(q.x - dx, q.y - dy))
  }

  /**
   * One spring step for an edge: its free ends move to `SpringEnds` for the target length
   * `weight * scale`. An edge with an endpoint that has no position is skipped.
   */
  function Attract(pos: Positions, fixed: set<NodeId>, s: Spring, scale: real, sqrt: real -> real): (r: Positions)
    ensures MovesOnly(pos, r, fixed, s.u, s.v)
    ensures s.u in pos && s.v in pos && s.u !in fixed && s.u != s.v ==>
      r[s.u] == SpringEnds(pos[s.u], pos[s.v], TargetLength(s, scale), sqrt).0
    ensures s.u in pos && s.v in pos && s.v !in fixed ==>
      r[s.v] == SpringEnds(pos[s.u], pos[s.v], TargetLength(s, scale), sqrt).1
  {
    if s.u !in pos || s.v !in pos then pos
    else
      var ends := SpringEnds(pos[s.u], pos[s.v], TargetLength(s, scale), sqrt);
      MovePair(pos, fixed, s.u, ends.0, s.v, ends.1)
  }

  /** The attraction pass: one spring step per edge, in edge iteration order. */
  function AttractAll(pos: Positions, fixed: set<NodeId>, springs: seq<Spring>, scale: real, sqrt: real -> real): (r: Positions)
    ensures KeepsPinned(pos, r, fixed)
    ensures forall n :: n in pos && (forall i :: 0 <= i < |springs| ==> springs[i].u != n && springs[i].v != n) ==> r[n] == pos[n]
    decreases |springs|
  {
    if |springs| == 0 then pos
    else
      var next := Attract(pos, fixed, springs[0], scale, sqrt);
      assert forall i :: 1 <= i < |springs| ==> springs[1..][i - 1] == springs[i];
      AttractAll(next, fixed, springs[1..], scale, sqrt)
  }

  /**
   * Where one repulsion step puts two free nodes that are too close: each moves away from the
   * other by half the shortfall below the minimum separation, keeping their midpoint.
   */
  function PushEnds(p: Point, q: Point, sqrt: real -> real): (r: (Point, Point))
    ensures r.0.x + r.1.x == p.x + q.x && r.0.y + r.1.y == p.y + q.y
    ensures p == q ==> r == (p, q)
  {
    var d := Floored(PointDistance(sqrt, p, q));
    var push := (MinSeparation - d) / d * 0.5;
    var dx := (q.x - p.x) * push;
    var dy := (q.y - p.y) * push;
    assert p == q ==> dx == 0.0 && dy == 0.0 by {
      if p == q {
        ZeroOffset(p, q, push);
      }
    }
    (Point(p.x - dx, p.y - dy), Point(q.x + dx, q.y + dy))
  }

  /**
   * One repulsion step for the pair (u, v): only nodes closer than the minimum separation move,
   * to `PushEnds`.
   */
  function RepelPair(pos: Positions, fixed: set<NodeId>, u: NodeId, v: NodeId, sqrt: real -> real): (r: Positions)
    requires u in pos && v in pos
    ensures MovesOnly(pos, r, fixed, u, v)
    ensures MinSeparation <= PointDistance(sqrt, pos[u], pos[v]) ==> r == pos
    ensures PointDistance(sqrt, pos[u], pos[v]) < MinSeparation && u !in fixed && u != v ==>
      r[u] == PushEnds(pos[u], pos[v], sqrt).0
    ensures PointDistance(sqrt, pos[u], pos[v]) < MinSeparation && v !in fixed ==>
      r[v] == PushEnds(pos[u], pos[v], sqrt).1
  {
    if PointDistance(sqrt, pos[u], pos[v]) < MinSeparation then
      var ends := PushEnds(pos[u], pos[v], sqrt);
      MovePair(pos, fixed, u, ends.0, v, ends.1)
    else pos
  }

  /** The inner repulsion loop: `u` against every later node `vs[j]`. */
  function RepelRow(pos: Positions, fixed: set<NodeId>, u: NodeId, vs: seq<NodeId>, sqrt: real -> real): (r: Positions)
    requires u in pos && forall j :: 0 <= j < |vs| ==> vs[j] in pos
    ensures KeepsPinned(pos, r, fixed)
    decreases |vs|
  {
    if |vs| == 0 then pos
    else
      var next := if u == vs[0] then pos else RepelPair(pos, fixed, u, vs[0], sqrt);
      RepelRow(next, fixed, u, vs[1..], sqrt)
  }

  /** The repulsion pass: every pair `nodes[i]`, `nodes[j]` with i < j, row by row. */
  function RepelFrom(pos: Positions, fixed: set<NodeId>, nodes: seq<NodeId>, sqrt: real -> real): (r: Positions)
    requires forall i :: 0 <= i < |nodes| ==> nodes[i] in pos
    ensures KeepsPinned(pos, r, fixed)
    decreases |nodes|
  {
    if |nodes| == 0 then pos
    else
      var next := RepelRow(pos, fixed, nodes[0], nodes[1..], sqrt);
      RepelFrom(next, fixed, nodes[1..], sqrt)
  }

  function Max(a: real, b: real): real { if a < b then b else a }

  function Min(a: real, b: real): real { if a < b then a else b }

  /**
   * Inside the margins: at least `Margin` from the top-left edges, and at least `Margin` from
   * the bottom-right ones along each axis that is wide enough to leave room for both margins.
   */
  predicate WithinCanvas(p: Point, c: Canvas) {
    && Margin <= p.x
    && Margin <= p.y
    && (2.0 * Margin <= c.width as real ==> p.x <= c.width as real - Margin)
    && (2.0 * Margin <= c.height as real ==> p.y <= c.height as real - Margin)
  }

  /** Each coordinate is pulled down to the far margin and then up to the near one. */
  function ClampPoint(p: Point, c: Canvas): (r: Point)
    ensures WithinCanvas(r, c)
    ensures WithinCanvas(p, c) && 2.0 * Margin <= c.width as real && 2.0 * Margin <= c.height as real ==> r == p
  {
    Point(Max(Margin, Min(c.width as real - Margin, p.x)), Max(Margin, Min(c.height as real - Margin, p.y)))
  }

  /** Clamping a clamped point changes nothing, on any canvas. */
  lemma ClampIdempotent(p: Point, c: Canvas)
    ensures ClampPoint(ClampPoint(p, c), c) == ClampPoint(p, c)
  {
  }

  /** The clamping pass: every free node of `nodes` is moved inside the margins. */
  function ClampAll(pos: Positions, fixed: set<NodeId>, nodes: seq<NodeId>, c: Canvas): (r: Positions)
    requires forall i :: 0 <= i < |nodes| ==> nodes[i] in pos
    ensures KeepsPinned(pos, r, fixed)
    ensures forall i :: 0 <= i < |nodes| && nodes[i] !in fixed ==> WithinCanvas(r[nodes[i]], c)
    ensures forall n :: n in pos && n !in nodes ==> r[n] == pos[n]
    ensures forall n :: n in pos && n in nodes && n !in fixed ==> r[n] == ClampPoint(pos[n], c)
    decreases |nodes|
  {
    if |nodes| == 0 then pos
    else
      var n := nodes[0];
      var next := if n in fixed then pos else pos[n := ClampPoint(pos[n], c)];
      var r := ClampAll(next, fixed, nodes[1..], c);
      assert forall i :: 1 <= i < |nodes| ==> nodes[i] == nodes[1..][i - 1];
      assert forall m :: m in nodes ==> m == n || m in nodes[1..];
      assert n !in fixed ==> (n in nodes[1..] || r[n] == next[n]);
      assert n !in fixed && n in nodes[1..] ==> r[n] == ClampPoint(ClampPoint(pos[n], c), c) by {
        if n !in fixed && n in nodes[1..] {
          ClampIdempotent(pos[n], c);
        }
      }
      r
  }

  /** Running the clamping pass a second time moves nothing. */
  lemma ClampAllIdempotent(pos: Positions, fixed: set<NodeId>, nodes: seq<NodeId>, c: Canvas)
    requires forall i :: 0 <= i < |nodes| ==> nodes[i] in pos
    ensures ClampAll(ClampAll(pos, fixed, nodes, c), fixed, nodes, c) == ClampAll(pos, fixed, nodes, c)
  {
  }

  /** The endpoints of a spring, as an edge key. */
  function SpringPair(s: Spring): Pair {
    (s.u, s.v)
  }

  /** One spring per edge key of `es`, carrying the weight `edges` records for it. */
  function SpringsOf(es: seq<Pair>, edges: map<Pair, EdgeData>): (r: seq<Spring>)
    requires forall i :: 0 <= i < |es| ==> es[i] in edges
    ensures |r| == |es|
    ensures forall i :: 0 <= i < |r| ==> SpringPair(r[i]) == es[i] && r[i].weight == edges[es[i]].weight
    ensures forall e :: e in es ==> exists i :: 0 <= i < |r| && SpringPair(r[i]) == e
    ensures Distinct(es) ==> forall i, j :: 0 <= i < j < |r| ==> SpringPair(r[i]) != SpringPair(r[j])
  {
    var r := seq(|es|, i requires 0 <= i < |es| => Spring(es[i].0, es[i].1, edges[es[i]].weight));
    assert forall i :: 0 <= i < |r| ==> SpringPair(r[i]) == es[i];
    r
  }

  /**
   * The springs of a graph, in the order `graph.edges(data=True)` yields them: one per edge,
   * carrying its weight, and no edge twice.
   */
  function Springs(g: DiGraph): (r: seq<Spring>)
    requires Wf(g)
    ensures forall i :: 0 <= i < |r| ==> SpringPair(r[i]) in g.edges && r[i].weight == g.edges[SpringPair(r[i])].weight
    ensures forall e :: e in g.edges ==> exists i :: 0 <= i < |r| && SpringPair(r[i]) == e
    ensures forall i, j :: 0 <= i < j < |r| ==> SpringPair(r[i]) != SpringPair(r[j])
    ensures |r| == |g.edges|
  {
    var es := IterEdges(g);
    SpringsOf(es, g.edges)
  }

  /** The attraction pass over a graph: one spring step per edge, each edge once. */
  function AttractEdges(g: DiGraph, pos: Positions, fixed: set<NodeId>, scale: real, sqrt: real -> real): (r: Positions)
    requires Wf(g)
    ensures KeepsPinned(pos, r, fixed)
  {
    AttractAll(pos, fixed, Springs(g), scale, sqrt)
  }

  /** One iteration: attraction, then repulsion, then clamping. */
  function Iteration(g: DiGraph, pos: Positions, scale: real, fixed: set<NodeId>, c: Canvas, sqrt: real -> real): (r: Positions)
    requires Wf(g)
    requires forall n :: n in g.nodes ==> n in pos
    ensures KeepsPinned(pos, r, fixed)
    ensures forall n :: n in g.nodes && n !in fixed ==> WithinCanvas(r[n], c)
  {
    var attracted := AttractEdges(g, pos, fixed, scale, sqrt);
    var repelled := RepelFrom(attracted, fixed, g.nodes, sqrt);
    var r := ClampAll(repelled, fixed, g.nodes, c);
    assert forall n :: n in g.nodes ==> exists i :: 0 <= i < |g.nodes| && g.nodes[i] == n;
    r
  }

  /** `for _ in range(iterations)`. */
  function RelaxLoop(g: DiGraph, pos: Positions, scale: real, fixed: set<NodeId>, iterations: nat, c: Canvas, sqrt: real -> real): (r: Positions)
    requires Wf(g)
    requires forall n :: n in g.nodes ==> n in pos
    ensures KeepsPinned(pos, r, fixed)
    ensures 0 < iterations ==> forall n :: n in g.nodes && n !in fixed ==> WithinCanvas(r[n], c)
    decreases iterations
  {
    if iterations == 0 then pos
    else RelaxLoop(g, Iteration(g, pos, scale, fixed, c, sqrt), scale, fixed, iterations - 1, c, sqrt)
  }

  /**
   * `relax_graph(fixed_nodes, iterations)`. It does nothing on a graph without edges or while
   * the scale is unset; otherwise it runs the iterations. The repulsion and clamping passes read
   * the position of every node, so every node must have one.
   */
  function Relax(g: DiGraph, pos: Positions, scale: Option<real>, fixed: set<NodeId>, iterations: nat, c: Canvas, sqrt: real -> real): (r: Positions)
    requires Wf(g)
    requires forall n :: n in g.nodes ==> n in pos
    ensures KeepsPinned(pos, r, fixed)
    ensures g.edges == map[] || scale.None? || iterations == 0 ==> r == pos
    ensures g.edges != map[] && scale.Some? && 0 < iterations ==>
      forall n :: n in g.nodes && n !in fixed ==> WithinCanvas(r[n], c)
  {
    if g.edges == map[] then pos
    else if scale.None? then pos
    else RelaxLoop(g, pos, scale.value, fixed, iterations, c, sqrt)
  }

  /** A spring between two coincident nodes moves neither: the floored distance still multiplies a zero offset. */
  lemma CoincidentNotAttracted(pos: Positions, fixed: set<NodeId>, s: Spring, scale: real, sqrt: real -> real)
    requires s.u in pos && s.v in pos && pos[s.u] == pos[s.v]
    ensures Attract(pos, fixed, s, scale, sqrt) == pos
  {
  }

  /** Two coincident nodes are not pushed apart either. */
  lemma CoincidentNotRepelled(pos: Positions, fixed: set<NodeId>, u: NodeId, v: NodeId, sqrt: real -> real)
    requires u in pos && v in pos && pos[u] == pos[v]
    ensures RepelPair(pos, fixed, u, v, sqrt) == pos
  {
  }

  /** A spring already at its (non-zero) target length moves neither end. */
  lemma AtTargetNotAttracted(pos: Positions, fixed: set<NodeId>, s: Spring, scale: real, sqrt: real -> real)
    requires s.u in pos && s.v in pos
    requires PointDistance(sqrt, pos[s.u], pos[s.v]) == TargetLength(s, scale) != 0.0
    ensures Attract(pos, fixed, s, scale, sqrt) == pos
  {
  }

  /** A product of a negative and a positive number is negative. */
  lemma NegativeTimesPositive(a: real, b: real)
    requires a < 0.0 < b
    ensures a * b < 0.0
  {
  }

  /**
   * With a true square root, a spring step between two points that do not coincide puts them
   * exactly the (non-negative) target length apart.
   */
  lemma SpringEndsReachTarget(p: Point, q: Point, target: real, sqrt: real -> real)
    requires IsSqrt(sqrt)
    requires p != q && 0.0 <= target
    ensures var r := SpringEnds(p, q, target, sqrt); PointDistance(sqrt, r.0, r.1) == target
  {
    var dist := PointDistance(sqrt, p, q);
    DistanceZeroIff(sqrt, p, q);
    DistanceNonNegative(sqrt, p, q);
    assert Floored(dist) == dist;
    var diff := (dist - target) / dist;
    assert diff * dist == dist - target;
    var c := 1.0 - diff;
    assert c * dist == target;
    if c < 0.0 {
      NegativeTimesPositive(c, dist);
      assert false;
    }
    var r := SpringEnds(p, q, target, sqrt);
    assert r.1.x - r.0.x == c * (q.x - p.x);
    assert r.1.y - r.0.y == c * (q.y - p.y);
    ScaledDistance(sqrt, p, q, r.0, r.1, c);
  }

  /**
   * With a true square root, pushing apart two points that are closer than the minimum
   * separation, but do not coincide, leaves them exactly the minimum separation apart.
   */
  lemma PushEndsReachSeparation(p: Point, q: Point, sqrt: real -> real)
    requires IsSqrt(sqrt)
    requires p != q && PointDistance(sqrt, p, q) < MinSeparation
    ensures var r := PushEnds(p, q, sqrt); PointDistance(sqrt, r.0, r.1) == MinSeparation
  {
    var dist := PointDistance(sqrt, p, q);
    DistanceZeroIff(sqrt, p, q);
    DistanceNonNegative(sqrt, p, q);
    assert Floored(dist) == dist;
    var push := (MinSeparation - dist) / dist * 0.5;
    assert 2.0 * push * dist == MinSeparation - dist;
    var c := 1.0 + 2.0 * push;
    assert c * dist == MinSeparation;
    if c < 0.0 {
      NegativeTimesPositive(c, dist);
      assert false;
    }
    var r := PushEnds(p, q, sqrt);
    assert r.1.x - r.0.x == c * (q.x - p.x);
    assert r.1.y - r.0.y == c * (q.y - p.y);
    ScaledDistance(sqrt, p, q, r.0, r.1, c);
  }

  /** A spring step between two distinct free nodes sets their distance to the target length. */
  lemma AttractReachesTarget(pos: Positions, fixed: set<NodeId>, s: Spring, scale: real, sqrt: real -> real)
    requires IsSqrt(sqrt)
    requires s.u in pos && s.v in pos && s.u != s.v
    requires s.u !in fixed && s.v !in fixed
    requires pos[s.u] != pos[s.v]
    requires 0.0 <= TargetLength(s, scale)
    ensures var r := Attract(pos, fixed, s, scale, sqrt);
      PointDistance(sqrt, r[s.u], r[s.v]) == TargetLength(s, scale)
  {
    var ends := SpringEnds(pos[s.u], pos[s.v], TargetLength(s, scale), sqrt);
    SpringEndsReachTarget(pos[s.u], pos[s.v], TargetLength(s, scale), sqrt);
    var r := Attract(pos, fixed, s, scale, sqrt);
    assert r[s.u] == ends.0 && r[s.v] == ends.1;
  }

  /** Repelling two distinct free nodes that are too close sets their distance to the minimum separation. */
  lemma RepelReachesSeparation(pos: Positions, fixed: set<NodeId>, u: NodeId, v: NodeId, sqrt: real -> real)
    requires IsSqrt(sqrt)
    requires u in pos && v in pos && u != v
    requires u !in fixed && v !in fixed
    requires pos[u] != pos[v]
    requires PointDistance(sqrt, pos[u], pos[v]) < MinSeparation
    ensures var r := RepelPair(pos, fixed, u, v, sqrt);
      PointDistance(sqrt, r[u], r[v]) == MinSeparation
  {
    PushEndsReachSeparation(pos[u], pos[v], sqrt);
  }

  /**
   * A worked spring step: nodes at (0, 0) and (10, 0) joined by an edge of weight 2 at 75
   * pixels per unit want to be 150 apart, so each moves 70 outwards.
   */
  lemma SpringExample(sqrt: real -> real, a: NodeId, b: NodeId)
    requires IsSqrt(sqrt)
    requires a != b
    ensures var pos := map[a := Point(0.0, 0.0), b := Point(10.0, 0.0)];
      var r := Attract(pos, {}, Spring(a, b, 2.0), 75.0, sqrt);
      r[a] == Point(-70.0, 0.0) && r[b] == Point(80.0, 0.0)
  {
    var p := Point(0.0, 0.0);
    var q := Point(10.0, 0.0);
    assert SquaredDistance(p, q) == 100.0;
    var d := sqrt(100.0);
    assert 0.0 <= d && d * d == 100.0;
    RootUnique(d, 10.0);
    assert PointDistance(sqrt, p, q) == 10.0;
  }
}
