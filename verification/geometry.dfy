/**
 * The geometry helpers of utils.py: Euclidean point distance and the arrowhead polygon.
 *
 * `math.sqrt` and the trigonometric functions are foreign calls; they are parameters here.
 * Every property that needs a true square root says so with `IsSqrt(sqrt)`; the rest hold for
 * any function, floating-point `sqrt` included.
 */
module Geometry {

  /** A position on the canvas. */
  datatype Point = Point(x: real, y: real)

  /** `sqrt` returns the non-negative square root of every non-negative number. */
  ghost predicate IsSqrt(sqrt: real -> real) {
    forall a: real :: 0.0 <= a ==> 0.0 <= sqrt(a) && sqrt(a) * sqrt(a) == a
  }

  /** The radicand of `point_distance`: (x2 - x1)^2 + (y2 - y1)^2. */
  function SquaredDistance(p: Point, q: Point): (r: real)
    ensures 0.0 <= r
  {
    (q.x - p.x) * (q.x - p.x) + (q.y - p.y) * (q.y - p.y)
  }

  /** `point_distance(x1, y1, x2, y2)` from utils.py. */
  function PointDistance(sqrt: real -> real, p: Point, q: Point): real {
    sqrt(SquaredDistance(p, q))
  }

  /** Both points moved by the same offset. */
  function Translate(p: Point, dx: real, dy: real): Point {
    Point(p.x + dx, p.y + dy)
  }

  lemma SquaresOrdered(a: real, b: real)
    requires 0.0 <= a < b
    ensures a * a < b * b
  {
    calc {
      a * a;
    <=
      a * b;
    <
      b * b;
    }
  }

  /** Two non-negative numbers with equal squares are equal: square roots are unique. */
  lemma RootUnique(a: real, b: real)
    requires 0.0 <= a && 0.0 <= b
    requires a * a == b * b
    ensures a == b
  {
    if a < b {
      SquaresOrdered(a, b);
      assert false;
    } else if b < a {
      SquaresOrdered(b, a);
      assert false;
    }
  }

  lemma SquareZero(a: real)
    requires a * a == 0.0
    ensures a == 0.0
  {
    if a >= 0.0 {
      RootUnique(a, 0.0);
    } else {
      assert (-a) * (-a) == a * a;
      RootUnique(-a, 0.0);
    }
  }

  /** The squared distance vanishes only for coincident points. */
  lemma SquaredDistanceZero(p: Point, q: Point)
    requires SquaredDistance(p, q) == 0.0
    ensures p == q
  {
    var dx := q.x - p.x;
    var dy := q.y - p.y;
    assert 0.0 <= dx * dx && 0.0 <= dy * dy;
    assert dx * dx == 0.0;
    SquareZero(dx);
    assert dy * dy == 0.0;
    SquareZero(dy);
  }

  lemma DistanceNonNegative(sqrt: real -> real, p: Point, q: Point)
    requires IsSqrt(sqrt)
    ensures 0.0 <= PointDistance(sqrt, p, q)
    ensures PointDistance(sqrt, p, q) * PointDistance(sqrt, p, q) == SquaredDistance(p, q)
  {
  }

  /** Swapping the two points does not change the distance, whatever `sqrt` computes. */
  lemma DistanceSymmetric(sqrt: real -> real, p: Point, q: Point)
    ensures PointDistance(sqrt, p, q) == PointDistance(sqrt, q, p)
  {
  }

  /** The distance is zero exactly for coincident points: the case the relaxation floors to 0.1. */
  lemma DistanceZeroIff(sqrt: real -> real, p: Point, q: Point)
    requires IsSqrt(sqrt)
    ensures PointDistance(sqrt, p, q) == 0.0 <==> p == q
  {
    var s := SquaredDistance(p, q);
    var d := sqrt(s);
    assert 0.0 <= d && d * d == s;
    if d == 0.0 {
      SquaredDistanceZero(p, q);
    }
    if p == q {
      assert s == 0.0;
      RootUnique(d, 0.0);
    }
  }

  /** Moving both points by the same offset does not change their distance. */
  lemma DistanceTranslationInvariant(sqrt: real -> real, p: Point, q: Point, dx: real, dy: real)
    ensures PointDistance(sqrt, Translate(p, dx, dy), Translate(q, dx, dy)) == PointDistance(sqrt, p, q)
  {
    assert (q.x + dx) - (p.x + dx) == q.x - p.x;
    assert (q.y + dy) - (p.y + dy) == q.y - p.y;
    assert SquaredDistance(Translate(p, dx, dy), Translate(q, dx, dy)) == SquaredDistance(p, q);
  }

  /**
   * When the vector from p' to q' is the vector from p to q scaled by c >= 0, the distance
   * scales by c. This is what makes one relaxation step land exactly on its target length.
   */
  lemma ScaledDistance(sqrt: real -> real, p: Point, q: Point, p': Point, q': Point, c: real)
    requires IsSqrt(sqrt)
    requires 0.0 <= c
    requires q'.x - p'.x == c * (q.x - p.x)
    requires q'.y - p'.y == c * (q.y - p.y)
    ensures PointDistance(sqrt, p', q') == c * PointDistance(sqrt, p, q)
  {
    var dx := q.x - p.x;
    var dy := q.y - p.y;
    assert SquaredDistance(p', q') == (c * dx) * (c * dx) + (c * dy) * (c * dy);
    assert (c * dx) * (c * dx) == (c * c) * (dx * dx);
    assert (c * dy) * (c * dy) == (c * c) * (dy * dy);
    assert SquaredDistance(p', q') == (c * c) * SquaredDistance(p, q);
    DistanceNonNegative(sqrt, p, q);
    DistanceNonNegative(sqrt, p', q');
    var d := PointDistance(sqrt, p, q);
    var d' := PointDistance(sqrt, p', q');
    assert (c * d) * (c * d) == (c * c) * (d * d);
    assert 0.0 <= c * d;
    RootUnique(d', c * d);
  }

  /** The trigonometric functions `calculate_arrow_points` calls, and the constant pi. */
  datatype Trig = Trig(atan2: (real, real) -> real, cos: real -> real, sin: real -> real, pi: real)

  /** cos^2 + sin^2 = 1 at every angle. */
  ghost predicate Pythagorean(trig: Trig) {
    forall a: real :: trig.cos(a) * trig.cos(a) + trig.sin(a) * trig.sin(a) == 1.0
  }

  /**
   * `calculate_arrow_points(x1, y1, x2, y2, arrow_size)`: the tip (x2, y2) followed by the two
   * wing points, swept back from the tip by pi/6 on either side of the segment direction.
   */
  function ArrowPoints(trig: Trig, x1: real, y1: real, x2: real, y2: real, size: real): (r: seq<real>)
    ensures |r| == 6
    ensures r[0] == x2 && r[1] == y2
  {
    var angle := trig.atan2(y2 - y1, x2 - x1);
    var p1x := x2 - size * trig.cos(angle - trig.pi / 6.0);
    var p1y := y2 - size * trig.sin(angle - trig.pi / 6.0);
    var p2x := x2 - size * trig.cos(angle + trig.pi / 6.0);
    var p2y := y2 - size * trig.sin(angle + trig.pi / 6.0);
    [x2, y2, p1x, p1y, p2x, p2y]
  }

  /** Both wings lie exactly `size` away from the tip, given cos^2 + sin^2 = 1. */
  lemma ArrowWingsAtArrowSize(trig: Trig, x1: real, y1: real, x2: real, y2: real, size: real)
    requires Pythagorean(trig)
    ensures var r := ArrowPoints(trig, x1, y1, x2, y2, size);
      && SquaredDistance(Point(r[0], r[1]), Point(r[2], r[3])) == size * size
      && SquaredDistance(Point(r[0], r[1]), Point(r[4], r[5])) == size * size
  {
  }

  lemma WingAtSize(trig: Trig, x: real, y: real, size: real, a: real)
    requires Pythagorean(trig)
    ensures SquaredDistance(Point(x, y), Point(x - size * trig.cos(a), y - size * trig.sin(a))) == size * size
  {
  }
}
