/** The initiator-generator curves of initiator-generator.py: the Koch
    snowflake, whose edges are replaced recursively by four segments with an
    equilateral bump, and the Sierpinski triangle, whose triangles are
    replaced recursively by their three corner halves. The irrational
    np.sqrt(3) is a parameter `sqrt3`; the lemmas that need its value ask for
    sqrt3 * sqrt3 == 3. */
module Curves {

  datatype Point = Point(x: real, y: real)

  function Pow3(n: nat): (p: nat)
    ensures p >= 1
  {
    if n == 0 then 1 else 3 * Pow3(n - 1)
  }

  function Pow4(n: nat): (p: nat)
    ensures p >= 1
  {
    if n == 0 then 1 else 4 * Pow4(n - 1)
  }

  function Dist2(a: Point, b: Point): real
  {
    (b.x - a.x) * (b.x - a.x) + (b.y - a.y) * (b.y - a.y)
  }

  // ---------------------------------------------------------------------
  // Koch snowflake
  // ---------------------------------------------------------------------

  /** The one-third point s of p1 -> p2. */
  function Third(p1: Point, p2: Point): Point
  {
    Point(p1.x + (p2.x - p1.x) / 3.0, p1.y + (p2.y - p1.y) / 3.0)
  }

  /** The two-thirds point t of p1 -> p2. */
  function TwoThirds(p1: Point, p2: Point): Point
  {
    Point(p1.x + (p2.x - p1.x) * 2.0 / 3.0, p1.y + (p2.y - p1.y) * 2.0 / 3.0)
  }

  /** The apex u: the midpoint of p1 -> p2 moved sqrt(3)/6 of the edge to its left. */
  function Apex(p1: Point, p2: Point, sqrt3: real): Point
  {
    Point((p1.x + p2.x) / 2.0 - sqrt3 * (p2.y - p1.y) / 6.0,
          (p1.y + p2.y) / 2.0 + sqrt3 * (p2.x - p1.x) / 6.0)
  }

  /** generate_segment(p1, p2, order): the three first sub-lists in full and
      the fourth without its last point. The result has (5 * 4^order + 1) / 3
      points and starts at p1. */
  function KochSegment(p1: Point, p2: Point, order: nat, sqrt3: real): (r: seq<Point>)
    ensures 3 * |r| == 5 * Pow4(order) + 1
    ensures r[0] == p1
    decreases order
  {
    if order == 0 then [p1, p2]
    else
      var s, t, u := Third(p1, p2), TwoThirds(p1, p2), Apex(p1, p2, sqrt3);
      var last := KochSegment(t, p2, order - 1, sqrt3);
      KochSegment(p1, s, order - 1, sqrt3) + KochSegment(s, u, order - 1, sqrt3) +
      KochSegment(u, t, order - 1, sqrt3) + last[..|last| - 1]
  }

  /** The recurrence behind the length: L(n) = 4 L(n - 1) - 1 with L(0) = 2. */
  lemma KochLengthRecurrence(p1: Point, p2: Point, order: nat, sqrt3: real)
    requires order >= 1
    ensures |KochSegment(p1, p2, order, sqrt3)| == 4 * |KochSegment(p1, p2, order - 1, sqrt3)| - 1
  {
  }

  /** s, t and p2 split p1 -> p2 into three equal steps. */
  lemma EqualThirds(p1: Point, p2: Point)
    ensures var s, t := Third(p1, p2), TwoThirds(p1, p2);
            s.x - p1.x == t.x - s.x == p2.x - t.x && s.y - p1.y == t.y - s.y == p2.y - t.y
  {
  }

  /** The apex is as far from s as from t: it lies on the perpendicular
      bisector of the middle third, whatever sqrt3 is. */
  lemma ApexEquidistant(p1: Point, p2: Point, sqrt3: real)
    ensures var s, t, u := Third(p1, p2), TwoThirds(p1, p2), Apex(p1, p2, sqrt3);
            Dist2(s, u) == Dist2(t, u)
  {
    var dx, dy := p2.x - p1.x, p2.y - p1.y;
    var s, t, u := Third(p1, p2), TwoThirds(p1, p2), Apex(p1, p2, sqrt3);
    assert u.x - s.x == dx / 6.0 - sqrt3 * dy / 6.0;
    assert u.y - s.y == dy / 6.0 + sqrt3 * dx / 6.0;
    assert u.x - t.x == (0.0 - dx) / 6.0 - sqrt3 * dy / 6.0;
    assert u.y - t.y == (0.0 - dy) / 6.0 + sqrt3 * dx / 6.0;
  }

  /** With sqrt3 the square root of 3, the bump s, u, t is equilateral. */
  lemma ApexEquilateral(p1: Point, p2: Point, sqrt3: real)
    requires sqrt3 * sqrt3 == 3.0
    ensures var s, t, u := Third(p1, p2), TwoThirds(p1, p2), Apex(p1, p2, sqrt3);
            Dist2(s, u) == Dist2(s, t) && Dist2(t, u) == Dist2(s, t)
  {
    var dx, dy := p2.x - p1.x, p2.y - p1.y;
    var s, t, u := Third(p1, p2), TwoThirds(p1, p2), Apex(p1, p2, sqrt3);
    ApexEquidistant(p1, p2, sqrt3);
    assert t.x - s.x == dx / 3.0 && t.y - s.y == dy / 3.0;
    assert u.x - s.x == (dx - sqrt3 * dy) / 6.0;
    assert u.y - s.y == (dy + sqrt3 * dx) / 6.0;
    assert (dx - sqrt3 * dy) * (dx - sqrt3 * dy) + (dy + sqrt3 * dx) * (dy + sqrt3 * dx)
        == dx * dx + dy * dy + (sqrt3 * sqrt3) * (dx * dx + dy * dy);
  }

  /** For one level the list is p1, s, s, u, u, t, t: every inner point is
      repeated once and p2 itself is dropped. */
  lemma KochOrderOne(p1: Point, p2: Point, sqrt3: real)
    ensures var s, t, u := Third(p1, p2), TwoThirds(p1, p2), Apex(p1, p2, sqrt3);
            KochSegment(p1, p2, 1, sqrt3) == [p1, s, s, u, u, t, t]
  {
  }

  /** koch_snowflake's three edges p1 -> p2 -> p3 -> p1 of an equilateral
      triangle with the given side. */
  function SnowflakePoints(order: nat, side: real, sqrt3: real): (r: seq<Point>)
    ensures |r| == 5 * Pow4(order) + 1
    ensures r[0] == Point(0.0, 0.0)
  {
    var p1, p2, p3 := Point(0.0, 0.0), Point(side, 0.0), Point(side / 2.0, sqrt3 * side / 2.0);
    KochSegment(p1, p2, order, sqrt3) + KochSegment(p2, p3, order, sqrt3) + KochSegment(p3, p1, order, sqrt3)
  }

  /** At order 0 the snowflake is the closed triangle, each corner repeated
      where two edges meet. */
  lemma SnowflakeOrderZero(side: real, sqrt3: real)
    ensures SnowflakePoints(0, side, sqrt3) ==
            [Point(0.0, 0.0), Point(side, 0.0), Point(side, 0.0),
             Point(side / 2.0, sqrt3 * side / 2.0), Point(side / 2.0, sqrt3 * side / 2.0), Point(0.0, 0.0)]
  {
  }

  /** The points split into their x and their y coordinates, in two aligned sequences. */
  function Unzip(ps: seq<Point>): (r: (seq<real>, seq<real>))
    ensures |r.0| == |ps| && |r.1| == |ps|
    ensures forall k :: 0 <= k < |ps| ==> r.0[k] == ps[k].x && r.1[k] == ps[k].y
  {
    (seq(|ps|, k requires 0 <= k < |ps| => ps[k].x), seq(|ps|, k requires 0 <= k < |ps| => ps[k].y))
  }

  /** koch_snowflake(order, length): the x and y coordinates of the outline. */
  function KochSnowflake(order: nat, side: real, sqrt3: real): (r: (seq<real>, seq<real>))
    ensures |r.0| == |r.1| == 5 * Pow4(order) + 1
    ensures r.0[0] == 0.0 && r.1[0] == 0.0
  {
    Unzip(SnowflakePoints(order, side, sqrt3))
  }

  // ---------------------------------------------------------------------
  // Sierpinski triangle
  // ---------------------------------------------------------------------

  /** A triangle as its vertex list [a, b, c]. */
  datatype Triangle = Triangle(a: Point, b: Point, c: Point)

  function Mid(p: Point, q: Point): Point
  {
    Point((p.x + q.x) / 2.0, (p.y + q.y) / 2.0)
  }

  /** subdivide(vertices, order): the corner triangles at a, b and c of the
      midpoint split, each subdivided again, in that order. */
  function Subdivide(v: Triangle, order: nat): (r: seq<Triangle>)
    ensures |r| == Pow3(order)
    ensures r[0].a == v.a
    ensures r[|r| - 1].c == v.c
    decreases order
  {
    if order == 0 then [v]
    else
      var m0, m1, m2 := Mid(v.a, v.b), Mid(v.b, v.c), Mid(v.c, v.a);
      Subdivide(Triangle(v.a, m0, m2), order - 1) +
      Subdivide(Triangle(m0, v.b, m1), order - 1) +
      Subdivide(Triangle(m2, m1, v.c), order - 1)
  }

  /** A displacement between two points. */
  datatype Vec = Vec(dx: real, dy: real)

  function Edge(p: Point, q: Point): Vec
  {
    Vec(q.x - p.x, q.y - p.y)
  }

  /** e scaled by 1 / 2^n. */
  function Shrink(e: Vec, n: nat): Vec
    decreases n
  {
    if n == 0 then e else Shrink(Vec(e.dx / 2.0, e.dy / 2.0), n - 1)
  }

  /** t is v shrunk by 2^n and moved: both edges from its first vertex are
      v's edges scaled by 1 / 2^n. */
  predicate ScaledCopy(t: Triangle, v: Triangle, n: nat)
  {
    Edge(t.a, t.b) == Shrink(Edge(v.a, v.b), n) && Edge(t.a, t.c) == Shrink(Edge(v.a, v.c), n)
  }

  /** The three corner triangles of one split are v at half size. */
  lemma CornersAreHalves(v: Triangle)
    ensures var m0, m1, m2 := Mid(v.a, v.b), Mid(v.b, v.c), Mid(v.c, v.a);
            ScaledCopy(Triangle(v.a, m0, m2), v, 1) && ScaledCopy(Triangle(m0, v.b, m1), v, 1) &&
            ScaledCopy(Triangle(m2, m1, v.c), v, 1)
  {
  }

  /** Shrinking by 2^n the half-size edges of a copy is shrinking by 2^(n+1). */
  lemma ShrinkCompose(e: Vec, e': Vec, n: nat)
    requires e' == Shrink(e, 1)
    ensures Shrink(e', n) == Shrink(e, n + 1)
  {
  }

  /** Every triangle of subdivide(v, order) is a copy of v at scale 1 / 2^order. */
  lemma {:induction false} SubdivideCopies(v: Triangle, order: nat)
    ensures forall t :: t in Subdivide(v, order) ==> ScaledCopy(t, v, order)
    decreases order
  {
    if order > 0 {
      var m0, m1, m2 := Mid(v.a, v.b), Mid(v.b, v.c), Mid(v.c, v.a);
      var children := [Triangle(v.a, m0, m2), Triangle(m0, v.b, m1), Triangle(m2, m1, v.c)];
      CornersAreHalves(v);
      forall k | 0 <= k < 3
        ensures forall t :: t in Subdivide(children[k], order - 1) ==> ScaledCopy(t, v, order)
      {
        SubdivideCopies(children[k], order - 1);
        forall t | t in Subdivide(children[k], order - 1)
          ensures ScaledCopy(t, v, order)
        {
          ShrinkCompose(Edge(v.a, v.b), Edge(children[k].a, children[k].b), order - 1);
          ShrinkCompose(Edge(v.a, v.c), Edge(children[k].a, children[k].c), order - 1);
        }
      }
      assert Subdivide(v, order) ==
             Subdivide(children[0], order - 1) + Subdivide(children[1], order - 1) + Subdivide(children[2], order - 1);
    }
  }

  /** sierpinski_triangle(order): the subdivision of the unit equilateral triangle. */
  function SierpinskiTriangle(order: nat, sqrt3: real): (r: seq<Triangle>)
    ensures |r| == Pow3(order)
    ensures r[0].a == Point(0.0, 0.0)
  {
    Subdivide(Triangle(Point(0.0, 0.0), Point(1.0, 0.0), Point(0.5, sqrt3 / 2.0)), order)
  }
}
