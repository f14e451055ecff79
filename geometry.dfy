// Board coordinates: the Point record, the eight scan directions and the
// rays that the flanking rule walks along.

module Geometry {

  /** A board coordinate (row x, column y) with the vector arithmetic of the source's Point. */
  datatype Point = Point(x: int, y: int) {
    function Add(other: Point): Point {
      Point(x + other.x, y + other.y)
    }
    function Sub(other: Point): Point {
      Point(x - other.x, y - other.y)
    }
  }

  const SIZE: int := 8

  /** The eight neighbours of a cell, in the order the engine scans them. */
  const Directions: seq<Point> := [
    Point(-1, -1), Point(-1, 0), Point(-1, 1),
    Point(0, -1),                Point(0, 1),
    Point(1, -1),  Point(1, 0),  Point(1, 1)
  ]

  predicate OnBoard(p: Point) {
    0 <= p.x < SIZE && 0 <= p.y < SIZE
  }

  /** A unit step to one of the eight neighbours. */
  predicate IsDirection(d: Point) {
    -1 <= d.x <= 1 && -1 <= d.y <= 1 && d != Point(0, 0)
  }

  /** The t-th scan direction, computed from its index: the cells of the 3x3
      block around the centre in row-major order, the centre itself skipped. */
  function Dir(t: int): (d: Point)
    requires 0 <= t < 8
    ensures IsDirection(d)
  {
    var k := if t < 4 then t else t + 1;
    Point(k / 3 - 1, k % 3 - 1)
  }

  /** Dir enumerates the direction table, entry by entry. */
  lemma DirIsTable(t: int)
    requires 0 <= t < 8
    ensures Dir(t) == Directions[t]
  {
  }

  /** k times a unit component s (s is -1, 0 or 1), kept linear for the solver. */
  function Scale(k: int, s: int): int {
    if s == 1 then k else if s == -1 then -k else 0
  }

  /** The cell k steps from c in direction d. */
  function Ray(c: Point, d: Point, k: nat): Point {
    Point(c.x + Scale(k, d.x), c.y + Scale(k, d.y))
  }

  /** The first n cells of the ray from c in direction d, nearest first. */
  function RayCells(c: Point, d: Point, n: nat): (s: seq<Point>)
    ensures |s| == n && forall m :: 0 <= m < n ==> s[m] == Ray(c, d, m + 1)
  {
    if n == 0 then [] else RayCells(c, d, n - 1) + [Ray(c, d, n)]
  }

  lemma RayStart(c: Point, d: Point)
    requires IsDirection(d)
    ensures Ray(c, d, 0) == c && Ray(c, d, 1) == c.Add(d)
  {
  }

  /** One more step along a ray is the source's `p = p + dir`. */
  lemma RayNext(c: Point, d: Point, k: nat)
    requires IsDirection(d)
    ensures Ray(c, d, k).Add(d) == Ray(c, d, k + 1)
  {
  }

  /** From a cell on the board, a ray leaves the board within eight steps. */
  lemma RayBound(c: Point, d: Point, k: nat)
    requires OnBoard(c) && IsDirection(d) && OnBoard(Ray(c, d, k))
    ensures k < SIZE
  {
  }

  /** A ray never visits the same cell twice. */
  lemma RayInjective(c: Point, d: Point, k1: nat, k2: nat)
    requires IsDirection(d) && Ray(c, d, k1) == Ray(c, d, k2)
    ensures k1 == k2
  {
  }

  /** Two rays from the same centre only meet at the centre. */
  lemma RaysDisjoint(c: Point, d1: Point, k1: nat, d2: Point, k2: nat)
    requires IsDirection(d1) && IsDirection(d2) && 1 <= k1 && 1 <= k2
    requires Ray(c, d1, k1) == Ray(c, d2, k2)
    ensures d1 == d2 && k1 == k2
  {
  }

  /** The eight scan directions are pairwise different. */
  lemma DirectionsDistinct(t1: int, t2: int)
    requires 0 <= t1 < 8 && 0 <= t2 < 8 && t1 != t2
    ensures Dir(t1) != Dir(t2)
  {
  }
}
