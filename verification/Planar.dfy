/** Plane geometry over exact numbers, shared by the line and sampling kernels. */
module Planar {

  datatype Point = Point(x: real, y: real)

  /** The point at parameter `t` of the segment from `a` (t = 0) to `b` (t = 1). */
  function Along(a: Point, b: Point, t: real): Point {
    Point(a.x + t * (b.x - a.x), a.y + t * (b.y - a.y))
  }

  function Square(v: real): real { v * v }

  lemma PositiveProduct(a: real, b: real, product: real)
    requires product == a * b
    requires (a > 0.0 && b > 0.0) || (a < 0.0 && b < 0.0)
    ensures product > 0.0
  { }

  /** The square `s` of `v` is positive, unless `v` is zero. */
  lemma SquarePositive(v: real, s: real)
    requires s == v * v
    ensures s >= 0.0
    ensures v != 0.0 ==> s > 0.0
  {
    if v != 0.0 {
      PositiveProduct(v, v, s);
    }
  }

  function Dist2(p: Point, q: Point): real {
    Square(p.x - q.x) + Square(p.y - q.y)
  }

  ghost predicate OnSegment(p: Point, a: Point, b: Point) {
    exists t: real :: 0.0 <= t <= 1.0 && p == Along(a, b, t)
  }

  /** `p` is a point of the open polyline through `points`. */
  ghost predicate OnPolyline(p: Point, points: seq<Point>) {
    exists i: nat :: i + 1 < |points| && OnSegment(p, points[i], points[i + 1])
  }

  /** The pairs of consecutive elements of a line. */
  function Edges<T>(line: seq<T>): (edges: seq<(T, T)>)
    ensures |edges| == if |line| == 0 then 0 else |line| - 1
    ensures forall i :: 0 <= i < |edges| ==> edges[i] == (line[i], line[i + 1])
  {
    if line == [] then [] else
    seq(|line| - 1, i requires 0 <= i < |line| - 1 => (line[i], line[i + 1]))
  }

  /** The pairs of consecutive elements of all lines, line after line. */
  function AllEdges<T>(lines: seq<seq<T>>): seq<(T, T)> {
    if lines == [] then [] else AllEdges(lines[..|lines| - 1]) + Edges(lines[|lines| - 1])
  }

  lemma EdgesGrow<T>(line: seq<T>, p: T)
    requires line != []
    ensures Edges(line + [p]) == Edges(line) + [(line[|line| - 1], p)]
  { }

  /** The elements of `source` at the positions `positions`, in that order. */
  function Select<T>(source: seq<T>, positions: seq<nat>): (picked: seq<T>)
    requires forall m :: 0 <= m < |positions| ==> positions[m] < |source|
    ensures |picked| == |positions|
    ensures forall m :: 0 <= m < |positions| ==> picked[m] == source[positions[m]]
  {
    seq(|positions|, m requires 0 <= m < |positions| => source[positions[m]])
  }

  ghost predicate Ascending(positions: seq<nat>) {
    forall a, b :: 0 <= a < b < |positions| ==> positions[a] < positions[b]
  }

  ghost predicate InRange(positions: seq<nat>, n: nat) { forall k :: 0 <= k < |positions| ==> positions[k] < n }

  ghost predicate Distinct(positions: seq<nat>) {
    forall a, b :: 0 <= a < b < |positions| ==> positions[a] != positions[b]
  }

  ghost function Elements(positions: seq<nat>): set<nat> { set i | i in positions }

  lemma AllEdgesSnoc<T>(front: seq<seq<T>>, last: seq<T>)
    ensures AllEdges(front + [last]) == AllEdges(front) + Edges(last)
  {
    assert (front + [last])[..|front|] == front;
  }
}
