/**
 Line simplification of the hydrography layer: an explicit-stack Douglas-Peucker that keeps the
 first farthest vertex of each open segment.
 */
module LineSimplification {
  import opened Options
  import opened Planar

  function Minus(p: Point, q: Point): Point { Point(p.x - q.x, p.y - q.y) }

  function Dot(u: Point, v: Point): real { u.x * v.x + u.y * v.y }

  /** Parameter of the point of the segment from the origin to `d` that the distance of `v` is
      measured to: the projection, clamped to the segment; 0 when the segment is a point. */
  function FootParameter(v: Point, d: Point): real {
    var denom := Dot(d, d);
    if denom == 0.0 then 0.0 else
    var t := Dot(v, d) / denom;
    if t < 0.0 then 0.0 else if t > 1.0 then 1.0 else t
  }

  function Gap2(v: Point, d: Point, t: real): real {
    Square(v.x - t * d.x) + Square(v.y - t * d.y)
  }

  /** Squared distance from `p` to segment `a`-`b`, as the scan computes it. */
  function SegmentDist2(p: Point, a: Point, b: Point): real {
    var v, d := Minus(p, a), Minus(b, a);
    Gap2(v, d, FootParameter(v, d))
  }

  ghost predicate WithinSegment(p: Point, a: Point, b: Point, tolerance2: real) {
    exists s: real :: 0.0 <= s <= 1.0 && Dist2(p, Along(a, b, s)) <= tolerance2
  }

  function Parabola(c: real, d: real, s: real): real {
    s * s * d - 2.0 * (s * c)
  }

  lemma SquareOfGap(p: real, d: real, s: real)
    ensures Square(p - s * d) == p * p + Parabola(p * d, d * d, s)
  {
    var u := s * d;
    assert Square(p - u) == p * p - 2.0 * (p * u) + u * u;
    assert p * u == s * (p * d);
    assert u * u == s * s * (d * d);
  }

  lemma ParabolaAdds(c: real, d: real, c': real, d': real, s: real)
    ensures Parabola(c + c', d + d', s) == Parabola(c, d, s) + Parabola(c', d', s)
  { }

  /** As the point moves along the segment, the squared distance is a parabola. */
  lemma GapExpansion(v: Point, d: Point, s: real)
    ensures Gap2(v, d, s) == Dot(v, v) + Parabola(Dot(v, d), Dot(d, d), s)
  {
    SquareOfGap(v.x, d.x, s);
    SquareOfGap(v.y, d.y, s);
    ParabolaAdds(v.x * d.x, d.x * d.x, v.y * d.y, d.y * d.y, s);
  }

  /** Where the clamp puts the parameter of a parabola over [0, 1]. */
  ghost predicate Clamped(c: real, d: real, t: real) {
    || (d == 0.0 && c == 0.0 && t == 0.0)
    || (d > 0.0 && t * d == c)
    || (d > 0.0 && c <= 0.0 && t == 0.0)
    || (d > 0.0 && c >= d && t == 1.0)
  }

  /** A parabola with leading coefficient `d >= 0` is least over [0, 1] at the clamped vertex. */
  lemma ClampMinimizes(c: real, d: real, t: real, s: real)
    requires 0.0 <= s <= 1.0 && Clamped(c, d, t)
    ensures Parabola(c, d, t) <= Parabola(c, d, s)
  {
    if d > 0.0 {
      if t * d == c {
        AtVertex(c, d, t, s);
      } else if t == 0.0 {
        assert s * c <= 0.0;
        assert s * s * d >= 0.0;
      } else {
        BelowVertex(c, d, s);
      }
    }
  }

  lemma AtVertex(c: real, d: real, t: real, s: real)
    requires d > 0.0 && t * d == c
    ensures Parabola(c, d, t) <= Parabola(c, d, s)
  {
    assert s * c == (s * t) * d;
    assert t * c == (t * t) * d;
    var square := (s - t) * (s - t);
    assert square == s * s - 2.0 * (s * t) + t * t;
    assert square * d == (s * s) * d - 2.0 * ((s * t) * d) + (t * t) * d;
    assert square >= 0.0;
    assert square * d >= 0.0;
  }

  lemma BelowVertex(c: real, d: real, s: real)
    requires 0.0 <= s <= 1.0 && c >= d > 0.0
    ensures Parabola(c, d, 1.0) <= Parabola(c, d, s)
  {
    var gap := 1.0 - s;
    assert gap * c >= gap * d;
    assert gap * c == c - s * c;
    assert gap * d == d - s * d;
    assert gap * gap >= 0.0;
    var bend := gap * gap * d;
    assert bend >= 0.0;
    assert gap * gap == 1.0 - 2.0 * s + s * s;
    assert bend == d - 2.0 * (s * d) + s * s * d;
  }

  lemma SumOfSquares(x: real, y: real, u: real, v: real)
    requires u == x * x && v == y * y
    ensures u + v >= 0.0
    ensures u + v == 0.0 ==> x == 0.0 && y == 0.0
  {
    SquarePositive(x, u);
    SquarePositive(y, v);
  }

  lemma DotZero(u: Point, d: Point)
    ensures Dot(d, d) >= 0.0
    ensures Dot(d, d) == 0.0 ==> Dot(u, d) == 0.0
  {
    SumOfSquares(d.x, d.y, d.x * d.x, d.y * d.y);
    if d.x == 0.0 && d.y == 0.0 {
      assert d == Point(0.0, 0.0);
    }
  }

  lemma ClampCases(c: real, d: real)
    requires d > 0.0
    ensures var t := c / d;
            t * d == c && (t < 0.0 ==> c <= 0.0) && (t > 1.0 ==> c >= d)
  {
    var t := c / d;
    assert t * d == c;
    if t < 0.0 { assert t * d <= 0.0; }
    if t > 1.0 { assert (t - 1.0) * d >= 0.0; }
  }

  lemma FootClamped(v: Point, d: Point)
    ensures 0.0 <= FootParameter(v, d) <= 1.0
    ensures Clamped(Dot(v, d), Dot(d, d), FootParameter(v, d))
  {
    DotZero(v, d);
    if Dot(d, d) != 0.0 {
      ClampCases(Dot(v, d), Dot(d, d));
    }
  }

  lemma GapLeast(v: Point, d: Point, s: real)
    requires 0.0 <= s <= 1.0
    ensures Gap2(v, d, FootParameter(v, d)) <= Gap2(v, d, s)
  {
    FootClamped(v, d);
    ClampMinimizes(Dot(v, d), Dot(d, d), FootParameter(v, d), s);
    GapExpansion(v, d, s);
    GapExpansion(v, d, FootParameter(v, d));
  }

  lemma Dist2Along(p: Point, a: Point, b: Point, s: real)
    ensures Dist2(p, Along(a, b, s)) == Gap2(Minus(p, a), Minus(b, a), s)
  {
    assert p.x - Along(a, b, s).x == Minus(p, a).x - s * Minus(b, a).x;
    assert p.y - Along(a, b, s).y == Minus(p, a).y - s * Minus(b, a).y;
  }

  /** The scan's distance is the distance to the nearest point of the segment, also when `a == b`. */
  lemma SegmentDist2IsLeast(p: Point, a: Point, b: Point, s: real)
    requires 0.0 <= s <= 1.0
    ensures SegmentDist2(p, a, b) <= Dist2(p, Along(a, b, s))
  {
    GapLeast(Minus(p, a), Minus(b, a), s);
    Dist2Along(p, a, b, s);
  }

  lemma SegmentDist2Meaning(p: Point, a: Point, b: Point, tolerance2: real)
    ensures SegmentDist2(p, a, b) <= tolerance2 <==> WithinSegment(p, a, b, tolerance2)
  {
    var t := FootParameter(Minus(p, a), Minus(b, a));
    FootClamped(Minus(p, a), Minus(b, a));
    Dist2Along(p, a, b, t);
    forall s: real | 0.0 <= s <= 1.0 && Dist2(p, Along(a, b, s)) <= tolerance2
      ensures SegmentDist2(p, a, b) <= tolerance2
    {
      SegmentDist2IsLeast(p, a, b, s);
    }
  }

  /** Squared distance of vertex `i` from the segment joining vertices `s` and `e`. */
  function Offset(points: seq<Point>, s: nat, e: nat, i: nat): real
    requires s < |points| && e < |points| && i < |points|
  {
    SegmentDist2(points[i], points[s], points[e])
  }

  /** `k` is the first of the vertices strictly between `s` and `hi` that lies farthest away,
      and it is beyond the tolerance. */
  ghost predicate FirstFarthest(points: seq<Point>, s: nat, e: nat, hi: nat, tolerance2: real, k: nat)
    requires s < |points| && e < |points| && hi <= |points|
  {
    && s < k < hi
    && Offset(points, s, e, k) > tolerance2
    && (forall i: nat :: s < i < k ==> Offset(points, s, e, i) < Offset(points, s, e, k))
    && (forall i: nat :: k < i < hi ==> Offset(points, s, e, i) <= Offset(points, s, e, k))
  }

  ghost predicate AllWithin(points: seq<Point>, s: nat, e: nat, hi: nat, tolerance2: real)
    requires s < |points| && e < |points| && hi <= |points|
  {
    forall i: nat :: s < i < hi ==> Offset(points, s, e, i) <= tolerance2
  }

  /** The split vertex found by scanning the vertices strictly between `s` and `hi`. */
  function Split(points: seq<Point>, s: nat, e: nat, hi: nat, tolerance2: real): (split: Option<nat>)
    requires s < |points| && e < |points| && hi <= |points|
    ensures split.None? ==> AllWithin(points, s, e, hi, tolerance2)
    ensures split.Some? ==> FirstFarthest(points, s, e, hi, tolerance2, split.value)
    decreases hi
  {
    if hi <= s + 1 then None else
    var before := Split(points, s, e, hi - 1, tolerance2);
    var greatest := if before.None? then tolerance2 else Offset(points, s, e, before.value);
    if Offset(points, s, e, hi - 1) > greatest then Some(hi - 1) else before
  }

  lemma SplitIsUnique(points: seq<Point>, s: nat, e: nat, hi: nat, tolerance2: real, k: nat)
    requires s < |points| && e < |points| && hi <= |points|
    requires FirstFarthest(points, s, e, hi, tolerance2, k)
    ensures Split(points, s, e, hi, tolerance2) == Some(k)
  {
    assert Offset(points, s, e, k) > tolerance2;
  }

  /** Vertices kept strictly between `s` and `e`, in order. */
  function Interior(points: seq<Point>, s: nat, e: nat, tolerance2: real): (kept: seq<nat>)
    requires s < e < |points|
    ensures forall m :: 0 <= m < |kept| ==> s < kept[m] < e
    decreases e - s
  {
    match Split(points, s, e, e, tolerance2)
    case None => []
    case Some(k) =>
      Interior(points, s, k, tolerance2) + [k] + Interior(points, k, e, tolerance2)
  }

  /** All kept vertices of a line, for a squared tolerance. */
  function KeptAt(points: seq<Point>, tolerance2: real): (kept: seq<nat>)
    ensures forall m :: 0 <= m < |kept| ==> kept[m] < |points|
    ensures |points| > 0 ==> |kept| > 0 && kept[0] == 0 && kept[|kept| - 1] == |points| - 1
    ensures |points| >= 2 ==> |kept| >= 2
  {
    var n := |points|;
    if n < 3 then seq(n, i => i)
    else [0] + Interior(points, 0, n - 1, tolerance2) + [n - 1]
  }

  function Kept(points: seq<Point>, tolerance: real): (kept: seq<nat>)
    ensures forall m :: 0 <= m < |kept| ==> kept[m] < |points|
  {
    KeptAt(points, tolerance * tolerance)
  }

  lemma {:induction false} InteriorAscending(points: seq<Point>, s: nat, e: nat, tolerance2: real)
    requires s < e < |points|
    ensures Ascending(Interior(points, s, e, tolerance2))
    decreases e - s
  {
    match Split(points, s, e, e, tolerance2)
    case None =>
    case Some(k) =>
      InteriorAscending(points, s, k, tolerance2);
      InteriorAscending(points, k, e, tolerance2);
  }

  lemma FramedAscending(inner: seq<nat>, s: nat, e: nat)
    requires s < e && Ascending(inner) && forall m :: 0 <= m < |inner| ==> s < inner[m] < e
    ensures Ascending([s] + inner + [e])
  { }

  /** The kept vertices keep their order. */
  lemma KeptAscending(points: seq<Point>, tolerance2: real)
    ensures Ascending(KeptAt(points, tolerance2))
  {
    if |points| >= 3 {
      InteriorAscending(points, 0, |points| - 1, tolerance2);
      FramedAscending(Interior(points, 0, |points| - 1, tolerance2), 0, |points| - 1);
    }
  }

  function SimplifiedAt(points: seq<Point>, tolerance2: real): seq<Point> {
    Select(points, KeptAt(points, tolerance2))
  }

  /** The vertices kept at `tolerance`. */
  function Simplified(points: seq<Point>, tolerance: real): seq<Point> {
    Select(points, Kept(points, tolerance))
  }

  /** Vertex `k` is the first of those farthest from a segment between two kept vertices around it, and
      is not within the tolerance of that segment. */
  ghost predicate Needed(points: seq<Point>, kept: seq<nat>, k: nat, tolerance2: real) {
    exists s: nat, e: nat ::
      && s in kept && e in kept && s < k < e < |points|
      && FirstFarthest(points, s, e, e, tolerance2, k)
      && !WithinSegment(points[k], points[s], points[e], tolerance2)
  }

  /** The ends are kept; a vertex between two neighbours is dropped because it is within the tolerance of
      the segment that joins them; a vertex inside is kept because it is needed. */
  ghost predicate Justified(points: seq<Point>, kept: seq<nat>, tolerance: real) {
    && Ascending(kept) && InRange(kept, |points|)
    && (points != [] ==> kept != [] && kept[0] == 0 && kept[|kept| - 1] == |points| - 1)
    && (forall m: nat, i: nat :: m + 1 < |kept| && kept[m] < i < kept[m + 1] ==>
          WithinSegment(points[i], points[kept[m]], points[kept[m + 1]], tolerance * tolerance))
    && (forall k: nat :: k in kept && 0 < k < |points| - 1 ==> Needed(points, kept, k, tolerance * tolerance))
  }

  // ---------------------------------------------------------------------------------------------
  // The explicit-stack loop
  // ---------------------------------------------------------------------------------------------

  type Span = (nat, nat)

  ghost predicate SpansIn(stack: seq<Span>, n: nat) {
    forall m :: 0 <= m < |stack| ==> stack[m].0 < stack[m].1 < n
  }

  /** Vertices that the spans still on the stack will add. */
  ghost function Outstanding(points: seq<Point>, stack: seq<Span>, tolerance2: real): set<nat>
    requires SpansIn(stack, |points|)
  {
    if stack == [] then {} else
    var (s, e) := stack[|stack| - 1];
    Outstanding(points, stack[..|stack| - 1], tolerance2) + Elements(Interior(points, s, e, tolerance2))
  }

  /** Twice the length less one, summed over the stack: every iteration lowers it. */
  ghost function Work(stack: seq<Span>): (work: nat)
    requires forall m :: 0 <= m < |stack| ==> stack[m].0 < stack[m].1
  {
    if stack == [] then 0 else
    var (s, e) := stack[|stack| - 1];
    Work(stack[..|stack| - 1]) + 2 * (e - s) - 1
  }

  lemma ElementsOfThree(a: seq<nat>, b: seq<nat>, c: seq<nat>)
    ensures Elements(a + b + c) == Elements(a) + Elements(b) + Elements(c)
  { }

  lemma PushOne(points: seq<Point>, a: Span, tolerance2: real)
    requires a.0 < a.1 < |points|
    ensures Outstanding(points, [a], tolerance2) == Elements(Interior(points, a.0, a.1, tolerance2))
  {
    assert [a][..0] == [];
  }

  lemma PushTwo(points: seq<Point>, stack: seq<Span>, a: Span, b: Span, tolerance2: real)
    requires SpansIn(stack, |points|)
    requires a.0 < a.1 < |points| && b.0 < b.1 < |points|
    ensures var next := stack + [a, b];
            && SpansIn(next, |points|)
            && Work(next) == Work(stack) + 2 * (a.1 - a.0) - 1 + 2 * (b.1 - b.0) - 1
            && Outstanding(points, next, tolerance2) == Outstanding(points, stack, tolerance2)
                 + Elements(Interior(points, a.0, a.1, tolerance2))
                 + Elements(Interior(points, b.0, b.1, tolerance2))
  {
    var one, both := stack + [a], stack + [a, b];
    assert both[..|both| - 1] == one;
    assert one[..|one| - 1] == stack;
  }

  /** Popping a span and pushing its halves leaves the outstanding vertices as they were,
      apart from the split itself. */
  lemma SplitStep(points: seq<Point>, rest: seq<Span>, s: nat, e: nat, tolerance2: real, k: nat)
    requires SpansIn(rest, |points|) && s < e < |points|
    requires Split(points, s, e, e, tolerance2) == Some(k)
    ensures var next := rest + [(s, k), (k, e)];
            && SpansIn(next, |points|)
            && Outstanding(points, rest, tolerance2) + Elements(Interior(points, s, e, tolerance2))
                 == {k} + Outstanding(points, next, tolerance2)
            && Work(next) < Work(rest) + 2 * (e - s) - 1
  {
    PushTwo(points, rest, (s, k), (k, e), tolerance2);
    var left, right := Interior(points, s, k, tolerance2), Interior(points, k, e, tolerance2);
    assert Interior(points, s, e, tolerance2) == left + [k] + right;
    ElementsOfThree(left, [k], right);
  }

  /** The vertices kept so far and those still to come are the vertices to keep. */
  ghost predicate Accounted(points: seq<Point>, keep: set<nat>, stack: seq<Span>, tolerance2: real)
    requires SpansIn(stack, |points|)
  {
    keep + Outstanding(points, stack, tolerance2) == Elements(KeptAt(points, tolerance2))
  }

  lemma StackStart(points: seq<Point>, tolerance2: real)
    requires |points| >= 3
    ensures SpansIn([(0, |points| - 1)], |points|)
    ensures Accounted(points, {0, |points| - 1}, [(0, |points| - 1)], tolerance2)
  {
    var last := |points| - 1;
    ElementsOfThree([0], Interior(points, 0, last, tolerance2), [last]);
    PushOne(points, (0, last), tolerance2);
  }

  lemma StackStep(points: seq<Point>, keep: set<nat>, stack: seq<Span>, tolerance2: real)
    requires SpansIn(stack, |points|) && stack != [] && Accounted(points, keep, stack, tolerance2)
    ensures var rest := stack[..|stack| - 1];
            var (s, e) := stack[|stack| - 1];
            match Split(points, s, e, e, tolerance2)
            case None => Accounted(points, keep, rest, tolerance2) && Work(rest) < Work(stack)
            case Some(k) =>
              var next := rest + [(s, k), (k, e)];
              SpansIn(next, |points|) && Accounted(points, keep + {k}, next, tolerance2) && Work(next) < Work(stack)
  {
    var rest := stack[..|stack| - 1];
    var (s, e) := stack[|stack| - 1];
    match Split(points, s, e, e, tolerance2)
    case None => NoElements(Interior(points, s, e, tolerance2));
    case Some(k) => SplitStep(points, rest, s, e, tolerance2, k);
  }

  lemma {:induction false} AscendingIsDetermined(a: seq<nat>, b: seq<nat>)
    requires Ascending(a) && Ascending(b)
    requires Elements(a) == Elements(b)
    ensures a == b
  {
    NoElements(a);
    NoElements(b);
    if a != [] {
      LastIsGreatest(a);
      LastIsGreatest(b);
      var x, y := a[|a| - 1], b[|b| - 1];
      assert x in Elements(b) && y in Elements(a);
      AscendingIsDetermined(a[..|a| - 1], b[..|b| - 1]);
      assert a == a[..|a| - 1] + [x] && b == b[..|b| - 1] + [y];
    }
  }

  lemma NoElements(a: seq<nat>)
    ensures a == [] <==> Elements(a) == {}
  {
    if a != [] { assert a[0] in Elements(a); }
  }

  lemma LastIsGreatest(a: seq<nat>)
    requires Ascending(a) && a != []
    ensures forall i :: i in Elements(a) ==> i <= a[|a| - 1]
    ensures Ascending(a[..|a| - 1])
    ensures Elements(a[..|a| - 1]) == Elements(a) - {a[|a| - 1]}
  {
    assert a == a[..|a| - 1] + [a[|a| - 1]];
  }

  /** The points at the positions in `keep`, in index order. */
  method PickSorted(points: seq<Point>, keep: set<nat>, ghost kept: seq<nat>) returns (line: seq<Point>)
    requires Ascending(kept) && forall m :: 0 <= m < |kept| ==> kept[m] < |points|
    requires keep == Elements(kept)
    ensures line == Select(points, kept)
  {
    line := [];
    ghost var taken: seq<nat> := [];
    for i := 0 to |points|
      invariant Ascending(taken) && forall j :: j in taken <==> j in keep && j < i
      invariant forall m :: 0 <= m < |taken| ==> taken[m] < i
      invariant line == Select(points, taken)
    {
      if i in keep {
        line := line + [points[i]];
        taken := taken + [i];
      }
    }
    assert Elements(taken) == keep;
    AscendingIsDetermined(taken, kept);
  }

  method SimplifyLine(points: seq<Point>, tolerance: real) returns (line: seq<Point>)
    ensures line == Simplified(points, tolerance)
    ensures Justified(points, Kept(points, tolerance), tolerance) && line == Select(points, Kept(points, tolerance))
    ensures |points| >= 2 ==> (line == [points[0], points[|points| - 1]] <==> ChordSuffices(points, tolerance))
  {
    KeptIsJustified(points, tolerance);
    if |points| >= 2 { TwoEndsExactly(points, tolerance); }
    if |points| < 3 {
      assert points == Simplified(points, tolerance);
      return points;
    }
    line := SimplifyLong(points, tolerance * tolerance);
  }

  method SimplifyLong(points: seq<Point>, tolerance2: real) returns (line: seq<Point>)
    requires |points| >= 3
    ensures line == SimplifiedAt(points, tolerance2)
  {
    var last := |points| - 1;
    var keep: set<nat> := {0, last};
    var stack: seq<Span> := [(0, last)];
    StackStart(points, tolerance2);
    while stack != []
      invariant SpansIn(stack, |points|)
      invariant Accounted(points, keep, stack, tolerance2)
      decreases Work(stack)
    {
      var (start, end) := stack[|stack| - 1];
      StackStep(points, keep, stack, tolerance2);
      stack := stack[..|stack| - 1];
      var split := FindSplit(points, start, end, tolerance2);
      if split.Some? {
        keep := keep + {split.value};
        stack := stack + [(start, split.value), (split.value, end)];
      }
    }
    KeptAscending(points, tolerance2);
    line := PickSorted(points, keep, KeptAt(points, tolerance2));
  }

  /** The scan of one span: the first vertex farthest beyond the tolerance. */
  method FindSplit(points: seq<Point>, start: nat, end: nat, tolerance2: real) returns (split: Option<nat>)
    requires start < end < |points|
    ensures split == Split(points, start, end, end, tolerance2)
  {
    var greatest := tolerance2;
    split := None;
    for i := start + 1 to end
      invariant split == Split(points, start, end, i, tolerance2)
      invariant greatest == if split.None? then tolerance2 else Offset(points, start, end, split.value)
    {
      var distance := SegmentDist2(points[i], points[start], points[end]);
      if distance > greatest {
        greatest, split := distance, Some(i);
      }
    }
  }

  // ---------------------------------------------------------------------------------------------
  // What the kept vertices mean
  // ---------------------------------------------------------------------------------------------

  /** No vertex strictly between two neighbours `[s] + Interior + [e]` is beyond the tolerance. */
  lemma {:induction false} DroppedWithinSpan(points: seq<Point>, s: nat, e: nat, tolerance2: real, m: nat, i: nat)
    requires s < e < |points|
    requires var span := [s] + Interior(points, s, e, tolerance2) + [e];
             m + 1 < |span| && span[m] < i < span[m + 1]
    ensures var span := [s] + Interior(points, s, e, tolerance2) + [e];
            Offset(points, span[m], span[m + 1], i) <= tolerance2
    decreases e - s
  {
    match Split(points, s, e, e, tolerance2)
    case None =>
    case Some(k) =>
      var left := [s] + Interior(points, s, k, tolerance2) + [k];
      var right := [k] + Interior(points, k, e, tolerance2) + [e];
      var span := [s] + Interior(points, s, e, tolerance2) + [e];
      assert span == left + right[1..];
      var cut := |left| - 1;
      assert span[cut] == k;
      if m < cut {
        assert span[m] == left[m] && span[m + 1] == left[m + 1];
        DroppedWithinSpan(points, s, k, tolerance2, m, i);
      } else {
        assert span[m] == right[m - cut] && span[m + 1] == right[m - cut + 1];
        DroppedWithinSpan(points, k, e, tolerance2, m - cut, i);
      }
  }

  /** Every dropped vertex is within the tolerance of the segment joining the two kept vertices
      next to it. */
  lemma DroppedWithinTolerance(points: seq<Point>, tolerance: real, m: nat, i: nat)
    requires m + 1 < |Kept(points, tolerance)|
    requires Kept(points, tolerance)[m] < i < Kept(points, tolerance)[m + 1]
    ensures var kept := Kept(points, tolerance);
            WithinSegment(points[i], points[kept[m]], points[kept[m + 1]], tolerance * tolerance)
  {
    DroppedWithin(points, tolerance * tolerance, m, i);
  }

  lemma DroppedWithin(points: seq<Point>, tolerance2: real, m: nat, i: nat)
    requires m + 1 < |KeptAt(points, tolerance2)|
    requires KeptAt(points, tolerance2)[m] < i < KeptAt(points, tolerance2)[m + 1]
    ensures var kept := KeptAt(points, tolerance2);
            WithinSegment(points[i], points[kept[m]], points[kept[m + 1]], tolerance2)
  {
    var kept := KeptAt(points, tolerance2);
    DroppedWithinSpan(points, 0, |points| - 1, tolerance2, m, i);
    SegmentDist2Meaning(points[i], points[kept[m]], points[kept[m + 1]], tolerance2);
  }

  lemma {:induction false} InteriorNeeded(
    points: seq<Point>, s: nat, e: nat, tolerance2: real, kept: seq<nat>, k: nat)
    requires s < e < |points| && s in kept && e in kept
    requires forall i :: i in Interior(points, s, e, tolerance2) ==> i in kept
    requires k in Interior(points, s, e, tolerance2)
    ensures Needed(points, kept, k, tolerance2)
    decreases e - s
  {
    var split := Split(points, s, e, e, tolerance2).value;
    if k == split {
      SegmentDist2Meaning(points[k], points[s], points[e], tolerance2);
    } else {
      var left, right := Interior(points, s, split, tolerance2), Interior(points, split, e, tolerance2);
      assert Interior(points, s, e, tolerance2) == left + [split] + right;
      assert forall i :: i in left || i in right || i == split ==> i in left + [split] + right;
      if k in left {
        InteriorNeeded(points, s, split, tolerance2, kept, k);
      } else {
        InteriorNeeded(points, split, e, tolerance2, kept, k);
      }
    }
  }

  lemma KeptNeeded(points: seq<Point>, tolerance2: real, k: nat)
    requires k in KeptAt(points, tolerance2) && 0 < k < |points| - 1
    ensures Needed(points, KeptAt(points, tolerance2), k, tolerance2)
  {
    var last, kept := |points| - 1, KeptAt(points, tolerance2);
    KeptShape(points, tolerance2);
    assert kept[0] in kept && kept[|kept| - 1] in kept;
    InteriorNeeded(points, 0, last, tolerance2, kept, k);
  }

  /** Every vertex is kept or dropped for its reason. */
  lemma KeptIsJustified(points: seq<Point>, tolerance: real)
    ensures Justified(points, Kept(points, tolerance), tolerance)
  {
    var kept := Kept(points, tolerance);
    KeptAscending(points, tolerance * tolerance);
    forall m: nat, i: nat | m + 1 < |kept| && kept[m] < i < kept[m + 1]
      ensures WithinSegment(points[i], points[kept[m]], points[kept[m + 1]], tolerance * tolerance)
    {
      DroppedWithinTolerance(points, tolerance, m, i);
    }
    forall k: nat | k in kept && 0 < k < |points| - 1 ensures Needed(points, kept, k, tolerance * tolerance) {
      KeptNeeded(points, tolerance * tolerance, k);
    }
  }

  /** All vertices are within the tolerance of the segment that joins the ends. */
  ghost predicate ChordSuffices(points: seq<Point>, tolerance: real)
    requires |points| >= 2
  {
    forall i: nat :: 0 < i < |points| - 1 ==>
      WithinSegment(points[i], points[0], points[|points| - 1], tolerance * tolerance)
  }

  /** A line is reduced to its two ends exactly when nothing on it leaves their segment. */
  lemma TwoEndsExactly(points: seq<Point>, tolerance: real)
    requires |points| >= 2
    ensures Simplified(points, tolerance) == [points[0], points[|points| - 1]] <==> ChordSuffices(points, tolerance)
  {
    var last, tolerance2 := |points| - 1, tolerance * tolerance;
    KeptShape(points, tolerance2);
    forall i: nat | 0 < i < last
      ensures Offset(points, 0, last, i) <= tolerance2 <==>
              WithinSegment(points[i], points[0], points[last], tolerance2)
    {
      SegmentDist2Meaning(points[i], points[0], points[last], tolerance2);
    }
    match Split(points, 0, last, last, tolerance2)
    case None => assert Kept(points, tolerance) == [0, last];
    case Some(k) => assert |Kept(points, tolerance)| > 2;
  }

  lemma {:induction false} InteriorNested(points: seq<Point>, s: nat, e: nat, small: real, large: real, i: nat)
    requires s < e < |points| && small <= large
    requires i in Interior(points, s, e, large)
    ensures i in Interior(points, s, e, small)
    decreases e - s
  {
    var k := Split(points, s, e, e, large).value;
    SplitIsUnique(points, s, e, e, small, k);
    if i in Interior(points, s, k, large) {
      InteriorNested(points, s, k, small, large, i);
    } else if i in Interior(points, k, e, large) {
      InteriorNested(points, k, e, small, large, i);
    }
  }

  /** A larger tolerance keeps a subset of the vertices a smaller one keeps. */
  lemma KeptNested(points: seq<Point>, small2: real, large2: real, i: nat)
    requires small2 <= large2
    requires i in KeptAt(points, large2)
    ensures i in KeptAt(points, small2)
  {
    var last := |points| - 1;
    if |points| >= 3 {
      var kept, inner := KeptAt(points, small2), Interior(points, 0, last, small2);
      assert kept[0] == 0 && kept[|kept| - 1] == last;
      if i != 0 && i != last {
        assert i in Interior(points, 0, last, large2);
        InteriorNested(points, 0, last, small2, large2, i);
        assert i in inner;
      }
    }
  }

  /** Positions `i..j` of the kept vertices hold exactly the span from `s` to `e`. */
  ghost predicate Holds(points: seq<Point>, kept: seq<nat>, i: nat, j: nat, s: nat, e: nat, small: real)
    requires s < e < |points|
  {
    && i < j < |kept|
    && kept[i..j + 1] == [s] + Interior(points, s, e, small) + [e]
  }

  lemma HoldsHalves(points: seq<Point>, kept: seq<nat>, i: nat, j: nat, s: nat, e: nat, small: real, k: nat)
    returns (m: nat)
    requires s < e < |points| && Holds(points, kept, i, j, s, e, small)
    requires Split(points, s, e, e, small) == Some(k)
    ensures i < m < j && kept[m] == k
    ensures Holds(points, kept, i, m, s, k, small) && Holds(points, kept, m, j, k, e, small)
  {
    var left, right := Interior(points, s, k, small), Interior(points, k, e, small);
    m := i + 1 + |left|;
    Halves(kept[i..j + 1], [s] + left, k, right + [e]);
    assert kept[i..m + 1] == kept[i..j + 1][..m + 1 - i];
    assert kept[m..j + 1] == kept[i..j + 1][m - i..];
  }

  lemma Halves(span: seq<nat>, left: seq<nat>, k: nat, right: seq<nat>)
    requires span == left + [k] + right
    ensures span[|left|] == k && span[..|left| + 1] == left + [k] && span[|left|..] == [k] + right
  { }

  /** Within the kept line, the span `i..j` splits at `m` exactly when the full line splits at
      the vertex kept at `m`. */
  lemma SplitOfKept(points: seq<Point>, kept: seq<nat>, i: nat, j: nat, s: nat, e: nat, small: real, large: real)
    requires Ascending(kept) && forall a :: 0 <= a < |kept| ==> kept[a] < |points|
    requires s < e < |points| && small <= large
    requires Holds(points, kept, i, j, s, e, small) && kept[i] == s && kept[j] == e
    ensures var line := Select(points, kept);
            var inKept := Split(line, i, j, j, large);
            var inFull := Split(points, s, e, e, large);
            && (inKept.None? <==> inFull.None?)
            && (inKept.Some? ==> inKept.value < j && kept[inKept.value] == inFull.value)
  {
    var line := Select(points, kept);
    forall a: nat | a < |kept| ensures Offset(line, i, j, a) == Offset(points, s, e, kept[a]) { }
    match Split(points, s, e, e, large)
    case None =>
      forall a: nat | i < a < j ensures Offset(line, i, j, a) <= large {
        assert s < kept[a] < e;
      }
    case Some(k) =>
      SplitIsUnique(points, s, e, e, small, k);
      var m := HoldsHalves(points, kept, i, j, s, e, small, k);
      forall a: nat | i < a < m ensures Offset(line, i, j, a) < Offset(line, i, j, m) {
        assert s < kept[a] < k;
      }
      forall a: nat | m < a < j ensures Offset(line, i, j, a) <= Offset(line, i, j, m) {
        assert k < kept[a] < e;
      }
      assert FirstFarthest(line, i, j, j, large, m);
      SplitIsUnique(line, i, j, j, large, m);
  }

  lemma SelectJoin(kept: seq<nat>, left: seq<nat>, m: nat, right: seq<nat>)
    requires m < |kept|
    requires forall a :: 0 <= a < |left| ==> left[a] < |kept|
    requires forall a :: 0 <= a < |right| ==> right[a] < |kept|
    ensures Select(kept, left + [m] + right) == Select(kept, left) + [kept[m]] + Select(kept, right)
  { }

  lemma {:induction false} InteriorOfKept(
    points: seq<Point>, kept: seq<nat>, i: nat, j: nat, s: nat, e: nat, small: real, large: real)
    requires Ascending(kept) && forall a :: 0 <= a < |kept| ==> kept[a] < |points|
    requires s < e < |points| && small <= large
    requires Holds(points, kept, i, j, s, e, small) && kept[i] == s && kept[j] == e
    ensures Select(kept, Interior(Select(points, kept), i, j, large)) == Interior(points, s, e, large)
    decreases e - s
  {
    var line := Select(points, kept);
    SplitOfKept(points, kept, i, j, s, e, small, large);
    match Split(line, i, j, j, large)
    case None =>
    case Some(m) =>
      var k := kept[m];
      SplitIsUnique(points, s, e, e, small, k);
      var m' := HoldsHalves(points, kept, i, j, s, e, small, k);
      assert m == m';
      InteriorOfKept(points, kept, i, m, s, k, small, large);
      InteriorOfKept(points, kept, m, j, k, e, small, large);
      SelectJoin(kept, Interior(line, i, m, large), m, Interior(line, m, j, large));
  }

  /** Simplifying a simplified line at a tolerance at least as large gives what the original line
      gives at that tolerance. */
  lemma SimplifyComposes(points: seq<Point>, small2: real, large2: real)
    requires small2 <= large2
    ensures SimplifiedAt(SimplifiedAt(points, small2), large2) == SimplifiedAt(points, large2)
  {
    var kept := KeptAt(points, small2);
    var line := SimplifiedAt(points, small2);
    if |points| < 3 {
      assert line == points;
    } else {
      KeptComposes(points, small2, large2);
    }
  }

  lemma KeptComposes(points: seq<Point>, small2: real, large2: real)
    requires small2 <= large2 && |points| >= 3
    ensures Select(KeptAt(points, small2), KeptAt(SimplifiedAt(points, small2), large2)) == KeptAt(points, large2)
  {
    var kept := KeptAt(points, small2);
    var line := SimplifiedAt(points, small2);
    var j := |kept| - 1;
    KeptAscending(points, small2);
    KeptShape(points, small2);
    KeptShape(line, large2);
    assert kept[0..j + 1] == kept;
    InteriorOfKept(points, kept, 0, j, 0, |points| - 1, small2, large2);
    SelectEnds(kept, 0, Interior(line, 0, j, large2), j);
  }

  lemma KeptShape(points: seq<Point>, tolerance2: real)
    requires |points| >= 2
    ensures KeptAt(points, tolerance2) == [0] + Interior(points, 0, |points| - 1, tolerance2) + [|points| - 1]
  { }

  lemma SelectEnds(kept: seq<nat>, a: nat, inner: seq<nat>, b: nat)
    requires a < |kept| && b < |kept| && forall m :: 0 <= m < |inner| ==> inner[m] < |kept|
    ensures Select(kept, [a] + inner + [b]) == [kept[a]] + Select(kept, inner) + [kept[b]]
  { }

  /** Simplifying again at the same tolerance removes nothing. */
  lemma SimplifyIdempotent(points: seq<Point>, tolerance: real)
    ensures Simplified(Simplified(points, tolerance), tolerance) == Simplified(points, tolerance)
  {
    SimplifyComposes(points, tolerance * tolerance, tolerance * tolerance);
  }

  datatype Detail = Detail(drainage: real, minimumArea: real, tolerance: real)

  function HydroDetail(zoom: real): Detail {
    if zoom < 6.0 then Detail(200000.0, 250.0, 0.025)
    else if zoom < 8.0 then Detail(10000.0, 25.0, 0.008)
    else if zoom < 10.0 then Detail(2000.0, 2.0, 0.002)
    else Detail(100.0, 0.2, 0.0005)
  }

  /** Zooming in only adds vertices, and the coarse line can be computed from the fine one. */
  lemma ZoomLevelsNest(points: seq<Point>, far: real, near: real)
    requires far <= near
    ensures var coarse, fine := HydroDetail(far).tolerance, HydroDetail(near).tolerance;
            && (forall i :: i in Kept(points, coarse) ==> i in Kept(points, fine))
            && Simplified(Simplified(points, fine), coarse) == Simplified(points, coarse)
  {
    var coarse2, fine2 := Square(HydroDetail(far).tolerance), Square(HydroDetail(near).tolerance);
    ZoomTolerances(far, near);
    forall i | i in KeptAt(points, coarse2) ensures i in KeptAt(points, fine2) {
      KeptNested(points, fine2, coarse2, i);
    }
    SimplifyComposes(points, fine2, coarse2);
  }

  lemma ZoomTolerances(far: real, near: real)
    requires far <= near
    ensures Square(HydroDetail(near).tolerance) <= Square(HydroDetail(far).tolerance)
  { }
}
