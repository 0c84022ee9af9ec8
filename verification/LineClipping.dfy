/** Liang-Barsky clipping of an open polyline to a box, over exact numbers. */
module LineClipping {
  import opened Planar

  datatype Box = Box(west: real, south: real, east: real, north: real)

  ghost predicate InBox(p: Point, box: Box) {
    box.west <= p.x <= box.east && box.south <= p.y <= box.north
  }

  /** One half-plane `p * t <= q` on the parameter of a segment. */
  datatype Bound = Bound(p: real, q: real)

  ghost predicate Meets(t: real, bound: Bound) { bound.p * t <= bound.q }

  ghost predicate MeetsAll(t: real, bounds: seq<Bound>) {
    forall k :: 0 <= k < |bounds| ==> Meets(t, bounds[k])
  }

  /** The four half-planes of the box, in the order they are tried. */
  function Bounds(a: Point, b: Point, box: Box): (bounds: seq<Bound>)
    ensures |bounds| == 4
  {
    var dx, dy := b.x - a.x, b.y - a.y;
    [ Bound(-dx, a.x - box.west), Bound(dx, box.east - a.x),
      Bound(-dy, a.y - box.south), Bound(dy, box.north - a.y) ]
  }

  lemma NegatedProduct(t: real, d: real)
    ensures (-d) * t == -(t * d) && d * t == t * d
  { }

  /** Meeting the four half-planes is being in the box. */
  lemma BoundsAreTheBox(a: Point, b: Point, box: Box, t: real)
    ensures VisibleAt(a, b, box, t) <==> MeetsAll(t, Bounds(a, b, box))
  {
    var bounds := Bounds(a, b, box);
    NegatedProduct(t, b.x - a.x);
    NegatedProduct(t, b.y - a.y);
    assert Meets(t, bounds[0]) <==> box.west <= Along(a, b, t).x;
    assert Meets(t, bounds[1]) <==> Along(a, b, t).x <= box.east;
    assert Meets(t, bounds[2]) <==> box.south <= Along(a, b, t).y;
    assert Meets(t, bounds[3]) <==> Along(a, b, t).y <= box.north;
  }

  lemma DivideBound(t: real, p: real, q: real)
    requires p != 0.0
    ensures p > 0.0 ==> (p * t <= q <==> t <= q / p)
    ensures p < 0.0 ==> (p * t <= q <==> t >= q / p)
  {
    var r := q / p;
    assert p * r == q;
    assert p * t - q == p * (t - r);
    ScaleSign(p, t - r, p * (t - r));
  }

  lemma ScaleSign(p: real, g: real, product: real)
    requires product == p * g
    ensures p > 0.0 ==> (product <= 0.0 <==> g <= 0.0)
    ensures p < 0.0 ==> (product <= 0.0 <==> g >= 0.0)
  {
    if g != 0.0 && p != 0.0 {
      if (p > 0.0) == (g > 0.0) {
        PositiveProduct(p, g, product);
      } else {
        PositiveProduct(-p, g, -product);
      }
    }
  }

  ghost predicate VisibleAt(a: Point, b: Point, box: Box, t: real) {
    InBox(Along(a, b, t), box)
  }

  /** The parameters of segment `a`-`b` in the box are exactly `low..high`. */
  ghost predicate ExactRange(a: Point, b: Point, box: Box, low: real, high: real) {
    forall t: real :: 0.0 <= t <= 1.0 ==> VisibleAt(a, b, box, t) == (low <= t <= high)
  }

  ghost predicate NoneVisible(a: Point, b: Point, box: Box) {
    forall t: real :: 0.0 <= t <= 1.0 ==> !VisibleAt(a, b, box, t)
  }

  /** The parameters of segment `a`-`b` that lie in the box, if any. */
  method ClipSegment(a: Point, b: Point, box: Box) returns (visible: bool, low: real, high: real)
    ensures visible ==> 0.0 <= low <= high <= 1.0 && ExactRange(a, b, box, low, high)
    ensures !visible ==> NoneVisible(a, b, box)
  {
    var bounds := Bounds(a, b, box);
    low, high := 0.0, 1.0;
    visible := true;
    var i := 0;
    while i < 4 && visible
      invariant 0 <= i <= 4
      invariant 0.0 <= low && high <= 1.0
      invariant visible ==> Narrowed(bounds[..i], low, high)
      invariant !visible ==> exists k :: 0 <= k < 4 && bounds[k].p == 0.0 && bounds[k].q < 0.0
    {
      var Bound(p, q) := bounds[i];
      NarrowStep(bounds, i, low, high);
      if p == 0.0 {
        if q < 0.0 { visible := false; }
      } else if p < 0.0 {
        low := if low < q / p then q / p else low;
      } else {
        high := if q / p < high then q / p else high;
      }
      i := i + 1;
    }
    forall t: real | 0.0 <= t <= 1.0
      ensures VisibleAt(a, b, box, t) <==> visible && low <= t <= high
    {
      BoundsAreTheBox(a, b, box, t);
      if visible {
        assert bounds[..i] == bounds;
      } else {
        var k :| 0 <= k < 4 && bounds[k].p == 0.0 && bounds[k].q < 0.0;
        assert !Meets(t, bounds[k]);
      }
    }
    visible := visible && low <= high;
  }

  /** `low..high` is what the half-planes tried so far leave of 0..1. */
  ghost predicate Narrowed(bounds: seq<Bound>, low: real, high: real) {
    forall t: real :: 0.0 <= t <= 1.0 ==> MeetsAll(t, bounds) == (low <= t <= high)
  }

  lemma NarrowStep(bounds: seq<Bound>, i: nat, low: real, high: real)
    requires i < |bounds| && Narrowed(bounds[..i], low, high)
    ensures var Bound(p, q) := bounds[i];
            && (p == 0.0 && q >= 0.0 ==> Narrowed(bounds[..i + 1], low, high))
            && (p < 0.0 ==> Narrowed(bounds[..i + 1], if low < q / p then q / p else low, high))
            && (p > 0.0 ==> Narrowed(bounds[..i + 1], low, if q / p < high then q / p else high))
  {
    var Bound(p, q) := bounds[i];
    var before, after := bounds[..i], bounds[..i + 1];
    assert after == before + [bounds[i]];
    forall t: real | 0.0 <= t <= 1.0
      ensures MeetsAll(t, after) <==> MeetsAll(t, before) && Meets(t, bounds[i])
      ensures p < 0.0 ==> (Meets(t, bounds[i]) <==> t >= q / p)
      ensures p > 0.0 ==> (Meets(t, bounds[i]) <==> t <= q / p)
      ensures p == 0.0 ==> (Meets(t, bounds[i]) <==> q >= 0.0)
    {
      if p != 0.0 { DivideBound(t, p, q); }
      assert after[i] == bounds[i];
      assert forall k :: 0 <= k < i ==> after[k] == before[k];
    }
  }

  // ---------------------------------------------------------------------------------------------
  // The whole line
  // ---------------------------------------------------------------------------------------------

  /** The visible part of segment `index`: the parameters `low..high`. */
  datatype Cut = Cut(index: nat, low: real, high: real)

  /** `cut` is exactly the part of its segment that lies in the box. */
  ghost predicate ExactCut(points: seq<Point>, box: Box, cut: Cut) {
    && cut.index + 1 < |points|
    && 0.0 <= cut.low <= cut.high <= 1.0
    && ExactRange(points[cut.index], points[cut.index + 1], box, cut.low, cut.high)
  }

  ghost predicate HasCut(cuts: seq<Cut>, i: nat) {
    exists k :: 0 <= k < |cuts| && cuts[k].index == i
  }

  ghost predicate Unseen(points: seq<Point>, box: Box, i: nat)
    requires i + 1 < |points|
  {
    var a, b := points[i], points[i + 1];
    NoneVisible(a, b, box)
  }

  /** The cuts of the first `n` segments: in order, exact, and none missing. */
  ghost predicate ExactCuts(points: seq<Point>, box: Box, cuts: seq<Cut>, n: nat) {
    && (forall k :: 0 <= k < |cuts| ==> ExactCut(points, box, cuts[k]) && cuts[k].index < n)
    && (forall j, k :: 0 <= j < k < |cuts| ==> cuts[j].index < cuts[k].index)
    && (forall i: nat :: i < n && i + 1 < |points| ==>
          Unseen(points, box, i) || HasCut(cuts, i))
  }

  ghost function Piece(points: seq<Point>, cut: Cut): (Point, Point)
    requires cut.index + 1 < |points|
  {
    var a, b := points[cut.index], points[cut.index + 1];
    (Along(a, b, cut.low), Along(a, b, cut.high))
  }

  ghost function Pieces(points: seq<Point>, cuts: seq<Cut>): seq<(Point, Point)>
    requires forall k :: 0 <= k < |cuts| ==> cuts[k].index + 1 < |points|
  {
    seq(|cuts|, k requires 0 <= k < |cuts| => Piece(points, cuts[k]))
  }

  /** Lines are proper and could not be joined any further. */
  ghost predicate WellJoined(lines: seq<seq<Point>>) {
    && (forall k :: 0 <= k < |lines| ==> |lines[k]| >= 2)
    && (forall k :: 0 < k < |lines| ==> Last(lines[k - 1]) != lines[k][0])
  }

  function Last(line: seq<Point>): Point
    requires line != []
  {
    line[|line| - 1]
  }

  method ClipLine(points: seq<Point>, box: Box) returns (lines: seq<seq<Point>>, ghost cuts: seq<Cut>)
    ensures ExactlyVisible(points, box, lines)
    ensures Clipping(points, box, lines, cuts, |points|)
    ensures Forward(points, cuts, AllEdges(lines))
    ensures AllInBox(points, box) && |points| >= 2 ==> lines == [points]
  {
    lines, cuts := [], [];
    var i := 0;
    while i + 1 < |points|
      invariant 0 <= i <= |points|
      invariant Clipping(points, box, lines, cuts, i)
    {
      var a, b := points[i], points[i + 1];
      var visible, low, high := ClipSegment(a, b, box);
      if visible {
        VisibleStep(points, box, lines, cuts, Cut(i, low, high));
        lines := AddPiece(lines, Along(a, b, low), Along(a, b, high));
        cuts := cuts + [Cut(i, low, high)];
      } else {
        CutInvisible(points, box, cuts, i);
      }
      i := i + 1;
    }
    CutsComplete(points, box, cuts, i);
    WhatClippingGives(points, box, lines, cuts);
  }

  /** The lines hold the visible pieces of the first `i` segments, in order, each exactly once, and
      are joined wherever a piece begins where the one before it ends. */
  ghost predicate Clipping(points: seq<Point>, box: Box, lines: seq<seq<Point>>, cuts: seq<Cut>, i: nat) {
    && WellJoined(lines)
    && ExactCuts(points, box, cuts, i)
    && AllEdges(lines) == Pieces(points, cuts)
  }

  /** The last line ends where the next piece begins. */
  predicate Joins(lines: seq<seq<Point>>, begin: Point)
    requires WellJoined(lines)
  {
    lines != [] && Last(lines[|lines| - 1]) == begin
  }

  /** A piece more: it goes on with the last line, or begins another. */
  method AddPiece(lines: seq<seq<Point>>, begin: Point, end: Point) returns (more: seq<seq<Point>>)
    requires WellJoined(lines)
    ensures more == if Joins(lines, begin) then lines[|lines| - 1 := lines[|lines| - 1] + [end]]
                    else lines + [[begin, end]]
  {
    if lines != [] && Last(lines[|lines| - 1]) == begin {
      more := lines[|lines| - 1 := lines[|lines| - 1] + [end]];
    } else {
      more := lines + [[begin, end]];
    }
  }

  lemma VisibleStep(points: seq<Point>, box: Box, lines: seq<seq<Point>>, cuts: seq<Cut>, cut: Cut)
    requires ExactCut(points, box, cut) && Clipping(points, box, lines, cuts, cut.index)
    ensures var (begin, end) := Piece(points, cut);
            if Joins(lines, begin) then
              Clipping(points, box, lines[|lines| - 1 := lines[|lines| - 1] + [end]], cuts + [cut], cut.index + 1)
            else
              Clipping(points, box, lines + [[begin, end]], cuts + [cut], cut.index + 1)
  {
    var (begin, end) := Piece(points, cut);
    CutVisible(points, box, cuts, cut);
    if Joins(lines, begin) {
      JoinKeepsPieces(lines, end);
    } else {
      NewLineKeepsPieces(lines, begin, end);
    }
  }

  lemma CutVisible(points: seq<Point>, box: Box, cuts: seq<Cut>, cut: Cut)
    requires ExactCut(points, box, cut) && ExactCuts(points, box, cuts, cut.index)
    ensures ExactCuts(points, box, cuts + [cut], cut.index + 1)
    ensures Pieces(points, cuts + [cut]) == Pieces(points, cuts) + [Piece(points, cut)]
  {
    var next := cuts + [cut];
    assert next[|cuts|].index == cut.index;
    forall i: nat | i < cut.index + 1 && i + 1 < |points| && !Unseen(points, box, i)
      ensures HasCut(next, i)
    {
      if i < cut.index {
        var k :| 0 <= k < |cuts| && cuts[k].index == i;
        assert next[k].index == i;
      }
    }
  }

  lemma CutInvisible(points: seq<Point>, box: Box, cuts: seq<Cut>, i: nat)
    requires i + 1 < |points| && ExactCuts(points, box, cuts, i)
    requires Unseen(points, box, i)
    ensures ExactCuts(points, box, cuts, i + 1)
  { }

  /** Joining a piece that starts where the last line ends adds exactly that piece. */
  lemma JoinKeepsPieces(lines: seq<seq<Point>>, end: Point)
    requires WellJoined(lines) && lines != []
    ensures var last := lines[|lines| - 1];
            var joined := lines[|lines| - 1 := last + [end]];
            && WellJoined(joined)
            && AllEdges(joined) == AllEdges(lines) + [(Last(last), end)]
  {
    var front, last := lines[..|lines| - 1], lines[|lines| - 1];
    assert lines == front + [last];
    assert lines[|lines| - 1 := last + [end]] == front + [last + [end]];
    LongerStaysJoined(front, last, end);
    AllEdgesSnoc(front, last);
    AllEdgesSnoc(front, last + [end]);
    EdgesGrow(last, end);
    Associate(AllEdges(front), Edges(last), [(Last(last), end)]);
  }

  lemma LongerStaysJoined(front: seq<seq<Point>>, last: seq<Point>, end: Point)
    requires WellJoined(front + [last])
    ensures WellJoined(front + [last + [end]])
  {
    var lines, longer := front + [last], front + [last + [end]];
    forall k | 0 <= k < |longer| ensures |longer[k]| >= 2 && longer[k][0] == lines[k][0] {
      assert |lines[k]| >= 2;
    }
    forall k | 0 < k < |longer| ensures Last(longer[k - 1]) != longer[k][0] {
      assert longer[k - 1] == lines[k - 1];
    }
  }

  lemma Associate<X>(a: seq<X>, b: seq<X>, c: seq<X>)
    ensures a + (b + c) == a + b + c
  { }

  lemma NewLineKeepsPieces(lines: seq<seq<Point>>, begin: Point, end: Point)
    requires WellJoined(lines)
    requires !Joins(lines, begin)
    ensures WellJoined(lines + [[begin, end]])
    ensures AllEdges(lines + [[begin, end]]) == AllEdges(lines) + [(begin, end)]
  {
    AllEdgesSnoc(lines, [begin, end]);
    assert Edges([begin, end]) == [(begin, end)];
  }

  lemma CutsComplete(points: seq<Point>, box: Box, cuts: seq<Cut>, i: nat)
    requires |points| <= i + 1 && i <= |points| && ExactCuts(points, box, cuts, i)
    ensures ExactCuts(points, box, cuts, |points|)
  { }

  // ---------------------------------------------------------------------------------------------
  // Exactness
  // ---------------------------------------------------------------------------------------------

  ghost predicate OnSomeLine(p: Point, lines: seq<seq<Point>>) {
    exists k :: 0 <= k < |lines| && OnPolyline(p, lines[k])
  }

  ghost predicate OnSomeEdge(p: Point, edges: seq<(Point, Point)>) {
    exists i :: 0 <= i < |edges| && OnSegment(p, edges[i].0, edges[i].1)
  }

  /** A point lies on some output line exactly when it lies on the input line and in the box. */
  ghost predicate ExactlyVisible(points: seq<Point>, box: Box, lines: seq<seq<Point>>) {
    forall p: Point :: OnSomeLine(p, lines) <==> OnPolyline(p, points) && InBox(p, box)
  }

  lemma OnEdgesOfLine(p: Point, line: seq<Point>)
    ensures OnPolyline(p, line) <==> OnSomeEdge(p, Edges(line))
  {
    var edges := Edges(line);
    if OnPolyline(p, line) {
      var i: nat :| i + 1 < |line| && OnSegment(p, line[i], line[i + 1]);
      assert OnSegment(p, edges[i].0, edges[i].1);
    }
    if OnSomeEdge(p, edges) {
      var i :| 0 <= i < |edges| && OnSegment(p, edges[i].0, edges[i].1);
      assert i + 1 < |line| && OnSegment(p, line[i], line[i + 1]);
    }
  }

  lemma OnEdgesJoin(p: Point, a: seq<(Point, Point)>, b: seq<(Point, Point)>)
    ensures OnSomeEdge(p, a + b) <==> OnSomeEdge(p, a) || OnSomeEdge(p, b)
  {
    var both := a + b;
    if OnSomeEdge(p, a) {
      var i :| 0 <= i < |a| && OnSegment(p, a[i].0, a[i].1);
      assert OnSegment(p, both[i].0, both[i].1);
    }
    if OnSomeEdge(p, b) {
      var i :| 0 <= i < |b| && OnSegment(p, b[i].0, b[i].1);
      assert OnSegment(p, both[|a| + i].0, both[|a| + i].1);
    }
    if OnSomeEdge(p, both) {
      var i :| 0 <= i < |both| && OnSegment(p, both[i].0, both[i].1);
      assert if i < |a| then OnSegment(p, a[i].0, a[i].1) else OnSegment(p, b[i - |a|].0, b[i - |a|].1);
    }
  }

  lemma OnSomeLineSnoc(p: Point, front: seq<seq<Point>>, last: seq<Point>)
    ensures OnSomeLine(p, front + [last]) <==> OnSomeLine(p, front) || OnPolyline(p, last)
  {
    var lines := front + [last];
    if OnSomeLine(p, front) {
      var k :| 0 <= k < |front| && OnPolyline(p, front[k]);
      assert lines[k] == front[k];
    }
    if OnPolyline(p, last) {
      assert lines[|front|] == last;
    }
    if OnSomeLine(p, lines) {
      var k :| 0 <= k < |lines| && OnPolyline(p, lines[k]);
      assert k < |front| ==> front[k] == lines[k];
    }
  }

  lemma {:induction false} OnEdgesOfLines(p: Point, lines: seq<seq<Point>>)
    ensures OnSomeLine(p, lines) <==> OnSomeEdge(p, AllEdges(lines))
  {
    if lines != [] {
      var front, last := lines[..|lines| - 1], lines[|lines| - 1];
      assert lines == front + [last];
      OnEdgesOfLines(p, front);
      OnEdgesOfLine(p, last);
      OnSomeLineSnoc(p, front, last);
      AllEdgesSnoc(front, last);
      OnEdgesJoin(p, AllEdges(front), Edges(last));
    }
  }

  /** `p` is the point of `a`-`b` at some parameter of `low..high`. */
  ghost predicate OnPart(p: Point, a: Point, b: Point, low: real, high: real) {
    exists t: real :: low <= t <= high && p == Along(a, b, t)
  }

  lemma PartOfSegment(p: Point, a: Point, b: Point, low: real, high: real)
    requires low <= high && OnSegment(p, Along(a, b, low), Along(a, b, high))
    ensures OnPart(p, a, b, low, high)
  {
    var u: real :| 0.0 <= u <= 1.0 && p == Along(Along(a, b, low), Along(a, b, high), u);
    Reparametrize(a, b, low, high, u);
    BetweenEnds(u, high - low, u * (high - low));
    assert p == Along(a, b, low + u * (high - low));
  }

  lemma SegmentOfPart(p: Point, a: Point, b: Point, low: real, high: real)
    requires low <= high && OnPart(p, a, b, low, high)
    ensures OnSegment(p, Along(a, b, low), Along(a, b, high))
  {
    var t: real :| low <= t <= high && p == Along(a, b, t);
    var u := if low < high then (t - low) / (high - low) else 0.0;
    FractionBetween(t - low, high - low);
    Reparametrize(a, b, low, high, u);
    assert t == low + u * (high - low);
  }

  lemma BetweenEnds(u: real, width: real, product: real)
    requires 0.0 <= u <= 1.0 && 0.0 <= width && product == u * width
    ensures 0.0 <= product <= width
  { }

  lemma FractionBetween(part: real, width: real)
    requires 0.0 <= part <= width
    ensures width > 0.0 ==> 0.0 <= part / width <= 1.0 && (part / width) * width == part
  { }

  lemma Reparametrize(a: Point, b: Point, low: real, high: real, u: real)
    ensures Along(Along(a, b, low), Along(a, b, high), u) == Along(a, b, low + u * (high - low))
  {
    ReparametrizeCoordinate(a.x, b.x - a.x, low, high, u);
    ReparametrizeCoordinate(a.y, b.y - a.y, low, high, u);
  }

  lemma ReparametrizeCoordinate(x: real, d: real, low: real, high: real, u: real)
    ensures (x + low * d) + u * ((x + high * d) - (x + low * d)) == x + (low + u * (high - low)) * d
  {
    assert (x + high * d) - (x + low * d) == (high - low) * d;
    assert u * ((high - low) * d) == (u * (high - low)) * d;
  }

  lemma PartIsVisible(p: Point, a: Point, b: Point, box: Box, low: real, high: real)
    requires 0.0 <= low <= high <= 1.0 && ExactRange(a, b, box, low, high)
    ensures OnPart(p, a, b, low, high) <==> OnSegment(p, a, b) && InBox(p, box)
  {
    if OnPart(p, a, b, low, high) {
      var t: real :| low <= t <= high && p == Along(a, b, t);
      assert VisibleAt(a, b, box, t);
    }
    if OnSegment(p, a, b) && InBox(p, box) {
      var t: real :| 0.0 <= t <= 1.0 && p == Along(a, b, t);
      assert VisibleAt(a, b, box, t);
    }
  }

  lemma OnCut(p: Point, a: Point, b: Point, box: Box, low: real, high: real)
    requires 0.0 <= low <= high <= 1.0 && ExactRange(a, b, box, low, high)
    ensures OnSegment(p, Along(a, b, low), Along(a, b, high)) <==> OnSegment(p, a, b) && InBox(p, box)
  {
    PartIsVisible(p, a, b, box, low, high);
    if OnSegment(p, Along(a, b, low), Along(a, b, high)) {
      PartOfSegment(p, a, b, low, high);
    }
    if OnPart(p, a, b, low, high) {
      SegmentOfPart(p, a, b, low, high);
    }
  }

  /** A point lies on some output line exactly when it lies on the input line and in the box. */
  lemma ClipIsExact(points: seq<Point>, box: Box, lines: seq<seq<Point>>, cuts: seq<Cut>, p: Point)
    requires ExactCuts(points, box, cuts, |points|) && AllEdges(lines) == Pieces(points, cuts)
    ensures OnSomeLine(p, lines) <==> OnPolyline(p, points) && InBox(p, box)
  {
    OnEdgesOfLines(p, lines);
    if OnSomeEdge(p, Pieces(points, cuts)) {
      PieceIsVisible(points, box, cuts, p);
    }
    if OnPolyline(p, points) && InBox(p, box) {
      VisibleIsOnPiece(points, box, cuts, p);
    }
  }

  lemma ClipIsExactEverywhere(points: seq<Point>, box: Box, lines: seq<seq<Point>>, cuts: seq<Cut>)
    requires ExactCuts(points, box, cuts, |points|) && AllEdges(lines) == Pieces(points, cuts)
    ensures ExactlyVisible(points, box, lines)
  {
    forall p: Point ensures OnSomeLine(p, lines) <==> OnPolyline(p, points) && InBox(p, box) {
      ClipIsExact(points, box, lines, cuts, p);
    }
  }

  lemma PieceIsVisible(points: seq<Point>, box: Box, cuts: seq<Cut>, p: Point)
    requires ExactCuts(points, box, cuts, |points|) && OnSomeEdge(p, Pieces(points, cuts))
    ensures OnPolyline(p, points) && InBox(p, box)
  {
    var edges := Pieces(points, cuts);
    var k :| 0 <= k < |edges| && OnSegment(p, edges[k].0, edges[k].1);
    var Cut(i, low, high) := cuts[k];
    OnCut(p, points[i], points[i + 1], box, low, high);
  }

  lemma SomeVisible(p: Point, a: Point, b: Point, box: Box)
    requires OnSegment(p, a, b) && InBox(p, box)
    ensures !NoneVisible(a, b, box)
  {
    var t: real :| 0.0 <= t <= 1.0 && p == Along(a, b, t);
    assert VisibleAt(a, b, box, t);
  }

  lemma CutOfVisible(points: seq<Point>, box: Box, cuts: seq<Cut>, p: Point) returns (k: nat)
    requires ExactCuts(points, box, cuts, |points|) && OnPolyline(p, points) && InBox(p, box)
    ensures k < |cuts| && OnSegment(p, points[cuts[k].index], points[cuts[k].index + 1])
  {
    var i: nat :| i + 1 < |points| && OnSegment(p, points[i], points[i + 1]);
    SomeVisible(p, points[i], points[i + 1], box);
    assert !Unseen(points, box, i);
    assert HasCut(cuts, i);
    k :| 0 <= k < |cuts| && cuts[k].index == i;
  }

  lemma VisibleIsOnPiece(points: seq<Point>, box: Box, cuts: seq<Cut>, p: Point)
    requires ExactCuts(points, box, cuts, |points|) && OnPolyline(p, points) && InBox(p, box)
    ensures OnSomeEdge(p, Pieces(points, cuts))
  {
    var k := CutOfVisible(points, box, cuts, p);
    var Cut(i, low, high) := cuts[k];
    OnCut(p, points[i], points[i + 1], box, low, high);
    assert Pieces(points, cuts)[k] == Piece(points, cuts[k]);
  }

  // ---------------------------------------------------------------------------------------------
  // Direction, and lines that are not cut
  // ---------------------------------------------------------------------------------------------

  /** An edge from `p` to `q` does not run against one from `a` to `b`. */
  ghost predicate SameWay(p: Point, q: Point, a: Point, b: Point) {
    (q.x - p.x) * (b.x - a.x) >= 0.0 && (q.y - p.y) * (b.y - a.y) >= 0.0
  }

  /** The edges come in the order of the segments that they are cut from, and run the way those do. */
  ghost predicate Forward(points: seq<Point>, cuts: seq<Cut>, edges: seq<(Point, Point)>) {
    && |edges| == |cuts|
    && (forall j, k :: 0 <= j < k < |cuts| ==> cuts[j].index < cuts[k].index)
    && (forall k :: 0 <= k < |cuts| ==>
          && cuts[k].index + 1 < |points|
          && SameWay(edges[k].0, edges[k].1, points[cuts[k].index], points[cuts[k].index + 1]))
  }

  lemma NotAgainst(x: real, d: real, low: real, high: real)
    requires low <= high
    ensures ((x + high * d) - (x + low * d)) * d >= 0.0
  {
    assert (x + high * d) - (x + low * d) == (high - low) * d;
    assert ((high - low) * d) * d == (high - low) * (d * d);
    SquarePositive(d, d * d);
    WidthTimesSquare(high - low, d * d, (high - low) * (d * d));
  }

  lemma WidthTimesSquare(width: real, square: real, product: real)
    requires width >= 0.0 && square >= 0.0 && product == width * square
    ensures product >= 0.0
  { }

  lemma PiecesForward(points: seq<Point>, box: Box, cuts: seq<Cut>)
    requires ExactCuts(points, box, cuts, |points|)
    ensures Forward(points, cuts, Pieces(points, cuts))
  {
    forall k | 0 <= k < |cuts|
      ensures var Cut(i, low, high) := cuts[k];
              SameWay(Pieces(points, cuts)[k].0, Pieces(points, cuts)[k].1, points[i], points[i + 1])
    {
      var Cut(i, low, high) := cuts[k];
      NotAgainst(points[i].x, points[i + 1].x - points[i].x, low, high);
      NotAgainst(points[i].y, points[i + 1].y - points[i].y, low, high);
    }
  }

  /** The box and the line determine the cuts. */
  lemma {:induction false} CutsAreUnique(points: seq<Point>, box: Box, a: seq<Cut>, b: seq<Cut>, n: nat)
    requires n < |points| && ExactCuts(points, box, a, n) && ExactCuts(points, box, b, n)
    ensures a == b
  {
    if n == 0 {
      NoCuts(points, box, a);
      NoCuts(points, box, b);
    } else {
      var last := n - 1;
      if Unseen(points, box, last) {
        UnseenHasNoCut(points, box, a, last);
        UnseenHasNoCut(points, box, b, last);
        CutsAreUnique(points, box, a, b, last);
      } else {
        LastCut(points, box, a, last);
        LastCut(points, box, b, last);
        var x, y := a[|a| - 1], b[|b| - 1];
        CutIsUnique(points[last], points[last + 1], box, x.low, x.high, y.low, y.high);
        CutsAreUnique(points, box, a[..|a| - 1], b[..|b| - 1], last);
        assert a == a[..|a| - 1] + [x] && b == b[..|b| - 1] + [y];
      }
    }
  }

  lemma NoCuts(points: seq<Point>, box: Box, cuts: seq<Cut>)
    requires ExactCuts(points, box, cuts, 0)
    ensures cuts == []
  {
    assert |cuts| > 0 ==> cuts[0].index < 0;
  }

  lemma CutIsUnique(a: Point, b: Point, box: Box, low: real, high: real, low': real, high': real)
    requires 0.0 <= low <= high <= 1.0 && ExactRange(a, b, box, low, high)
    requires 0.0 <= low' <= high' <= 1.0 && ExactRange(a, b, box, low', high')
    ensures low == low' && high == high'
  {
    assert VisibleAt(a, b, box, low) && VisibleAt(a, b, box, high);
    assert VisibleAt(a, b, box, low') && VisibleAt(a, b, box, high');
  }

  lemma UnseenHasNoCut(points: seq<Point>, box: Box, cuts: seq<Cut>, last: nat)
    requires last + 1 < |points| && ExactCuts(points, box, cuts, last + 1) && Unseen(points, box, last)
    ensures ExactCuts(points, box, cuts, last)
  {
    forall k | 0 <= k < |cuts| ensures cuts[k].index < last {
      var Cut(i, low, high) := cuts[k];
      assert ExactCut(points, box, cuts[k]);
      assert VisibleAt(points[i], points[i + 1], box, low);
    }
  }

  lemma LastCut(points: seq<Point>, box: Box, cuts: seq<Cut>, last: nat)
    requires last + 1 < |points| && ExactCuts(points, box, cuts, last + 1) && !Unseen(points, box, last)
    ensures cuts != [] && cuts[|cuts| - 1].index == last
    ensures ExactCuts(points, box, cuts[..|cuts| - 1], last)
  {
    assert HasCut(cuts, last);
    var k :| 0 <= k < |cuts| && cuts[k].index == last;
    var front := cuts[..|cuts| - 1];
    forall i: nat | i < last && !Unseen(points, box, i) ensures HasCut(front, i) {
      assert HasCut(cuts, i);
      var j :| 0 <= j < |cuts| && cuts[j].index == i;
      assert front[j].index == i;
    }
  }

  lemma EdgesOfLast(lines: seq<seq<Point>>)
    requires lines != []
    ensures AllEdges(lines) == AllEdges(lines[..|lines| - 1]) + Edges(lines[|lines| - 1])
  { }

  lemma NoEdgesNoLines(lines: seq<seq<Point>>)
    requires WellJoined(lines)
    ensures lines == [] <==> AllEdges(lines) == []
  { }

  /** The last line begins at the last edge that does not go on from the one before it. */
  ghost predicate BeginsAt(edges: seq<(Point, Point)>, f: nat) {
    && f < |edges| && (f > 0 ==> edges[f - 1].1 != edges[f].0)
    && forall j :: f < j < |edges| ==> edges[j - 1].1 == edges[j].0
  }

  lemma EdgesGoOn(line: seq<Point>)
    requires |line| >= 2
    ensures Edges(line)[0].0 == line[0] && BeginsAt(Edges(line), 0)
  { }

  lemma BeginsAfter(front: seq<(Point, Point)>, last: seq<(Point, Point)>)
    requires BeginsAt(last, 0) && (front != [] ==> front[|front| - 1].1 != last[0].0)
    ensures BeginsAt(front + last, |front|)
  {
    var edges := front + last;
    forall j | |front| < j < |edges| ensures edges[j - 1].1 == edges[j].0 {
      assert edges[j - 1] == last[j - 1 - |front|] && edges[j] == last[j - |front|];
    }
  }

  lemma LastBegins(lines: seq<seq<Point>>)
    requires WellJoined(lines) && lines != []
    ensures BeginsAt(AllEdges(lines), |AllEdges(lines[..|lines| - 1])|)
  {
    var n, last := |lines| - 1, lines[|lines| - 1];
    EdgesOfLast(lines);
    EdgesGoOn(last);
    NoEdgesNoLines(lines[..n]);
    if n > 0 {
      EndsWithLast(lines[..n]);
      assert Last(lines[n - 1]) != lines[n][0];
    }
    BeginsAfter(AllEdges(lines[..n]), Edges(last));
  }

  lemma EndsWithLast(lines: seq<seq<Point>>)
    requires WellJoined(lines) && lines != []
    ensures AllEdges(lines) != [] && AllEdges(lines)[|AllEdges(lines)| - 1].1 == Last(lines[|lines| - 1])
  {
    EdgesOfLast(lines);
  }

  lemma SameLast(a: seq<seq<Point>>, b: seq<seq<Point>>)
    requires WellJoined(a) && WellJoined(b) && a != [] && b != [] && AllEdges(a) == AllEdges(b)
    ensures AllEdges(a[..|a| - 1]) == AllEdges(b[..|b| - 1]) && a[|a| - 1] == b[|b| - 1]
  {
    LastBegins(a);
    LastBegins(b);
    EdgesOfLast(a);
    EdgesOfLast(b);
    SameSplit(AllEdges(a[..|a| - 1]), Edges(a[|a| - 1]), AllEdges(b[..|b| - 1]), Edges(b[|b| - 1]));
    SameEdges(a[|a| - 1], b[|b| - 1]);
  }

  lemma FrontAndLast(lines: seq<seq<Point>>)
    requires WellJoined(lines) && lines != []
    ensures WellJoined(lines[..|lines| - 1]) && lines == lines[..|lines| - 1] + [lines[|lines| - 1]]
  { }

  /** Edges can be joined into lines in one way only. */
  lemma {:induction false} JoiningIsUnique(a: seq<seq<Point>>, b: seq<seq<Point>>)
    requires WellJoined(a) && WellJoined(b) && AllEdges(a) == AllEdges(b)
    ensures a == b
    decreases |a|
  {
    NoEdgesNoLines(a);
    NoEdgesNoLines(b);
    if a != [] {
      SameLast(a, b);
      FrontAndLast(a);
      FrontAndLast(b);
      JoiningIsUnique(a[..|a| - 1], b[..|b| - 1]);
    }
  }

  lemma SameSplit<X>(a: seq<X>, b: seq<X>, c: seq<X>, d: seq<X>)
    requires a + b == c + d && |b| == |d|
    ensures a == c && b == d
  {
    assert a == (a + b)[..|a|] && c == (c + d)[..|c|];
    assert b == (a + b)[|a|..] && d == (c + d)[|c|..];
  }

  lemma SameEdges(a: seq<Point>, b: seq<Point>)
    requires |a| == |b| >= 2 && Edges(a) == Edges(b)
    ensures a == b
  {
    forall i | 0 <= i < |a| ensures a[i] == b[i] {
      if i < |a| - 1 {
        assert Edges(a)[i] == (a[i], a[i + 1]) && Edges(b)[i] == (b[i], b[i + 1]);
      } else {
        assert Edges(a)[i - 1] == (a[i - 1], a[i]) && Edges(b)[i - 1] == (b[i - 1], b[i]);
      }
    }
  }

  /** So the line and the box determine the output. */
  lemma ClippingIsUnique(points: seq<Point>, box: Box, lines: seq<seq<Point>>, cuts: seq<Cut>,
                         lines': seq<seq<Point>>, cuts': seq<Cut>)
    requires Clipping(points, box, lines, cuts, |points|) && Clipping(points, box, lines', cuts', |points|)
    ensures lines == lines' && cuts == cuts'
  {
    if points == [] {
      NoCuts(points, box, cuts);
      NoCuts(points, box, cuts');
    } else {
      FewerSegments(points, box, cuts);
      FewerSegments(points, box, cuts');
      CutsAreUnique(points, box, cuts, cuts', |points| - 1);
    }
    JoiningIsUnique(lines, lines');
  }

  lemma FewerSegments(points: seq<Point>, box: Box, cuts: seq<Cut>)
    requires points != [] && ExactCuts(points, box, cuts, |points|)
    ensures ExactCuts(points, box, cuts, |points| - 1)
  {
    forall k | 0 <= k < |cuts| ensures cuts[k].index < |points| - 1 {
      assert ExactCut(points, box, cuts[k]);
    }
  }

  ghost predicate AllInBox(points: seq<Point>, box: Box) {
    forall i :: 0 <= i < |points| ==> InBox(points[i], box)
  }

  lemma ScaledBetween(t: real, v: real, low: real, high: real)
    requires 0.0 <= t && low <= v <= high
    ensures t * low <= t * v <= t * high
  { }

  lemma MixedBetween(low: real, high: real, s: real, t: real, u: real, v: real)
    requires s + t == 1.0 && s * low <= u <= s * high && t * low <= v <= t * high
    ensures low <= u + v <= high
  {
    assert s * low + t * low == (s + t) * low == low;
    assert s * high + t * high == (s + t) * high == high;
  }

  lemma BetweenCoordinates(x: real, y: real, low: real, high: real, t: real)
    requires low <= x <= high && low <= y <= high && 0.0 <= t <= 1.0
    ensures low <= x + t * (y - x) <= high
  {
    var s := 1.0 - t;
    ScaledBetween(s, x, low, high);
    ScaledBetween(t, y, low, high);
    MixedBetween(low, high, s, t, s * x, t * y);
    assert x + t * (y - x) == s * x + t * y;
  }

  ghost function WholeCuts(n: nat): (cuts: seq<Cut>)
    ensures |cuts| == n && forall k :: 0 <= k < n ==> cuts[k] == Cut(k, 0.0, 1.0)
  {
    seq(n, k requires 0 <= k < n => Cut(k, 0.0, 1.0))
  }

  lemma InsideSegment(a: Point, b: Point, box: Box)
    requires InBox(a, box) && InBox(b, box)
    ensures ExactRange(a, b, box, 0.0, 1.0)
  {
    forall t: real | 0.0 <= t <= 1.0 ensures VisibleAt(a, b, box, t) {
      BetweenCoordinates(a.x, b.x, box.west, box.east, t);
      BetweenCoordinates(a.y, b.y, box.south, box.north, t);
    }
  }

  lemma InsideIsWhole(points: seq<Point>, box: Box)
    requires AllInBox(points, box) && |points| >= 2
    ensures ExactCuts(points, box, WholeCuts(|points| - 1), |points|)
    ensures Pieces(points, WholeCuts(|points| - 1)) == Edges(points)
  {
    var cuts := WholeCuts(|points| - 1);
    forall k | 0 <= k < |cuts| ensures ExactCut(points, box, cuts[k]) {
      InsideSegment(points[k], points[k + 1], box);
    }
    forall i: nat | i < |points| && i + 1 < |points| ensures HasCut(cuts, i) {
      assert cuts[i].index == i;
    }
  }

  /** A line inside the box comes back as it is. */
  lemma InsideComesBack(points: seq<Point>, box: Box, lines: seq<seq<Point>>, cuts: seq<Cut>)
    requires AllInBox(points, box) && |points| >= 2 && Clipping(points, box, lines, cuts, |points|)
    ensures lines == [points]
  {
    InsideIsWhole(points, box);
    AllEdgesSnoc([], points);
    assert [] + [points] == [points];
    assert AllEdges([points]) == Edges(points);
    ClippingIsUnique(points, box, lines, cuts, [points], WholeCuts(|points| - 1));
  }

  lemma WhatClippingGives(points: seq<Point>, box: Box, lines: seq<seq<Point>>, cuts: seq<Cut>)
    requires Clipping(points, box, lines, cuts, |points|)
    ensures ExactlyVisible(points, box, lines) && Forward(points, cuts, AllEdges(lines))
    ensures AllInBox(points, box) && |points| >= 2 ==> lines == [points]
  {
    ClipIsExactEverywhere(points, box, lines, cuts);
    PiecesForward(points, box, cuts);
    if AllInBox(points, box) && |points| >= 2 { InsideComesBack(points, box, lines, cuts); }
  }
}
