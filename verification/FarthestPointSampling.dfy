/**
 Farthest-point ordering of the municipalities of a state. Prefixes of the order are the weather
 samples, so the guarantee is about every prefix.
 */
module FarthestPointSampling {
  import opened Planar

  datatype Place = Place(code: string, name: string, lat: real, lon: real)

  /** The places on the plane the distances are taken in: longitudes shrunk by `cosLat`, the
      cosine of the mean latitude. */
  function Positions(places: seq<Place>, cosLat: real): (positions: seq<Point>)
    ensures |positions| == |places|
    ensures forall i :: 0 <= i < |places| ==> positions[i] == Point(places[i].lat, places[i].lon * cosLat)
  {
    seq(|places|, i requires 0 <= i < |places| => Point(places[i].lat, places[i].lon * cosLat))
  }

  /** Squared distance from place `i` to the nearest chosen place. */
  function Nearest2(positions: seq<Point>, chosen: seq<nat>, i: nat): real
    requires chosen != [] && InRange(chosen, |positions|) && i < |positions|
  {
    var m := |chosen| - 1;
    var d := Dist2(positions[i], positions[chosen[m]]);
    if m == 0 then d else
    var before := Nearest2(positions, chosen[..m], i);
    if d < before then d else before
  }

  /** `c` is the first of the places not yet chosen that lies farthest from the chosen ones. */
  ghost predicate FarthestNext(positions: seq<Point>, chosen: seq<nat>, c: nat)
    requires chosen != [] && InRange(chosen, |positions|)
  {
    && c < |positions| && c !in chosen
    && forall i: nat :: i < |positions| && i !in chosen ==>
         var di, dc := Nearest2(positions, chosen, i), Nearest2(positions, chosen, c);
         di <= dc && (i < c ==> di < dc)
  }

  /** The order begins at `start` and goes on with the first farthest place each time. */
  ghost predicate Greedy(positions: seq<Point>, start: nat, order: seq<nat>) {
    && order != [] && order[0] == start && InRange(order, |positions|)
    && forall k :: 0 < k < |order| ==> FarthestNext(positions, order[..k], order[k])
  }

  function ClampStart(start: int, n: nat): nat
    requires n > 0
  {
    if start < 0 then 0 else if start > n - 1 then n - 1 else start
  }

  ghost predicate VisitedAre(visited: seq<bool>, chosen: seq<nat>) {
    forall i: nat :: i < |visited| ==> (visited[i] <==> i in chosen)
  }

  /** The incrementally kept distances of the places not visited yet. */
  ghost predicate DistancesAre(positions: seq<Point>, visited: seq<bool>, minDists: seq<real>, chosen: seq<nat>)
    requires chosen != [] && InRange(chosen, |positions|)
  {
    && |visited| == |minDists| == |positions|
    && forall i: nat :: i < |positions| && !visited[i] ==> minDists[i] == Nearest2(positions, chosen, i)
  }

  /** The scan for the next place; -1 only when every place has been visited. */
  method PickFarthest(visited: array<bool>, minDists: array<real>) returns (best: int)
    requires visited.Length == minDists.Length
    requires forall i :: 0 <= i < visited.Length ==> minDists[i] >= 0.0
    ensures -1 <= best < visited.Length
    ensures best == -1 ==> forall i :: 0 <= i < visited.Length ==> visited[i]
    ensures best >= 0 ==> !visited[best]
    ensures best >= 0 ==> forall i :: 0 <= i < visited.Length && !visited[i] ==>
              minDists[i] <= minDists[best] && (i < best ==> minDists[i] < minDists[best])
  {
    best := -1;
    var bestDist := -1.0;
    for i := 0 to visited.Length
      invariant -1 <= best < i
      invariant best == -1 ==> bestDist == -1.0 && forall j :: 0 <= j < i ==> visited[j]
      invariant best >= 0 ==> !visited[best] && bestDist == minDists[best]
      invariant best >= 0 ==> forall j :: 0 <= j < i && !visited[j] ==>
                  minDists[j] <= bestDist && (j < best ==> minDists[j] < bestDist)
    {
      if !visited[i] && minDists[i] > bestDist {
        bestDist := minDists[i];
        best := i;
      }
    }
  }

  function Lowered(positions: seq<Point>, best: nat, visited: bool, kept: real, i: nat): real
    requires best < |positions| && i < |positions|
  {
    var d := Dist2(positions[i], positions[best]);
    if !visited && d < kept then d else kept
  }

  /** Lowers the kept distances of unvisited places to the newly chosen place. */
  method LowerDistances(positions: seq<Point>, visited: array<bool>, minDists: array<real>, best: nat)
    requires visited.Length == minDists.Length == |positions| && best < |positions|
    requires visited as object != minDists
    modifies minDists
    ensures forall i :: 0 <= i < |positions| ==>
              minDists[i] == Lowered(positions, best, visited[i], old(minDists[i]), i)
  {
    for i := 0 to |positions|
      invariant forall j :: i <= j < |positions| ==> minDists[j] == old(minDists[j])
      invariant forall j :: 0 <= j < i ==>
                  minDists[j] == Lowered(positions, best, visited[j], old(minDists[j]), j)
    {
      if !visited[i] {
        var d := Dist2(positions[i], positions[best]);
        if d < minDists[i] {
          minDists[i] := d;
        }
      }
    }
  }

  lemma Dist2NonNegative(p: Point, q: Point)
    ensures Dist2(p, q) >= 0.0
  {
    SquarePositive(p.x - q.x, Square(p.x - q.x));
    SquarePositive(p.y - q.y, Square(p.y - q.y));
  }

  lemma {:induction false} Nearest2NonNegative(positions: seq<Point>, chosen: seq<nat>, i: nat)
    requires chosen != [] && InRange(chosen, |positions|) && i < |positions|
    ensures Nearest2(positions, chosen, i) >= 0.0
  {
    var m := |chosen| - 1;
    Dist2NonNegative(positions[i], positions[chosen[m]]);
    if m > 0 { Nearest2NonNegative(positions, chosen[..m], i); }
  }

  /** Distances to the chosen places never exceed the distance to any one of them. */
  lemma {:induction false} Nearest2AtMost(positions: seq<Point>, chosen: seq<nat>, i: nat, k: nat)
    requires InRange(chosen, |positions|) && i < |positions| && k < |chosen|
    ensures Nearest2(positions, chosen, i) <= Dist2(positions[i], positions[chosen[k]])
  {
    var m := |chosen| - 1;
    if k < m { Nearest2AtMost(positions, chosen[..m], i, k); }
  }

  /** Choosing more places brings them nearer. */
  lemma {:induction false} Nearest2Shrinks(positions: seq<Point>, chosen: seq<nat>, i: nat, k: nat)
    requires InRange(chosen, |positions|) && i < |positions| && 0 < k <= |chosen|
    ensures Nearest2(positions, chosen, i) <= Nearest2(positions, chosen[..k], i)
  {
    var m := |chosen| - 1;
    if k <= m {
      Nearest2Shrinks(positions, chosen[..m], i, k);
      assert chosen[..m][..k] == chosen[..k];
    } else {
      assert chosen[..k] == chosen;
    }
  }

  // ---------------------------------------------------------------------------------------------
  // Counting
  // ---------------------------------------------------------------------------------------------

  /** Of more than `m` numbers below `m`, two are equal. */
  lemma {:induction false} Pigeonhole(f: seq<nat>, m: nat) returns (a: nat, b: nat)
    requires |f| > m && InRange(f, m)
    ensures a < b < |f| && f[a] == f[b]
    decreases m
  {
    var last := |f| - 1;
    if k :| 0 <= k < last && f[k] == f[last] {
      return k, last;
    }
    // Renumber so that the value of the last element is free.
    var g := seq(last, k requires 0 <= k < last => if f[k] == m - 1 then f[last] else f[k]);
    a, b := Pigeonhole(g, m - 1);
  }

  function Without(chosen: seq<nat>, k: nat): (rest: seq<nat>)
    requires k < |chosen|
  {
    chosen[..k] + chosen[k + 1..]
  }

  /** A list holding every number below `n` is at least that long. */
  lemma {:induction false} AllPresent(chosen: seq<nat>, n: nat)
    requires forall i: nat :: i < n ==> i in chosen
    ensures |chosen| >= n
  {
    if n > 0 {
      assert n - 1 in chosen;
      var k :| 0 <= k < |chosen| && chosen[k] == n - 1;
      var rest := Without(chosen, k);
      forall i: nat | i < n - 1 ensures i in rest {
        assert i in chosen;
        var m :| 0 <= m < |chosen| && chosen[m] == i;
        assert if m < k then rest[m] == i else rest[m - 1] == i;
      }
      AllPresent(rest, n - 1);
    }
  }

  lemma SomeLeft(chosen: seq<nat>, n: nat) returns (i: nat)
    requires |chosen| < n
    ensures i < n && i !in chosen
  {
    if forall i': nat :: i' < n ==> i' in chosen {
      AllPresent(chosen, n);
    }
    i :| i < n && i !in chosen;
  }

  /** Different numbers below `n` are at most `n`. */
  lemma {:induction false} DistinctLength(chosen: seq<nat>, n: nat)
    requires Distinct(chosen) && InRange(chosen, n)
    ensures |chosen| <= n
  {
    if chosen != [] {
      assert chosen[0] < n;
      if k :| 0 <= k < |chosen| && chosen[k] == n - 1 {
        DistinctLength(Without(chosen, k), n - 1);
      } else {
        DistinctLength(chosen, n - 1);
      }
    }
  }

  lemma AllChosen(chosen: seq<nat>, n: nat, i: nat)
    requires |chosen| == n && Distinct(chosen) && InRange(chosen, n) && i < n
    ensures i in chosen
  {
    if i !in chosen {
      DistinctLength(chosen + [i], n);
    }
  }

  lemma GreedyIsDistinct(positions: seq<Point>, start: nat, order: seq<nat>)
    requires Greedy(positions, start, order)
    ensures Distinct(order)
  {
    forall a, b | 0 <= a < b < |order| ensures order[a] != order[b] {
      assert FarthestNext(positions, order[..b], order[b]);
      assert order[..b][a] == order[a];
    }
  }

  // ---------------------------------------------------------------------------------------------
  // The loop
  // ---------------------------------------------------------------------------------------------

  lemma GreedyGrows(positions: seq<Point>, start: nat, order: seq<nat>, c: nat)
    requires Greedy(positions, start, order) && FarthestNext(positions, order, c)
    ensures Greedy(positions, start, order + [c])
  {
    var next := order + [c];
    forall k | 0 < k < |next| ensures FarthestNext(positions, next[..k], next[k]) {
      assert next[..k] == order[..k];
      assert k == |order| ==> order[..k] == order;
    }
  }

  lemma LoweredIsNearest(positions: seq<Point>, chosen: seq<nat>, best: nat, i: nat)
    requires chosen != [] && InRange(chosen, |positions|) && best < |positions| && i < |positions|
    ensures Nearest2(positions, chosen + [best], i) ==
              Lowered(positions, best, false, Nearest2(positions, chosen, i), i)
  {
    assert (chosen + [best])[..|chosen|] == chosen;
  }

  lemma ScanIsFarthest(positions: seq<Point>, visited: seq<bool>, minDists: seq<real>, chosen: seq<nat>, best: nat)
    requires chosen != [] && InRange(chosen, |positions|)
    requires DistancesAre(positions, visited, minDists, chosen) && VisitedAre(visited, chosen)
    requires best < |positions| && !visited[best]
    requires forall i :: 0 <= i < |positions| && !visited[i] ==>
               minDists[i] <= minDists[best] && (i < best ==> minDists[i] < minDists[best])
    ensures FarthestNext(positions, chosen, best)
  { }

  method SelectOrder(positions: seq<Point>, start: nat) returns (selected: seq<nat>)
    requires start < |positions|
    ensures Greedy(positions, start, selected) && |selected| == |positions|
  {
    var n := |positions|;
    var visited := new bool[n](_ => false);
    visited[start] := true;
    selected := [start];
    var minDists := new real[n](i requires 0 <= i < n => Dist2(positions[i], positions[start]));
    forall i: nat | i < n ensures minDists[i] >= 0.0 { Dist2NonNegative(positions[i], positions[start]); }
    for k := 1 to n
      invariant |selected| == k && Greedy(positions, start, selected)
      invariant VisitedAre(visited[..], selected)
      invariant DistancesAre(positions, visited[..], minDists[..], selected)
      invariant forall i :: 0 <= i < n ==> minDists[i] >= 0.0
    {
      var best := PickFarthest(visited, minDists);
      ghost var left := SomeLeft(selected, n);
      assert !visited[..][left];
      if best == -1 { assert false; break; }
      ScanIsFarthest(positions, visited[..], minDists[..], selected, best);
      GreedyGrows(positions, start, selected, best);
      ghost var before := minDists[..];
      visited[best] := true;
      LowerDistances(positions, visited, minDists, best);
      KeptDistances(positions, visited[..], before, minDists[..], selected, best);
      selected := selected + [best];
    }
    GreedyIsDistinct(positions, start, selected);
    for i: nat := 0 to n
      invariant Greedy(positions, start, selected) && |selected| == n && Distinct(selected)
      invariant VisitedAre(visited[..], selected)
    {
      AllChosen(selected, n, i);
      if !visited[i] {
        selected := selected + [i];
      }
    }
  }

  /** After lowering, the kept distances are those to the enlarged choice. */
  lemma KeptDistances(positions: seq<Point>, visited: seq<bool>, before: seq<real>, after: seq<real>,
                      chosen: seq<nat>, best: nat)
    requires chosen != [] && InRange(chosen, |positions|) && best < |positions|
    requires |visited| == |before| == |after| == |positions|
    requires forall i: nat :: i < |positions| && !visited[i] ==> before[i] == Nearest2(positions, chosen, i)
    requires forall i :: 0 <= i < |positions| ==> before[i] >= 0.0
    requires forall i :: 0 <= i < |positions| ==> after[i] == Lowered(positions, best, visited[i], before[i], i)
    ensures DistancesAre(positions, visited, after, chosen + [best])
    ensures forall i :: 0 <= i < |positions| ==> after[i] >= 0.0
  {
    forall i: nat | i < |positions|
      ensures after[i] >= 0.0
      ensures !visited[i] ==> after[i] == Nearest2(positions, chosen + [best], i)
    {
      Dist2NonNegative(positions[i], positions[best]);
      LoweredIsNearest(positions, chosen, best, i);
    }
  }

  /** The places come in greedy order. */
  ghost predicate ComesAs(places: seq<Place>, startIdx: int, cosLat: real, ordered: seq<Place>, order: seq<nat>) {
    && |order| == |places| && InRange(order, |places|) && ordered == Select(places, order)
    && (places != [] ==> Greedy(Positions(places, cosLat), ClampStart(startIdx, |places|), order))
  }

  ghost predicate FarthestFirst(places: seq<Place>, startIdx: int, cosLat: real, ordered: seq<Place>) {
    exists order: seq<nat> :: ComesAs(places, startIdx, cosLat, ordered, order)
  }

  method FarthestPointOrder(places: seq<Place>, startIdx: int, cosLat: real) returns (ordered: seq<Place>)
    ensures |ordered| == |places| && FarthestFirst(places, startIdx, cosLat, ordered)
    ensures 0 <= startIdx < |places| ==> ordered[0] == places[startIdx]
    ensures startIdx < 0 && places != [] ==> ordered[0] == places[0]
    ensures startIdx >= |places| && places != [] ==> ordered[0] == places[|places| - 1]
    ensures multiset(ordered) == multiset(places)
  {
    var n := |places|;
    if n <= 1 {
      ghost var order: seq<nat> := seq(n, i => i);
      assert ComesAs(places, startIdx, cosLat, places, order);
      assert startIdx < 0 || startIdx >= n || startIdx == 0;
      return places;
    }
    var start := ClampStart(startIdx, n);
    var positions := Positions(places, cosLat);
    var selected := SelectOrder(positions, start);
    ordered := Select(places, selected);
    assert ComesAs(places, startIdx, cosLat, ordered, selected);
    OrderIsPermutation(positions, start, selected);
    SelectedAll(places, selected);
  }

  /** Every place is returned exactly once. */
  lemma OrderIsPermutation(positions: seq<Point>, start: nat, order: seq<nat>)
    requires Greedy(positions, start, order) && |order| == |positions|
    ensures Distinct(order) && forall i: nat :: i < |positions| ==> i in order
  {
    GreedyIsDistinct(positions, start, order);
    forall i: nat | i < |positions| ensures i in order { AllChosen(order, |positions|, i); }
  }

  lemma SelectWithout(places: seq<Place>, order: seq<nat>, k: nat)
    requires InRange(order, |places|) && k < |order|
    ensures InRange(Without(order, k), |places|)
    ensures multiset(Select(places, order)) == multiset(Select(places, Without(order, k))) + multiset{places[order[k]]}
  {
    var picked := Select(places, order);
    assert Select(places, Without(order, k)) == picked[..k] + picked[k + 1..];
    assert picked == picked[..k] + [picked[k]] + picked[k + 1..];
  }

  /** The order is of the first `n` places, each once. */
  ghost predicate OrderOf(order: seq<nat>, n: nat) {
    Distinct(order) && InRange(order, n) && forall i: nat :: i < n ==> i in order
  }

  lemma WithoutLast(order: seq<nat>, n: nat, k: nat)
    requires OrderOf(order, n) && k < |order| && order[k] == n - 1
    ensures OrderOf(Without(order, k), n - 1)
  {
    var rest := Without(order, k);
    assert forall m :: 0 <= m < |rest| ==> rest[m] == order[if m < k then m else m + 1];
    forall i: nat | i < n - 1 ensures i in rest {
      assert i in order;
      var m :| 0 <= m < |order| && order[m] == i;
      assert if m < k then rest[m] == i else rest[m - 1] == i;
    }
  }

  lemma OneMoreCounts(places: seq<Place>, n: nat)
    requires n < |places|
    ensures multiset(places[..n + 1]) == multiset(places[..n]) + multiset{places[n]}
  {
    assert places[..n + 1] == places[..n] + [places[n]];
  }

  lemma {:induction false} SelectedCounts(places: seq<Place>, order: seq<nat>, n: nat)
    requires OrderOf(order, n) && n <= |places|
    ensures multiset(Select(places, order)) == multiset(places[..n])
  {
    if n > 0 {
      assert n - 1 in order;
      var k :| 0 <= k < |order| && order[k] == n - 1;
      WithoutLast(order, n, k);
      SelectedCounts(places, Without(order, k), n - 1);
      SelectWithout(places, order, k);
      OneMoreCounts(places, n - 1);
    } else {
      DistinctLength(order, 0);
    }
  }

  /** An order of all the places neither loses nor repeats one. */
  lemma SelectedAll(places: seq<Place>, order: seq<nat>)
    requires OrderOf(order, |places|)
    ensures multiset(Select(places, order)) == multiset(places)
  {
    SelectedCounts(places, order, |places|);
    assert places[..|places|] == places;
  }

  /** The order is determined by the positions and the start. */
  lemma {:induction false} GreedyIsUnique(positions: seq<Point>, start: nat, a: seq<nat>, b: seq<nat>)
    requires Greedy(positions, start, a) && Greedy(positions, start, b) && |a| == |b|
    ensures a == b
  {
    var m := |a| - 1;
    if m > 0 {
      GreedyPrefix(positions, start, a, m);
      GreedyPrefix(positions, start, b, m);
      GreedyIsUnique(positions, start, a[..m], b[..m]);
      assert FarthestNext(positions, a[..m], a[m]) && FarthestNext(positions, a[..m], b[m]);
      assert a == a[..m] + [a[m]] && b == b[..m] + [b[m]];
    }
  }

  /** Of the places below `n` not chosen yet, if any, there is a first farthest one. */
  lemma {:induction false} FarthestBelow(positions: seq<Point>, chosen: seq<nat>, n: nat) returns (c: int)
    requires chosen != [] && InRange(chosen, |positions|) && n <= |positions|
    ensures -1 <= c < n && (c == -1 ==> forall i: nat :: i < n ==> i in chosen)
    ensures c >= 0 ==> c !in chosen && forall i: nat :: i < n && i !in chosen ==>
              var di, dc := Nearest2(positions, chosen, i), Nearest2(positions, chosen, c);
              di <= dc && (i < c ==> di < dc)
  {
    if n == 0 { return -1; }
    c := FarthestBelow(positions, chosen, n - 1);
    if n - 1 !in chosen && (c == -1 || Nearest2(positions, chosen, n - 1) > Nearest2(positions, chosen, c)) {
      c := n - 1;
    }
  }

  /** There is always an order. */
  lemma {:induction false} GreedyExists(positions: seq<Point>, start: nat, n: nat) returns (order: seq<nat>)
    requires start < |positions| && 0 < n <= |positions|
    ensures Greedy(positions, start, order) && |order| == n
  {
    if n == 1 { return [start]; }
    order := GreedyExists(positions, start, n - 1);
    var i := SomeLeft(order, |positions|);
    var c := FarthestBelow(positions, order, |positions|);
    GreedyGrows(positions, start, order, c);
    order := order + [c];
  }

  lemma GreedyPrefix(positions: seq<Point>, start: nat, order: seq<nat>, m: nat)
    requires Greedy(positions, start, order) && 0 < m <= |order|
    ensures Greedy(positions, start, order[..m])
  {
    forall k | 0 < k < m ensures FarthestNext(positions, order[..m][..k], order[..m][k]) {
      assert order[..m][..k] == order[..k];
    }
  }

  // ---------------------------------------------------------------------------------------------
  // The guarantee of every prefix
  // ---------------------------------------------------------------------------------------------

  lemma NotInShorter(order: seq<nat>, m: nat, k: nat, i: nat)
    requires m <= k <= |order| && i !in order[..k]
    ensures i !in order[..m]
  {
    assert order[..m] == order[..k][..m];
  }

  /** Each place is chosen no farther from its predecessors than the place before it was. */
  lemma InsertionDistancesFall(positions: seq<Point>, start: nat, order: seq<nat>, k: nat)
    requires Greedy(positions, start, order) && 0 < k && k + 1 < |order|
    ensures Nearest2(positions, order[..k + 1], order[k + 1]) <= Nearest2(positions, order[..k], order[k])
  {
    var c := order[k + 1];
    Nearest2Shrinks(positions, order[..k + 1], c, k);
    assert order[..k + 1][..k] == order[..k];
    assert FarthestNext(positions, order[..k + 1], c);
    NotInShorter(order, k, k + 1, c);
    assert FarthestNext(positions, order[..k], order[k]);
  }

  lemma Parallelogram(p: Point, q: Point, c: Point)
    ensures Dist2(p, q) <= 2.0 * Dist2(p, c) + 2.0 * Dist2(q, c)
  {
    ParallelogramCoordinate(p.x - c.x, q.x - c.x);
    ParallelogramCoordinate(p.y - c.y, q.y - c.y);
    assert (p.x - c.x) - (q.x - c.x) == p.x - q.x;
    assert (p.y - c.y) - (q.y - c.y) == p.y - q.y;
  }

  lemma ParallelogramCoordinate(u: real, v: real)
    ensures Square(u - v) <= 2.0 * Square(u) + 2.0 * Square(v)
  {
    SquarePositive(u + v, Square(u + v));
    assert Square(u - v) + Square(u + v) == 2.0 * Square(u) + 2.0 * Square(v);
  }

  /** Every place is within squared distance `r2` of some centre. */
  ghost predicate Covered(positions: seq<Point>, centers: seq<Point>, r2: real) {
    forall i: nat :: i < |positions| ==> exists c :: 0 <= c < |centers| && Dist2(positions[i], centers[c]) <= r2
  }

  ghost function CenterOf(positions: seq<Point>, centers: seq<Point>, r2: real, i: nat): (c: nat)
    requires Covered(positions, centers, r2) && i < |positions|
    ensures c < |centers| && Dist2(positions[i], centers[c]) <= r2
  {
    var c :| 0 <= c < |centers| && Dist2(positions[i], centers[c]) <= r2;
    c
  }

  /** Two places that share a centre are within twice the radius of each other. */
  lemma SharedCenter(positions: seq<Point>, centers: seq<Point>, r2: real, i: nat, j: nat)
    requires Covered(positions, centers, r2) && i < |positions| && j < |positions|
    requires CenterOf(positions, centers, r2, i) == CenterOf(positions, centers, r2, j)
    ensures Dist2(positions[i], positions[j]) <= 4.0 * r2
  {
    Parallelogram(positions[i], positions[j], centers[CenterOf(positions, centers, r2, i)]);
  }

  /** Any two members of a prefix bound how far any other place can be from the whole prefix. */
  lemma PairBoundsPrefix(positions: seq<Point>, start: nat, order: seq<nat>, k: nat, a: nat, b: nat, i: nat)
    requires Greedy(positions, start, order) && a < b < k <= |order| && i < |positions| && i !in order[..k]
    ensures Nearest2(positions, order[..k], i) <= Dist2(positions[order[b]], positions[order[a]])
  {
    Nearest2Shrinks(positions, order[..k], i, b);
    assert order[..k][..b] == order[..b];
    NotInShorter(order, b, k, i);
    assert FarthestNext(positions, order[..b], order[b]);
    Nearest2AtMost(positions, order[..b], order[b], a);
  }

  lemma ChosenIsNear(positions: seq<Point>, chosen: seq<nat>, i: nat)
    requires chosen != [] && InRange(chosen, |positions|) && i in chosen
    ensures Nearest2(positions, chosen, i) <= 0.0
  {
    var k :| 0 <= k < |chosen| && chosen[k] == i;
    Nearest2AtMost(positions, chosen, i, k);
  }

  /** The first `k` places cover all places within twice the radius that any `k` centres, placed
      anywhere in the plane, achieve: four times the squared radius. */
  lemma PrefixCovers(positions: seq<Point>, start: nat, order: seq<nat>, k: nat, centers: seq<Point>, r2: real, i: nat)
    requires Greedy(positions, start, order) && 0 < k <= |order|
    requires |centers| <= k && Covered(positions, centers, r2)
    requires i < |positions|
    ensures Nearest2(positions, order[..k], i) <= 4.0 * r2
  {
    var prefix := order[..k];
    Dist2NonNegative(positions[i], centers[CenterOf(positions, centers, r2, i)]);
    if i in prefix {
      ChosenIsNear(positions, prefix, i);
    } else {
      var witnesses := prefix + [i];
      var f := seq(k + 1, m requires 0 <= m <= k => CenterOf(positions, centers, r2, witnesses[m]));
      var a, b := Pigeonhole(f, |centers|);
      SharedCenter(positions, centers, r2, witnesses[b], witnesses[a]);
      if b == k {
        Nearest2AtMost(positions, prefix, i, a);
      } else {
        PairBoundsPrefix(positions, start, order, k, a, b, i);
      }
    }
  }

  lemma {:induction false} NearestIsAttained(positions: seq<Point>, chosen: seq<nat>, i: nat) returns (m: nat)
    requires chosen != [] && InRange(chosen, |positions|) && i < |positions|
    ensures m < |chosen| && Dist2(positions[i], positions[chosen[m]]) == Nearest2(positions, chosen, i)
  {
    m := |chosen| - 1;
    if m > 0 && Dist2(positions[i], positions[chosen[m]]) >= Nearest2(positions, chosen[..m], i) {
      m := NearestIsAttained(positions, chosen[..m], i);
    }
  }

  lemma PositionOfSelected(places: seq<Place>, cosLat: real, order: seq<nat>, j: nat)
    requires InRange(order, |places|) && j < |order|
    ensures Positions(Select(places, order), cosLat)[j] == Positions(places, cosLat)[order[j]]
  { }

  /** So a sample of the first `k` places returned has, for every place, one within twice the radius
      that any `k` centres achieve. */
  lemma SampleCovers(places: seq<Place>, startIdx: int, cosLat: real, ordered: seq<Place>,
                     k: nat, centers: seq<Point>, r2: real, i: nat) returns (j: nat)
    requires FarthestFirst(places, startIdx, cosLat, ordered) && 0 < k <= |places| && i < |places|
    requires |centers| <= k && Covered(Positions(places, cosLat), centers, r2)
    ensures |ordered| == |places| && j < k
    ensures Dist2(Positions(places, cosLat)[i], Positions(ordered, cosLat)[j]) <= 4.0 * r2
  {
    var order :| ComesAs(places, startIdx, cosLat, ordered, order);
    j := NearestOfPrefix(Positions(places, cosLat), ClampStart(startIdx, |places|), order, k, centers, r2, i);
    PositionOfSelected(places, cosLat, order, j);
  }

  lemma NearestOfPrefix(positions: seq<Point>, start: nat, order: seq<nat>, k: nat, centers: seq<Point>, r2: real,
                        i: nat)
      returns (j: nat)
    requires Greedy(positions, start, order) && 0 < k <= |order|
    requires |centers| <= k && Covered(positions, centers, r2) && i < |positions|
    ensures j < k && Dist2(positions[i], positions[order[j]]) <= 4.0 * r2
  {
    PrefixCovers(positions, start, order, k, centers, r2, i);
    j := NearestIsAttained(positions, order[..k], i);
  }
}
