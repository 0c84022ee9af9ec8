/**
 One measured city per cell of a grid over the map, at several zooms. Finer grids must keep showing the
 cities that coarser ones chose.
 */
module GridCells {
  import Planar
  import Sampling = FarthestPointSampling

  const STATE_SAMPLE_SIZE := 20

  /** There are four grids, from the coarsest to the finest; only the first three nest. */
  const LEVELS := 4
  const NESTED := 3

  /** The size of a cell, in degrees. */
  function Size(level: nat): real
    requires level < LEVELS
  {
    if level == 0 then 1.0 else if level == 1 then 0.5 else if level == 2 then 0.25 else 0.1
  }

  /** How many cells a coordinate is away from zero, rounded down. */
  function Steps(v: real, level: nat): (steps: int)
    requires level < LEVELS
  {
    var cells :=
      if level == 0 then v / 1.0 else if level == 1 then v / 0.5 else if level == 2 then v / 0.25 else v / 0.1;
    cells.Floor
  }

  /** A city; codes all have as many digits, so that they compare as numbers. */
  datatype Point = Point(code: nat, lat: real, lon: real)

  datatype Cell = Cell(row: int, column: int)

  function CellOf(p: Point, level: nat): Cell
    requires level < LEVELS
  {
    Cell(Steps(p.lat, level), Steps(p.lon, level))
  }

  /** Squared distance to the centre of the cell. */
  function OffCentre(p: Point, level: nat): real
    requires level < LEVELS
  {
    var cell, size := CellOf(p, level), Size(level);
    var dLat, dLon := p.lat - (cell.row as real + 0.5) * size, p.lon - (cell.column as real + 0.5) * size;
    Planar.Square(dLat) + Planar.Square(dLon)
  }

  /** The cities preferred over the others: those of the sample, and then those chosen on coarser grids. */
  datatype Preferred = Preferred(sample: set<nat>, coarser: set<nat>)

  function Priority(p: Point, preferred: Preferred): nat {
    if p.code in preferred.sample then 0 else if p.code in preferred.coarser then 1 else 2
  }

  /** Ranks compare by priority, then by distance, then by code. */
  predicate Before(p: Point, q: Point, level: nat, preferred: Preferred)
    requires level < LEVELS
  {
    var a, b := Priority(p, preferred), Priority(q, preferred);
    var d, e := OffCentre(p, level), OffCentre(q, level);
    a < b || (a == b && (d < e || (d == e && p.code < q.code)))
  }

  function Elected(points: seq<Point>, level: nat, preferred: Preferred): map<Cell, Point>
    requires level < LEVELS
  {
    if points == [] then map[] else
    var before, p := Elected(points[..|points| - 1], level, preferred), points[|points| - 1];
    var cell := CellOf(p, level);
    if cell !in before || Before(p, before[cell], level, preferred) then before[cell := p] else before
  }

  function Codes(best: map<Cell, Point>): map<Cell, nat> { map cell | cell in best :: best[cell].code }

  function Chosen(best: map<Cell, Point>): set<nat> { set cell | cell in best :: best[cell].code }

  lemma ChosenCodes(best: map<Cell, Point>)
    ensures Codes(best).Values == Chosen(best)
  {
    forall code | code in Chosen(best) ensures code in Codes(best).Values {
      var cell :| cell in best && best[cell].code == code;
      assert Codes(best)[cell] == code;
    }
  }

  /** The representatives at one level, given the sample. */
  function Representatives(points: seq<Point>, sample: set<nat>, level: nat): map<Cell, Point>
    requires level < LEVELS
    decreases level, 1
  {
    Elected(points, level, Preferred(sample, Coarser(points, sample, level)))
  }

  function Coarser(points: seq<Point>, sample: set<nat>, level: nat): set<nat>
    requires level <= LEVELS
    decreases level, 0
  {
    if level == 0 then {}
    else Coarser(points, sample, level - 1) + Chosen(Representatives(points, sample, level - 1))
  }

  function Sample(points: seq<Point>): set<nat> {
    var size := if |points| < STATE_SAMPLE_SIZE then |points| else STATE_SAMPLE_SIZE;
    set p | p in points[..size] :: p.code
  }

  // ---------------------------------------------------------------------------------------------
  // The computation
  // ---------------------------------------------------------------------------------------------

  class Atlas {
    /** The cities of each state, in the order in which they are sampled. */
    const geography: map<string, seq<Point>>
    var cached: map<(string, nat), map<Cell, nat>>

    constructor (geography: map<string, seq<Point>>)
      ensures Valid() && cached == map[]
    {
      this.geography := geography;
      cached := map[];
    }

    ghost predicate Valid()
      reads this
    {
      forall state, level :: (state, level) in cached ==>
        && state in geography && level < LEVELS
        && cached[(state, level)] == Codes(Representatives(geography[state], Sample(geography[state]), level))
    }

    method CellRepresentatives(state: string, level: nat) returns (codes: map<Cell, nat>)
      requires Valid() && state in geography && level < LEVELS
      modifies this`cached
      ensures Valid()
      ensures codes == Codes(Representatives(geography[state], Sample(geography[state]), level))
      decreases level
    {
      if (state, level) in cached { return cached[(state, level)]; }
      var points := geography[state];
      var sample := Sample(points);
      var coarser := {};
      for larger := 0 to level
        invariant Valid() && coarser == Coarser(points, sample, larger)
      {
        var found := CellRepresentatives(state, larger);
        ChosenCodes(Representatives(points, sample, larger));
        coarser := coarser + found.Values;
      }
      var best := Elect(points, level, Preferred(sample, coarser));
      codes := map cell | cell in best :: best[cell].code;
      cached := cached[(state, level) := codes];
    }
  }

  method Elect(points: seq<Point>, level: nat, preferred: Preferred) returns (best: map<Cell, Point>)
    requires level < LEVELS
    ensures best == Elected(points, level, preferred)
  {
    best := map[];
    for i := 0 to |points|
      invariant best == Elected(points[..i], level, preferred)
    {
      assert points[..i + 1][..i] == points[..i];
      var cell := CellOf(points[i], level);
      if cell !in best || Before(points[i], best[cell], level, preferred) {
        best := best[cell := points[i]];
      }
    }
    assert points[..|points|] == points;
  }

  // ---------------------------------------------------------------------------------------------
  // One representative per occupied cell
  // ---------------------------------------------------------------------------------------------

  ghost predicate UniqueCodes(points: seq<Point>) {
    forall i, j :: 0 <= i < j < |points| ==> points[i].code != points[j].code
  }

  ghost predicate IsBest(p: Point, points: seq<Point>, level: nat, preferred: Preferred)
    requires level < LEVELS
  {
    p in points && forall q :: q in points && CellOf(q, level) == CellOf(p, level) ==> !Before(q, p, level, preferred)
  }

  /** Exactly the occupied cells have a representative: a city of the cell that no other city of the
      cell precedes. */
  lemma {:induction false} ElectedAreBest(points: seq<Point>, level: nat, preferred: Preferred)
    requires level < LEVELS
    ensures var best := Elected(points, level, preferred);
            && (forall p :: p in points ==> CellOf(p, level) in best)
            && (forall cell :: cell in best ==>
                 CellOf(best[cell], level) == cell && IsBest(best[cell], points, level, preferred))
  {
    if points != [] {
      var front, last := points[..|points| - 1], points[|points| - 1];
      ElectedAreBest(front, level, preferred);
      assert points == front + [last];
    }
  }

  /** The corners of a cell: halves of their sums are its centre. */
  function Corner(cell: Cell, level: nat): Planar.Point
    requires level < LEVELS
  {
    Planar.Point(cell.row as real * Size(level), cell.column as real * Size(level))
  }

  function Centre(cell: Cell, level: nat): Planar.Point
    requires level < LEVELS
  {
    var near, far := Corner(cell, level), Corner(Cell(cell.row + 1, cell.column + 1), level);
    Planar.Point((near.x + far.x) / 2.0, (near.y + far.y) / 2.0)
  }

  function Place(p: Point): Planar.Point { Planar.Point(p.lat, p.lon) }

  /** A city lies in its cell, which has the size of its level on either side. */
  lemma InItsCell(p: Point, level: nat)
    requires level < LEVELS
    ensures var near, far := Corner(CellOf(p, level), level), Place(p);
            near.x <= far.x < near.x + Size(level) && near.y <= far.y < near.y + Size(level)
  { }

  /** Off the centre means far from it, north or south as well as east or west. */
  lemma OffCentreIsDistance(p: Point, level: nat)
    requires level < LEVELS
    ensures OffCentre(p, level) == Planar.Dist2(Place(p), Centre(CellOf(p, level), level))
  {
    var cell, size, centre := CellOf(p, level), Size(level), Centre(CellOf(p, level), level);
    HalfWay(cell.row, size);
    HalfWay(cell.column, size);
    assert p.lat - (cell.row as real + 0.5) * size == p.lat - centre.x;
    assert p.lon - (cell.column as real + 0.5) * size == p.lon - centre.y;
  }

  lemma HalfWay(steps: int, size: real)
    ensures (steps as real * size + (steps + 1) as real * size) / 2.0 == (steps as real + 0.5) * size
  { }

  /** Among cities of a cell that are preferred alike, none is nearer to its centre than the representative,
      and none as near has a smaller code. */
  lemma NearestRepresents(points: seq<Point>, level: nat, preferred: Preferred, q: Point)
    requires level < LEVELS && q in points
    ensures var best := Elected(points, level, preferred);
            CellOf(q, level) in best &&
            var p, centre := best[CellOf(q, level)], Centre(CellOf(q, level), level);
            && CellOf(p, level) == CellOf(q, level)
            && (q.code in preferred.sample ==> p.code in preferred.sample)
            && (q.code in preferred.coarser ==> p.code in preferred.sample || p.code in preferred.coarser)
            && ((p.code in preferred.sample <==> q.code in preferred.sample)
                && (p.code in preferred.sample || (p.code in preferred.coarser <==> q.code in preferred.coarser)) ==>
                  && Planar.Dist2(Place(p), centre) <= Planar.Dist2(Place(q), centre)
                  && (Planar.Dist2(Place(p), centre) == Planar.Dist2(Place(q), centre) ==> p.code <= q.code))
  {
    ElectedAreBest(points, level, preferred);
    OffCentreIsDistance(q, level);
    OffCentreIsDistance(Elected(points, level, preferred)[CellOf(q, level)], level);
  }

  /** The sample is of the first twenty cities, or of all if there are fewer. */
  lemma SampleIsPrefix(points: seq<Point>, code: nat)
    ensures code in Sample(points) <==> exists i :: 0 <= i < |points| && i < 20 && points[i].code == code
  {
    var size := if |points| < 20 then |points| else 20;
    assert forall i :: 0 <= i < size ==> points[..size][i] == points[i];
  }

  /** The cities preferred for having been chosen are those that represent a cell of a coarser grid. */
  lemma {:induction false} CoarserAre(points: seq<Point>, sample: set<nat>, level: nat, code: nat)
    requires level <= LEVELS
    ensures code in Coarser(points, sample, level) <==>
              exists coarse: nat, cell :: coarse < level && cell in Representatives(points, sample, coarse) &&
                Representatives(points, sample, coarse)[cell].code == code
  {
    if level > 0 {
      CoarserAre(points, sample, level - 1, code);
    }
  }

  /** With distinct codes there is only one best city in a cell. */
  lemma BestIsUnique(points: seq<Point>, level: nat, preferred: Preferred, p: Point, q: Point)
    requires level < LEVELS && UniqueCodes(points)
    requires IsBest(p, points, level, preferred) && IsBest(q, points, level, preferred)
    requires CellOf(p, level) == CellOf(q, level)
    ensures p == q
  {
    assert p.code == q.code;
  }

  /** The order of the cities does not matter. */
  lemma ElectionIgnoresOrder(a: seq<Point>, b: seq<Point>, level: nat, preferred: Preferred)
    requires level < LEVELS && UniqueCodes(a) && forall p :: p in a <==> p in b
    ensures Elected(a, level, preferred) == Elected(b, level, preferred)
  {
    var x, y := Elected(a, level, preferred), Elected(b, level, preferred);
    ElectedAreBest(a, level, preferred);
    ElectedAreBest(b, level, preferred);
    forall cell | cell in x ensures cell in y && x[cell] == y[cell] {
      BestIsUnique(a, level, preferred, x[cell], y[cell]);
    }
  }

  lemma {:induction false} OrderDoesNotMatter(a: seq<Point>, b: seq<Point>, sample: set<nat>, level: nat)
    requires level < LEVELS && UniqueCodes(a) && forall p :: p in a <==> p in b
    ensures Representatives(a, sample, level) == Representatives(b, sample, level)
    ensures Coarser(a, sample, level) == Coarser(b, sample, level)
  {
    if level > 0 { OrderDoesNotMatter(a, b, sample, level - 1); }
    ElectionIgnoresOrder(a, b, level, Preferred(sample, Coarser(a, sample, level)));
  }

  // ---------------------------------------------------------------------------------------------
  // Refining the grid
  // ---------------------------------------------------------------------------------------------

  /** Two cells of a nested grid make one of the next coarser. */
  lemma StepsHalve(v: real, fine: nat)
    requires 0 < fine < NESTED
    ensures Steps(v, fine - 1) == Steps(v, fine) / 2
  { }

  /** Cities in the same cell are in the same cell of every coarser nested grid. */
  lemma {:induction false} CellsNest(p: Point, q: Point, coarse: nat, fine: nat)
    requires coarse <= fine < NESTED && CellOf(p, fine) == CellOf(q, fine)
    ensures CellOf(p, coarse) == CellOf(q, coarse)
  {
    if coarse < fine {
      StepsHalve(p.lat, fine);
      StepsHalve(p.lon, fine);
      StepsHalve(q.lat, fine);
      StepsHalve(q.lon, fine);
      CellsNest(p, q, coarse, fine - 1);
    }
  }

  ghost predicate Represents(p: Point, points: seq<Point>, sample: set<nat>, level: nat)
    requires level < LEVELS
  {
    var best := Representatives(points, sample, level);
    CellOf(p, level) in best && best[CellOf(p, level)] == p
  }

  lemma CoarserHas(points: seq<Point>, sample: set<nat>, coarse: nat, fine: nat, p: Point)
    requires coarse < fine <= LEVELS && Represents(p, points, sample, coarse)
    ensures p.code in Coarser(points, sample, fine)
  {
    if coarse < fine - 1 { CoarserHas(points, sample, coarse, fine - 1, p); }
  }

  lemma {:induction false} CoarserFrom(points: seq<Point>, sample: set<nat>, fine: nat, w: Point) returns (level: nat)
    requires fine <= LEVELS && UniqueCodes(points) && w in points && w.code in Coarser(points, sample, fine)
    ensures level < fine && Represents(w, points, sample, level)
  {
    level := fine - 1;
    var best := Representatives(points, sample, level);
    if w.code in Chosen(best) {
      var cell :| cell in best && best[cell].code == w.code;
      ElectedAreBest(points, level, Preferred(sample, Coarser(points, sample, level)));
      assert best[cell] == w;
    } else {
      level := CoarserFrom(points, sample, fine - 1, w);
    }
  }

  lemma RepresentativeIsBest(p: Point, points: seq<Point>, sample: set<nat>, level: nat)
    requires level < LEVELS && Represents(p, points, sample, level)
    ensures p in points
    ensures forall q :: q in points && CellOf(q, level) == CellOf(p, level) ==>
              !Before(q, p, level, Preferred(sample, Coarser(points, sample, level)))
    ensures forall q :: q in points && CellOf(q, level) == CellOf(p, level) && p.code !in sample ==> q.code !in sample
  {
    ElectedAreBest(points, level, Preferred(sample, Coarser(points, sample, level)));
  }

  /** A city chosen on a coarse grid without being in the sample is chosen again, in its own cell, on
      every finer nested grid. */
  lemma {:induction false} RefiningKeeps(p: Point, points: seq<Point>, sample: set<nat>, coarse: nat, fine: nat)
    requires coarse < fine < NESTED && UniqueCodes(points)
    requires Represents(p, points, sample, coarse) && p.code !in sample
    ensures Represents(p, points, sample, fine)
    decreases fine
  {
    RepresentativeIsBest(p, points, sample, coarse);
    ElectedAreBest(points, fine, Preferred(sample, Coarser(points, sample, fine)));
    var w := Representatives(points, sample, fine)[CellOf(p, fine)];
    RepresentativeIsBest(w, points, sample, fine);
    CoarserHas(points, sample, coarse, fine, p);
    CellsNest(p, w, coarse, fine);
    var level := CoarserFrom(points, sample, fine, w);
    SameOnBoth(p, w, points, sample, coarse, level, fine);
  }

  /** Two such cities in the same fine cell are one and the same. */
  lemma {:induction false} SameOnBoth(p: Point, w: Point, points: seq<Point>, sample: set<nat>, coarse: nat,
                                      level: nat, fine: nat)
    requires coarse < fine < NESTED && level < fine && UniqueCodes(points)
    requires Represents(p, points, sample, coarse) && p.code !in sample
    requires Represents(w, points, sample, level) && w.code !in sample
    requires CellOf(p, fine) == CellOf(w, fine)
    ensures p == w
    decreases fine, 0
  {
    CellsNest(p, w, coarse, fine);
    CellsNest(p, w, level, fine);
    if level < coarse {
      RefiningKeeps(w, points, sample, level, coarse);
    } else if coarse < level {
      RefiningKeeps(p, points, sample, coarse, level);
    }
  }

  /** A cell with a city of the sample is represented by one. */
  lemma SampleComesFirst(p: Point, points: seq<Point>, sample: set<nat>, level: nat)
    requires level < LEVELS && p in points && p.code in sample
    ensures CellOf(p, level) in Representatives(points, sample, level)
    ensures Representatives(points, sample, level)[CellOf(p, level)].code in sample
  {
    ElectedAreBest(points, level, Preferred(sample, Coarser(points, sample, level)));
  }

  // ---------------------------------------------------------------------------------------------
  // The finest grid
  // ---------------------------------------------------------------------------------------------

  const TENTHS := 3

  /** Nearer to the centre of the cell, or as near with a smaller code. */
  predicate Nearer(p: Point, q: Point, level: nat)
    requires level < LEVELS
  {
    OffCentre(p, level) < OffCentre(q, level) || (OffCentre(p, level) == OffCentre(q, level) && p.code < q.code)
  }

  /** The cells of a tenth of a degree do not nest in those of a quarter. There, a city chosen on a
      coarser grid is chosen again exactly when no city of the sample shares its cell, and no city nearer
      to the centre that a coarser grid chose as well. */
  lemma KeptOnTenths(p: Point, points: seq<Point>, sample: set<nat>, coarse: nat)
    requires coarse < TENTHS && UniqueCodes(points)
    requires Represents(p, points, sample, coarse) && p.code !in sample
    ensures Represents(p, points, sample, TENTHS) <==>
              forall q :: q in points && q != p && CellOf(q, TENTHS) == CellOf(p, TENTHS) ==>
                q.code !in sample && (q.code in Coarser(points, sample, TENTHS) ==> Nearer(p, q, TENTHS))
  {
    var preferred := Preferred(sample, Coarser(points, sample, TENTHS));
    RepresentativeIsBest(p, points, sample, coarse);
    CoarserHas(points, sample, coarse, TENTHS, p);
    ElectedAreBest(points, TENTHS, preferred);
    var w := Representatives(points, sample, TENTHS)[CellOf(p, TENTHS)];
    if w == p {
      forall q | q in points && q != p && CellOf(q, TENTHS) == CellOf(p, TENTHS)
        ensures q.code !in sample && (q.code in preferred.coarser ==> Nearer(p, q, TENTHS))
      {
        assert !Before(q, p, TENTHS, preferred) && q.code != p.code;
      }
    } else {
      assert !Before(p, w, TENTHS, preferred) && w.code != p.code;
    }
  }

  const LEFT := Point(200, 0.24, 0.05)
  const RIGHT := Point(201, 0.26, 0.05)

  /** A state with twenty cities a degree apart, and two, close together, between the capital and the border; in
      order of their codes. */
  function Cities(): (cities: seq<Point>)
    ensures |cities| == STATE_SAMPLE_SIZE + 2
    ensures forall i :: 0 <= i < STATE_SAMPLE_SIZE ==> cities[i] == Point(100 + i, 0.74 + i as real, 0.05)
    ensures cities[STATE_SAMPLE_SIZE] == LEFT && cities[STATE_SAMPLE_SIZE + 1] == RIGHT
  {
    seq(STATE_SAMPLE_SIZE, (i: nat) => Point(100 + i, 0.74 + i as real, 0.05)) + [LEFT, RIGHT]
  }

  function Positions(cosLat: real): (positions: seq<Planar.Point>)
    ensures |positions| == STATE_SAMPLE_SIZE + 2
    ensures forall i :: 0 <= i < |positions| ==> positions[i] == Planar.Point(Cities()[i].lat, 0.05 * cosLat)
  {
    seq(|Cities()|, i requires 0 <= i < |Cities()| => Planar.Point(Cities()[i].lat, 0.05 * cosLat))
  }

  lemma Apart(cosLat: real, i: nat, j: nat)
    requires i < STATE_SAMPLE_SIZE && j < STATE_SAMPLE_SIZE + 2
    ensures i != j && j < STATE_SAMPLE_SIZE ==> Planar.Dist2(Positions(cosLat)[i], Positions(cosLat)[j]) >= 1.0
    ensures j >= STATE_SAMPLE_SIZE ==> Planar.Dist2(Positions(cosLat)[j], Positions(cosLat)[0]) < 1.0
  {
    if i != j && j < STATE_SAMPLE_SIZE {
      var gap := (if i < j then j - i else i - j) as real;
      assert gap >= 1.0;
      assert gap * gap >= 1.0;
    }
  }

  lemma {:induction false} FarFromChosen(cosLat: real, chosen: seq<nat>, i: nat)
    requires chosen != [] && i < STATE_SAMPLE_SIZE && i !in chosen
    requires forall k :: 0 <= k < |chosen| ==> chosen[k] < STATE_SAMPLE_SIZE
    ensures Sampling.Nearest2(Positions(cosLat), chosen, i) >= 1.0
  {
    var m := |chosen| - 1;
    Apart(cosLat, i, chosen[m]);
    if m > 0 { FarFromChosen(cosLat, chosen[..m], i); }
  }

  /** From the capital on, the twenty cities come before the two, which are nearer to it than any of
      them to another. */
  lemma {:induction false} PairComesLast(cosLat: real, order: seq<nat>, k: nat)
    requires Sampling.Greedy(Positions(cosLat), 0, order) && k < |order| && k < STATE_SAMPLE_SIZE
    ensures forall j :: 0 <= j <= k ==> order[j] < STATE_SAMPLE_SIZE
  {
    if k > 0 {
      PairComesLast(cosLat, order, k - 1);
      var chosen := order[..k];
      assert Sampling.FarthestNext(Positions(cosLat), chosen, order[k]);
      if order[k] >= STATE_SAMPLE_SIZE {
        var i := Sampling.SomeLeft(chosen, STATE_SAMPLE_SIZE);
        FarFromChosen(cosLat, chosen, i);
        Sampling.Nearest2AtMost(Positions(cosLat), chosen, order[k], 0);
        Apart(cosLat, 0, order[k]);
        assert false;
      }
    }
  }

  /** The cities in the order in which they are sampled. */
  ghost predicate Sampled(points: seq<Point>, cosLat: real, order: seq<nat>) {
    && Sampling.Greedy(Positions(cosLat), 0, order) && |order| == |Cities()|
    && points == Planar.Select(Cities(), order)
  }

  lemma SampledMembers(points: seq<Point>, cosLat: real, order: seq<nat>)
    requires Sampled(points, cosLat, order)
    ensures LEFT in points && RIGHT in points && forall p :: p in points ==> p in Cities()
  {
    Sampling.OrderIsPermutation(Positions(cosLat), 0, order);
    assert STATE_SAMPLE_SIZE in order && STATE_SAMPLE_SIZE + 1 in order;
    var l :| 0 <= l < |order| && order[l] == STATE_SAMPLE_SIZE;
    var r :| 0 <= r < |order| && order[r] == STATE_SAMPLE_SIZE + 1;
    assert points[l] == LEFT && points[r] == RIGHT;
  }

  lemma SampledCodes(points: seq<Point>, cosLat: real, order: seq<nat>)
    requires Sampled(points, cosLat, order)
    ensures UniqueCodes(points)
    ensures forall code :: code in Sample(points) ==> code < LEFT.code
  {
    Sampling.OrderIsPermutation(Positions(cosLat), 0, order);
    PairComesLast(cosLat, order, STATE_SAMPLE_SIZE - 1);
    assert forall i, j :: 0 <= i < j < |Cities()| ==> Cities()[i].code != Cities()[j].code;
  }

  lemma SquareOfOpposite(v: real)
    ensures Planar.Square(-v) == Planar.Square(v)
  { }

  lemma PairIsEven()
    ensures CellOf(LEFT, TENTHS) == CellOf(RIGHT, TENTHS) == Cell(2, 0)
    ensures OffCentre(LEFT, TENTHS) == OffCentre(RIGHT, TENTHS)
  {
    SquareOfOpposite(RIGHT.lat - 0.25);
    assert LEFT.lat - 0.25 == -(RIGHT.lat - 0.25);
  }

  lemma PairCells()
    ensures CellOf(LEFT, 2) == Cell(0, 0) && CellOf(RIGHT, 2) == Cell(1, 0)
    ensures forall p :: p in Cities() && p != LEFT && p != RIGHT ==> CellOf(p, 2).row >= 2
  {
    forall p | p in Cities() && p != LEFT && p != RIGHT ensures CellOf(p, 2).row >= 2 {
      assert p.lat >= 0.74;
    }
  }

  lemma AloneRepresents(p: Point, points: seq<Point>, sample: set<nat>)
    requires p in points && forall q :: q in points && CellOf(q, 2) == CellOf(p, 2) ==> q == p
    ensures Represents(p, points, sample, 2)
  {
    ElectedAreBest(points, 2, Preferred(sample, Coarser(points, sample, 2)));
  }

  /** Outside the sample of its state, a city chosen on the grid of quarters, and dropped on that of tenths. */
  lemma TenthsDropSome(cosLat: real) returns (points: seq<Point>, order: seq<nat>)
    ensures Sampled(points, cosLat, order) && UniqueCodes(points) && RIGHT.code !in Sample(points)
    ensures Represents(RIGHT, points, Sample(points), 2) && !Represents(RIGHT, points, Sample(points), TENTHS)
  {
    order := Sampling.GreedyExists(Positions(cosLat), 0, |Cities()|);
    points := Planar.Select(Cities(), order);
    var sample := Sample(points);
    SampledMembers(points, cosLat, order);
    SampledCodes(points, cosLat, order);
    PairCells();
    PairIsEven();
    AloneRepresents(LEFT, points, sample);
    AloneRepresents(RIGHT, points, sample);
    CoarserHas(points, sample, 2, TENTHS, LEFT);
    KeptOnTenths(RIGHT, points, sample, 2);
  }
}
