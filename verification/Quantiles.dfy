/**
 Quantile classes of the values of an indicator. Values, like the breaks between classes, are whole
 numbers of millionths; percentiles fall between them and are rounded.
 */
module Quantiles {
  import opened Options

  const CLASSES := 10

  ghost predicate Ascending(s: seq<int>) {
    forall i, j :: 0 <= i < j < |s| ==> s[i] <= s[j]
  }

  function Insert(s: seq<int>, v: int): seq<int> {
    if s == [] || v <= s[0] then [v] + s else [s[0]] + Insert(s[1..], v)
  }

  /** The values that are present, in ascending order. */
  function Sorted(values: seq<Option<int>>): seq<int> {
    if values == [] then []
    else if values[0].None? then Sorted(values[1..])
    else Insert(Sorted(values[1..]), values[0].value)
  }

  /** Tenths rounded to a whole number, halves to the even one. */
  function HalfEven(tenths: int): int {
    var whole, rest := tenths / 10, tenths % 10;
    if rest < 5 || (rest == 5 && whole % 2 == 0) then whole else whole + 1
  }

  /** Ten times the value at a position, in tenths, of a sorted sequence: interpolated between neighbours. */
  function Interpolated(s: seq<int>, position: nat): int
    requires position <= 10 * (|s| - 1)
  {
    var lower := position / 10;
    var upper := if lower + 1 < |s| then lower + 1 else |s| - 1;
    10 * s[lower] + (s[upper] - s[lower]) * (position % 10)
  }

  lemma Scaled(d: nat, w: nat, x: nat)
    requires w <= x
    ensures d * w <= d * x
  { }

  /** Where a class ends among so many values, in tenths. */
  function Position(count: nat, i: nat): (position: nat)
    requires count > 0 && i < CLASSES
  {
    (i + 1) * (count - 1)
  }

  lemma PositionAscends(count: nat, i: nat, j: nat)
    requires count > 0 && i <= j < CLASSES
    ensures Position(count, i) <= Position(count, j) <= 10 * (count - 1)
  {
    Scaled(count - 1, i + 1, j + 1);
    Scaled(count - 1, j + 1, 10);
  }

  /** Ten times the percentile that ends a class. */
  function Percentile(s: seq<int>, i: nat): int
    requires s != [] && i < CLASSES
  {
    PositionAscends(|s|, i, i);
    if |s| == 1 then 10 * s[0] else Interpolated(s, Position(|s|, i))
  }

  datatype Distribution = Distribution(min: int, max: int, count: nat, missing: nat, breaks: seq<int>)

  function Describe(values: seq<Option<int>>): Option<Distribution> {
    var present := Sorted(values);
    if present == [] then None
    else
      SortedSize(values);
      var max := present[|present| - 1];
      var breaks := seq(CLASSES, i requires 0 <= i < CLASSES => HalfEven(Percentile(present, i)));
      Some(Distribution(present[0], max, |present|, |values| - |present|, breaks[CLASSES - 1 := max]))
  }

  /** How many leading elements are less than a value: where it would be inserted, to the left. */
  function BisectLeft(s: seq<int>, v: int): (i: nat)
    ensures i <= |s|
  {
    if s == [] || v <= s[0] then 0 else 1 + BisectLeft(s[1..], v)
  }

  function ClassIndex(d: Distribution, v: int): int {
    var i := BisectLeft(d.breaks, v);
    if i < |d.breaks| then i else |d.breaks| - 1
  }

  // ---------------------------------------------------------------------------------------------
  // Sorting
  // ---------------------------------------------------------------------------------------------

  /** How many values there are, up to a bound. */
  function UpTo(s: seq<int>, bound: int): nat {
    if s == [] then 0 else UpTo(s[1..], bound) + if s[0] <= bound then 1 else 0
  }

  /** How many of the given values fall in the classes up to one. */
  function InClasses(d: Distribution, values: seq<Option<int>>, i: int): nat {
    if values == [] then 0
    else InClasses(d, values[1..], i) + if values[0].Some? && ClassIndex(d, values[0].value) <= i then 1 else 0
  }

  lemma {:induction false} InsertFacts(s: seq<int>, v: int, bound: int)
    requires Ascending(s)
    ensures Ascending(Insert(s, v)) && |Insert(s, v)| == |s| + 1
    ensures UpTo(Insert(s, v), bound) == UpTo(s, bound) + if v <= bound then 1 else 0
    ensures Insert(s, v)[0] == if s == [] || v <= s[0] then v else s[0]
  {
    if s == [] || v <= s[0] {
      assert ([v] + s)[1..] == s;
    } else {
      InsertFacts(s[1..], v, bound);
      var rest := Insert(s[1..], v);
      assert ([s[0]] + rest)[1..] == rest;
      assert s[0] <= rest[0];
    }
  }

  lemma {:induction false} SortedSize(values: seq<Option<int>>)
    ensures |Sorted(values)| <= |values|
  {
    if values != [] {
      SortedSize(values[1..]);
      SortedAscends(values[1..]);
      if values[0].Some? { InsertFacts(Sorted(values[1..]), values[0].value, 0); }
    }
  }

  lemma {:induction false} SortedAscends(values: seq<Option<int>>)
    ensures Ascending(Sorted(values))
  {
    if values != [] {
      SortedAscends(values[1..]);
      if values[0].Some? { InsertFacts(Sorted(values[1..]), values[0].value, 0); }
    }
  }

  lemma {:induction false} SortedIsComplete(values: seq<Option<int>>, k: nat)
    requires k < |values| && values[k].Some?
    ensures values[k].value in Sorted(values)
  {
    if k == 0 {
      Inserted(Sorted(values[1..]), values[0].value, values[0].value);
    } else {
      SortedIsComplete(values[1..], k - 1);
      if values[0].Some? { Inserted(Sorted(values[1..]), values[0].value, values[k].value); }
    }
  }

  lemma {:induction false} Inserted(s: seq<int>, v: int, w: int)
    requires w == v || w in s
    ensures w in Insert(s, v)
  {
    if s != [] && v > s[0] && w != s[0] { Inserted(s[1..], v, w); }
  }

  // ---------------------------------------------------------------------------------------------
  // Breaks
  // ---------------------------------------------------------------------------------------------

  lemma HalfEvenAscends(t: int, u: int)
    requires t <= u
    ensures HalfEven(t) <= HalfEven(u)
  { }

  /** Interpolated values lie between their neighbours, and go up with the position. */
  lemma InterpolatedBounds(s: seq<int>, position: nat)
    requires Ascending(s) && position <= 10 * (|s| - 1)
    ensures 10 * s[position / 10] <= Interpolated(s, position)
    ensures position / 10 + 1 < |s| ==> Interpolated(s, position) <= 10 * s[position / 10 + 1]
  {
    var lower := position / 10;
    if lower + 1 < |s| {
      var d := s[lower + 1] - s[lower];
      Scaled(d, 0, position % 10);
      Scaled(d, position % 10, 10);
    }
  }

  lemma InterpolatedAscends(s: seq<int>, p: nat, q: nat)
    requires Ascending(s) && p <= q <= 10 * (|s| - 1)
    ensures Interpolated(s, p) <= Interpolated(s, q)
  {
    InterpolatedBounds(s, p);
    InterpolatedBounds(s, q);
    if p / 10 == q / 10 && p / 10 + 1 < |s| {
      Scaled(s[p / 10 + 1] - s[p / 10], p % 10, q % 10);
    }
  }

  lemma PercentileAscends(s: seq<int>, i: nat, j: nat)
    requires Ascending(s) && s != [] && i <= j < CLASSES
    ensures Percentile(s, i) <= Percentile(s, j)
  {
    PositionAscends(|s|, i, j);
    if |s| > 1 { InterpolatedAscends(s, Position(|s|, i), Position(|s|, j)); }
  }

  /** A class ends no lower than the value at its position, rounded down. */
  lemma PercentileReaches(s: seq<int>, i: nat)
    requires Ascending(s) && s != [] && i < CLASSES
    ensures Position(|s|, i) / 10 < |s| && s[Position(|s|, i) / 10] <= HalfEven(Percentile(s, i))
  {
    PositionAscends(|s|, i, i);
    if |s| > 1 { InterpolatedBounds(s, Position(|s|, i)); }
    HalfEvenAscends(10 * s[Position(|s|, i) / 10], Percentile(s, i));
  }

  ghost predicate Meant(d: Distribution, values: seq<Option<int>>) { Describe(values) == Some(d) }

  lemma BreakIs(d: Distribution, values: seq<Option<int>>, i: nat)
    requires Meant(d, values) && i < CLASSES
    ensures |d.breaks| == CLASSES && Sorted(values) != [] && d.breaks[i] == HalfEven(Percentile(Sorted(values), i))
  {
    var s := Sorted(values);
    if i == CLASSES - 1 {
      assert Percentile(s, i) == 10 * s[|s| - 1];
    }
  }

  /** Breaks never go down, and the last one is the greatest value. */
  lemma BreaksAscend(d: Distribution, values: seq<Option<int>>)
    requires Meant(d, values)
    ensures |d.breaks| == CLASSES && Ascending(d.breaks) && d.breaks[CLASSES - 1] == d.max
  {
    var s := Sorted(values);
    SortedAscends(values);
    forall i, j | 0 <= i < j < CLASSES ensures d.breaks[i] <= d.breaks[j] {
      BreakIs(d, values, i);
      BreakIs(d, values, j);
      PercentileAscends(s, i, j);
      HalfEvenAscends(Percentile(s, i), Percentile(s, j));
    }
    BreakIs(d, values, CLASSES - 1);
  }

  // ---------------------------------------------------------------------------------------------
  // Classes
  // ---------------------------------------------------------------------------------------------

  lemma {:induction false} BisectLeftMeans(s: seq<int>, v: int, i: nat)
    requires Ascending(s) && i < |s|
    ensures BisectLeft(s, v) <= i <==> v <= s[i]
  {
    if v > s[0] && i > 0 {
      BisectLeftMeans(s[1..], v, i - 1);
    }
  }

  lemma DescribedValue(d: Distribution, values: seq<Option<int>>, k: nat)
    requires Meant(d, values) && k < |values| && values[k].Some?
    ensures d.min <= values[k].value <= d.max
  {
    SortedIsComplete(values, k);
    SortedAscends(values);
  }

  /** A described value is in the first class whose break is not below it. Greater values are never in
      lower classes, and every value has a class. */
  lemma ClassOfValue(d: Distribution, values: seq<Option<int>>, v: int, i: nat)
    requires Meant(d, values) && i < CLASSES
    ensures 0 <= ClassIndex(d, v) < CLASSES
    ensures v <= d.max ==> (ClassIndex(d, v) <= i <==> v <= d.breaks[i])
    ensures v > d.max ==> ClassIndex(d, v) == CLASSES - 1
    ensures forall w :: v <= w ==> ClassIndex(d, v) <= ClassIndex(d, w)
  {
    BreaksAscend(d, values);
    BisectLeftMeans(d.breaks, v, i);
    BisectLeftMeans(d.breaks, v, CLASSES - 1);
    forall w | v <= w ensures ClassIndex(d, v) <= ClassIndex(d, w) {
      var at := BisectLeft(d.breaks, w);
      if at < CLASSES {
        BisectLeftMeans(d.breaks, w, at);
        BisectLeftMeans(d.breaks, v, at);
      }
    }
  }

  lemma {:induction false} InClassesCount(d: Distribution, all: seq<Option<int>>, values: seq<Option<int>>, i: nat)
    requires Meant(d, all) && i < CLASSES
    requires forall k :: 0 <= k < |values| && values[k].Some? ==> values[k].value <= d.max
    ensures |d.breaks| == CLASSES && InClasses(d, values, i) == UpTo(Sorted(values), d.breaks[i])
  {
    BreaksAscend(d, all);
    if values != [] {
      InClassesCount(d, all, values[1..], i);
      if values[0].Some? {
        SortedAscends(values[1..]);
        InsertFacts(Sorted(values[1..]), values[0].value, d.breaks[i]);
        ClassOfValue(d, all, values[0].value, i);
      }
    }
  }

  lemma {:induction false} FirstOnesCount(s: seq<int>, bound: int, n: nat)
    requires Ascending(s) && n < |s| && s[n] <= bound
    ensures UpTo(s, bound) >= n + 1
  {
    if n > 0 {
      FirstOnesCount(s[1..], bound, n - 1);
    }
  }

  /** The classes up to one hold at least their share of the values, in spite of interpolation and rounding. */
  lemma ClassesHoldTheirShare(d: Distribution, values: seq<Option<int>>, i: nat)
    requires Meant(d, values) && i < CLASSES
    ensures d.count > 0 && InClasses(d, values, i) >= (i + 1) * (d.count - 1) / 10 + 1
  {
    var s := Sorted(values);
    SortedAscends(values);
    BreakIs(d, values, i);
    forall k | 0 <= k < |values| && values[k].Some? ensures values[k].value <= d.max { DescribedValue(d, values, k); }
    InClassesCount(d, values, values, i);
    PercentileReaches(s, i);
    FirstOnesCount(s, d.breaks[i], Position(|s|, i) / 10);
  }

  // ---------------------------------------------------------------------------------------------
  // What the breaks are
  // ---------------------------------------------------------------------------------------------

  /** Rounded to the nearest, and halfway to an even number. */
  lemma HalfEvenMeans(tenths: int)
    ensures -5 <= 10 * HalfEven(tenths) - tenths <= 5
    ensures tenths % 10 == 5 ==> HalfEven(tenths) % 2 == 0
  { }

  /** Between two values, so many tenths of the way from one to the next; at a whole position, the value there. */
  lemma InterpolatedMeans(s: seq<int>, whole: nat, tenths: nat)
    requires whole < |s| && tenths < 10 && (tenths > 0 ==> whole + 1 < |s|)
    ensures Interpolated(s, 10 * whole + tenths) ==
              if tenths == 0 then 10 * s[whole] else (10 - tenths) * s[whole] + tenths * s[whole + 1]
  {
    if tenths > 0 {
      assert (s[whole + 1] - s[whole]) * tenths == tenths * s[whole + 1] - tenths * s[whole];
    }
  }

  /** The break of a class lies where that many tenths of the values end, from the least to the greatest,
      weighted between the two values there and rounded. */
  lemma BreakMeans(d: Distribution, values: seq<Option<int>>, i: nat, whole: nat, tenths: nat)
    requires Meant(d, values) && i < 10
    requires 10 * whole + tenths == (i + 1) * (|Sorted(values)| - 1) && tenths < 10
    ensures var s := Sorted(values);
            && whole < |s| && (tenths > 0 ==> whole + 1 < |s|) && i < |d.breaks|
            && d.breaks[i] == (if tenths == 0 then s[whole]
                               else HalfEven((10 - tenths) * s[whole] + tenths * s[whole + 1]))
  {
    var s := Sorted(values);
    BreakIs(d, values, i);
    PositionAscends(|s|, i, i);
    if |s| > 1 { InterpolatedMeans(s, whole, tenths); }
  }

  /** How many values are present. */
  function Known(values: seq<Option<int>>): nat {
    if values == [] then 0 else Known(values[1..]) + if values[0].Some? then 1 else 0
  }

  lemma {:induction false} InsertCounts(s: seq<int>, v: int)
    ensures multiset(Insert(s, v)) == multiset(s) + multiset{v}
  {
    if s != [] && v > s[0] {
      InsertCounts(s[1..], v);
      assert s == [s[0]] + s[1..];
    }
  }

  /** Sorting keeps every present value as often as it occurs. */
  lemma {:induction false} SortedIsPermutation(values: seq<Option<int>>, v: int)
    ensures |Sorted(values)| == Known(values)
    ensures multiset(Sorted(values))[v] == multiset(values)[Some(v)]
  {
    if values != [] {
      assert values == [values[0]] + values[1..];
      SortedIsPermutation(values[1..], v);
      if values[0].Some? {
        InsertCounts(Sorted(values[1..]), values[0].value);
        SortedAscends(values[1..]);
        InsertFacts(Sorted(values[1..]), values[0].value, 0);
      }
    }
  }

  /** There is a distribution as soon as a value is present. It counts the present and the missing ones, and
      its bounds are values that bound all the others. */
  lemma DescribedFacts(values: seq<Option<int>>)
    ensures Describe(values).Some? <==> exists k :: 0 <= k < |values| && values[k].Some?
    ensures Describe(values).Some? ==>
              var d := Describe(values).value;
              && d.count == Known(values) && d.count + d.missing == |values|
              && Some(d.min) in values && Some(d.max) in values
              && forall k :: 0 <= k < |values| && values[k].Some? ==> d.min <= values[k].value <= d.max
  {
    var s := Sorted(values);
    SortedSize(values);
    SortedIsPermutation(values, 0);
    if s != [] {
      var d := Describe(values).value;
      assert s[0] in s && s[|s| - 1] in s;
      SortedIsPermutation(values, d.min);
      SortedIsPermutation(values, d.max);
      assert Some(d.min) in multiset(values) && Some(d.max) in multiset(values);
      var at :| 0 <= at < |values| && values[at] == Some(d.min);
      forall k | 0 <= k < |values| && values[k].Some? ensures d.min <= values[k].value <= d.max {
        DescribedValue(d, values, k);
      }
    }
    forall k | 0 <= k < |values| && values[k].Some? ensures s != [] { SortedIsComplete(values, k); }
  }
}
